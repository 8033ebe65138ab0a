/** The xorwow generator on 32-bit words (prng/prng_xorshift.c). */
module Xorshift {
  import opened Prng
  import opened Orbits

  /** state[0..4]; the fifth word is only ever added to. */
  datatype Words = Words(w0: bv32, w1: bv32, w2: bv32, w3: bv32, counter: Word)

  /** prng_s */
  datatype State = State(words: Words, current: Word)

  function Rot(s: bv32): bv32 { (s << 6) | (s >> 26) }

  /** prng_xorshift_init */
  function Seeded(seed: Word): State {
    var a := Rot(seed as bv32);
    var b := Rot(a);
    var c := Rot(b);
    var d := Rot(c);
    State(Words(a, b, c, d, Rot(d) as Word), seed)
  }

  const STRIDE := 32437

  /** t ^= t >> 2, then t ^= t << 1. */
  function Scramble(t: bv32): bv32 { Left1(Right2(t)) }

  function Mix(s: bv32): bv32 { Xor(s, Shl4(s)) }

  function StepWords(w: Words): Words {
    Words(Xor(Scramble(w.w3), Mix(w.w0)), w.w0, w.w1, w.w2, Wrap(w.counter + STRIDE))
  }

  function Sum(t: bv32, counter: Word): Word { Wrap(t as Word + counter) }

  /** prng_xorshift_next */
  function NextState(s: State): (State, Word) {
    var w := StepWords(s.words);
    var current := Sum(w.w0, w.counter);
    (State(w, current), current)
  }

  const XORSHIFT: Driver<State> := Driver(Seeded, NextState, (s: State) => s.current)

  // ----- Shifts and exclusive or as linear maps -----

  function Xor(x: bv32, y: bv32): bv32 { x ^ y }

  lemma XorLaws(x: bv32, y: bv32, z: bv32)
    ensures Xor(Xor(x, y), Xor(y, z)) == Xor(x, z)
    ensures Xor(Xor(x, y), y) == x
    ensures Xor(x, 0) == x
  {
  }

  function Shl1(x: bv32): bv32 { x << 1 }
  function Shl2(x: bv32): bv32 { x << 2 }
  function Shl4(x: bv32): bv32 { x << 4 }
  function Shl8(x: bv32): bv32 { x << 8 }
  function Shl16(x: bv32): bv32 { x << 16 }
  function Shr2(x: bv32): bv32 { x >> 2 }
  function Shr4(x: bv32): bv32 { x >> 4 }
  function Shr8(x: bv32): bv32 { x >> 8 }
  function Shr16(x: bv32): bv32 { x >> 16 }

  lemma Shl1Xor(x: bv32, y: bv32) ensures Shl1(Xor(x, y)) == Xor(Shl1(x), Shl1(y)) {}
  lemma Shl2Xor(x: bv32, y: bv32) ensures Shl2(Xor(x, y)) == Xor(Shl2(x), Shl2(y)) {}
  lemma Shl4Xor(x: bv32, y: bv32) ensures Shl4(Xor(x, y)) == Xor(Shl4(x), Shl4(y)) {}
  lemma Shl8Xor(x: bv32, y: bv32) ensures Shl8(Xor(x, y)) == Xor(Shl8(x), Shl8(y)) {}
  lemma Shl16Xor(x: bv32, y: bv32) ensures Shl16(Xor(x, y)) == Xor(Shl16(x), Shl16(y)) {}
  lemma Shr2Xor(x: bv32, y: bv32) ensures Shr2(Xor(x, y)) == Xor(Shr2(x), Shr2(y)) {}
  lemma Shr4Xor(x: bv32, y: bv32) ensures Shr4(Xor(x, y)) == Xor(Shr4(x), Shr4(y)) {}
  lemma Shr8Xor(x: bv32, y: bv32) ensures Shr8(Xor(x, y)) == Xor(Shr8(x), Shr8(y)) {}
  lemma Shr16Xor(x: bv32, y: bv32) ensures Shr16(Xor(x, y)) == Xor(Shr16(x), Shr16(y)) {}

  lemma Shl1Twice(x: bv32) ensures Shl1(Shl1(x)) == Shl2(x) {}
  lemma Shl2Twice(x: bv32) ensures Shl2(Shl2(x)) == Shl4(x) {}
  lemma Shl4Twice(x: bv32) ensures Shl4(Shl4(x)) == Shl8(x) {}
  lemma Shl8Twice(x: bv32) ensures Shl8(Shl8(x)) == Shl16(x) {}
  lemma Shl16Twice(x: bv32) ensures Shl16(Shl16(x)) == 0 {}
  lemma Shr2Twice(x: bv32) ensures Shr2(Shr2(x)) == Shr4(x) {}
  lemma Shr4Twice(x: bv32) ensures Shr4(Shr4(x)) == Shr8(x) {}
  lemma Shr8Twice(x: bv32) ensures Shr8(Shr8(x)) == Shr16(x) {}
  lemma Shr16Twice(x: bv32) ensures Shr16(Shr16(x)) == 0 {}

  function Left1(x: bv32): bv32 { Xor(x, Shl1(x)) }
  function Left2(x: bv32): bv32 { Xor(x, Shl2(x)) }
  function Left4(x: bv32): bv32 { Xor(x, Shl4(x)) }
  function Left8(x: bv32): bv32 { Xor(x, Shl8(x)) }
  function Left16(x: bv32): bv32 { Xor(x, Shl16(x)) }
  function Right2(x: bv32): bv32 { Xor(x, Shr2(x)) }
  function Right4(x: bv32): bv32 { Xor(x, Shr4(x)) }
  function Right8(x: bv32): bv32 { Xor(x, Shr8(x)) }
  function Right16(x: bv32): bv32 { Xor(x, Shr16(x)) }

  /** Doing a shifted exclusive or twice is doing it with twice the shift. */
  lemma Left1Twice(x: bv32)
    ensures Left1(Left1(x)) == Left2(x)
  {
    hide Xor, Shl1, Shl2;
    Shl1Xor(x, Shl1(x));
    Shl1Twice(x);
    XorLaws(x, Shl1(x), Shl2(x));
  }

  lemma Left2Twice(x: bv32)
    ensures Left2(Left2(x)) == Left4(x)
  {
    hide Xor, Shl2, Shl4;
    Shl2Xor(x, Shl2(x));
    Shl2Twice(x);
    XorLaws(x, Shl2(x), Shl4(x));
  }

  lemma Left4Twice(x: bv32)
    ensures Left4(Left4(x)) == Left8(x)
  {
    hide Xor, Shl4, Shl8;
    Shl4Xor(x, Shl4(x));
    Shl4Twice(x);
    XorLaws(x, Shl4(x), Shl8(x));
  }

  lemma Left8Twice(x: bv32)
    ensures Left8(Left8(x)) == Left16(x)
  {
    hide Xor, Shl8, Shl16;
    Shl8Xor(x, Shl8(x));
    Shl8Twice(x);
    XorLaws(x, Shl8(x), Shl16(x));
  }

  lemma Left16Twice(x: bv32)
    ensures Left16(Left16(x)) == x
  {
    hide Xor, Shl16;
    Shl16Xor(x, Shl16(x));
    Shl16Twice(x);
    XorLaws(x, Shl16(x), 0);
  }

  lemma Right2Twice(x: bv32)
    ensures Right2(Right2(x)) == Right4(x)
  {
    hide Xor, Shr2, Shr4;
    Shr2Xor(x, Shr2(x));
    Shr2Twice(x);
    XorLaws(x, Shr2(x), Shr4(x));
  }

  lemma Right4Twice(x: bv32)
    ensures Right4(Right4(x)) == Right8(x)
  {
    hide Xor, Shr4, Shr8;
    Shr4Xor(x, Shr4(x));
    Shr4Twice(x);
    XorLaws(x, Shr4(x), Shr8(x));
  }

  lemma Right8Twice(x: bv32)
    ensures Right8(Right8(x)) == Right16(x)
  {
    hide Xor, Shr8, Shr16;
    Shr8Xor(x, Shr8(x));
    Shr8Twice(x);
    XorLaws(x, Shr8(x), Shr16(x));
  }

  lemma Right16Twice(x: bv32)
    ensures Right16(Right16(x)) == x
  {
    hide Xor, Shr16;
    Shr16Xor(x, Shr16(x));
    Shr16Twice(x);
    XorLaws(x, Shr16(x), 0);
  }

  function UndoLeft(y: bv32): bv32 { Left16(Left8(Left4(Left2(Left1(y))))) }

  function UndoRight(y: bv32): bv32 { Right16(Right8(Right4(Right2(y)))) }

  lemma UndoLeftAfter(x: bv32)
    ensures UndoLeft(Left1(x)) == x
  {
    hide Left1, Left2, Left4, Left8, Left16;
    Left1Twice(x);
    Left2Twice(x);
    Left4Twice(x);
    Left8Twice(x);
    Left16Twice(x);
  }

  /** The inverse on the other side, through the factors in the other order. */
  lemma UndoLeftBefore(x: bv32)
    ensures Left1(UndoLeft(x)) == x
  {
    hide Left1, Left2, Left4, Left8, Left16;
    var d := Left16(x);
    var c := Left8(d);
    var b := Left4(c);
    var a := Left2(b);
    Left1Twice(a);
    Left2Twice(b);
    Left4Twice(c);
    Left8Twice(d);
    Left16Twice(x);
    UndoLeftAfter(Left1(a));
  }

  lemma UndoRightAfter(x: bv32)
    ensures UndoRight(Right2(x)) == x
  {
    hide Right2, Right4, Right8, Right16;
    Right2Twice(x);
    Right4Twice(x);
    Right8Twice(x);
    Right16Twice(x);
  }

  lemma UndoRightBefore(x: bv32)
    ensures Right2(UndoRight(x)) == x
  {
    hide Right2, Right4, Right8, Right16;
    var d := Right16(x);
    var c := Right8(d);
    var b := Right4(c);
    Right2Twice(b);
    Right4Twice(c);
    Right8Twice(d);
    Right16Twice(x);
    UndoRightAfter(Right2(b));
  }

  // ----- The step is a bijection -----

  function UnstepWords(w: Words): Words {
    Words(w.w1, w.w2, w.w3, UndoRight(UndoLeft(Xor(w.w0, Mix(w.w1)))), Wrap(w.counter - STRIDE))
  }

  /** The step has an explicit inverse on the five state words. */
  lemma StepIsBijective(w: Words)
    ensures UnstepWords(StepWords(w)) == w
    ensures StepWords(UnstepWords(w)) == w
  {
    hide Xor, Mix, Left1, Right2, UndoLeft, UndoRight;
    UndoRightAfter(w.w3);
    UndoLeftAfter(Right2(w.w3));
    XorLaws(Scramble(w.w3), Mix(w.w0), 0);
    var u := Xor(w.w0, Mix(w.w1));
    UndoLeftBefore(u);
    UndoRightBefore(UndoLeft(u));
    XorLaws(w.w0, Mix(w.w1), 0);
  }

  predicate Zero(w: Words) { w.w0 == 0 && w.w1 == 0 && w.w2 == 0 && w.w3 == 0 }

  lemma ZeroWords()
    ensures Left1(0) == 0 && Right2(0) == 0 && Mix(0) == 0 && Xor(0, 0) == 0
    ensures UndoLeft(0) == 0 && UndoRight(0) == 0
  {
  }

  /** The four shifted words are all zero after a step only if they were before it. */
  lemma ZeroIff(w: Words)
    ensures Zero(StepWords(w)) <==> Zero(w)
  {
    hide Xor, Mix, Left1, Right2, UndoLeft, UndoRight;
    ZeroWords();
    StepIsBijective(w);
  }

  lemma SeededIsZero(seed: Word)
    ensures Zero(Seeded(seed).words) <==> seed == 0
  {
  }

  /** In every run from a non-zero seed the four shifted words are never all zero. */
  lemma {:induction false} NeverZero(seed: Word, k: nat)
    ensures Zero(After(XORSHIFT, Seeded(seed), k).words) <==> seed == 0
  {
    SeededIsZero(seed);
    if k > 0 {
      NeverZero(seed, k - 1);
      ZeroIff(After(XORSHIFT, Seeded(seed), k - 1).words);
    }
  }

  // ----- Every state lies on a cycle -----

  function ToBits(i: Word): bv32 { i as bv32 }

  lemma BitsBack(b: bv32)
    ensures ToBits(b as Word) == b
  {
  }

  lemma AllBits() returns (s: set<bv32>)
    ensures forall b: bv32 :: b in s
  {
    hide ToBits;
    s := set i: Word | 0 <= i < WORD_LIMIT :: ToBits(i);
    forall b: bv32 ensures b in s {
      BitsBack(b);
    }
  }

  lemma AllWords() returns (s: set<Words>)
    ensures forall w :: w in s
  {
    var bits := AllBits();
    s := set a, b, c, d, n: Word | a in bits && b in bits && c in bits && d in bits && 0 <= n < WORD_LIMIT
           :: Words(a, b, c, d, n);
    forall w: Words ensures w in s {
      assert w == Words(w.w0, w.w1, w.w2, w.w3, w.counter);
    }
  }

  /** Each step adds the stride to the counter. */
  lemma {:induction false} CounterAfter(w: Words, k: nat)
    ensures Iterate(StepWords, w, k).counter == Wrap(w.counter + STRIDE * k)
  {
    hide Xor, Mix, Scramble;
    if k > 0 {
      CounterAfter(w, k - 1);
      WrapAdd(w.counter + STRIDE * (k - 1), STRIDE);
    }
  }

  /** The multiplicative inverse of the stride modulo 2^32. */
  const STRIDE_INVERSE := 3977052061

  lemma StrideIsCoprime(c: Word, k: nat)
    requires Wrap(c + STRIDE * k) == c
    ensures k % WORD_LIMIT == 0
  {
    var m := (c + STRIDE * k) / WORD_LIMIT;
    assert STRIDE * k == m * WORD_LIMIT;
    assert STRIDE * STRIDE_INVERSE == 30036 * WORD_LIMIT + 1;
    assert k == (m * STRIDE_INVERSE - 30036 * k) * WORD_LIMIT;
  }

  /** Every state of the five words comes back, after a number of steps that is a multiple of 2^32 and no sooner. */
  lemma EveryStateIsOnACycle(w: Words)
    ensures exists k: nat :: 0 < k && Iterate(StepWords, w, k) == w
    ensures forall k: nat :: Iterate(StepWords, w, k) == w ==> k % WORD_LIMIT == 0
  {
    forall x, y | StepWords(x) == StepWords(y) ensures x == y {
      StepIsBijective(x);
      StepIsBijective(y);
    }
    var all := AllWords();
    var k := ReturnsToStart(StepWords, all, w);
    forall k: nat | Iterate(StepWords, w, k) == w ensures k % WORD_LIMIT == 0 {
      CounterAfter(w, k);
      StrideIsCoprime(w.counter, k);
    }
  }

  // ----- Reseeding -----

  /** Seeding with the last output restores a state exactly when the state came from seeding. */
  lemma RestoresIffSeeded(s: State)
    ensures Restores(XORSHIFT, s) <==> exists seed :: s == Seeded(seed)
  {
    if exists seed :: s == Seeded(seed) {
      var seed :| s == Seeded(seed);
    }
  }

  /** One draw is enough to leave those states: the generator is not faithful. */
  lemma NotFaithful()
    ensures !Restores(XORSHIFT, After(XORSHIFT, Seeded(0), 1))
    ensures !Faithful(XORSHIFT)
  {
    assert !Restores(XORSHIFT, After(XORSHIFT, Seeded(0), 1));
  }

  function By6(s: bv32): bv32 { (s << 6) | (s >> 26) }
  function By12(s: bv32): bv32 { (s << 12) | (s >> 20) }
  function By18(s: bv32): bv32 { (s << 18) | (s >> 14) }
  function By24(s: bv32): bv32 { (s << 24) | (s >> 8) }
  function By30(s: bv32): bv32 { (s << 30) | (s >> 2) }

  lemma Rot6(s: bv32) ensures Rot(s) == By6(s) {}
  lemma Rot12(s: bv32) ensures Rot(By6(s)) == By12(s) {}
  lemma Rot18(s: bv32) ensures Rot(By12(s)) == By18(s) {}
  lemma Rot24(s: bv32) ensures Rot(By18(s)) == By24(s) {}
  lemma Rot30(s: bv32) ensures Rot(By24(s)) == By30(s) {}

  /** The words of a seed are the seed rotated left by 6, 12, 18, 24 and 30 bits. */
  lemma SeededIsRotated(seed: Word)
    ensures var s := seed as bv32;
      Seeded(seed) == State(Words(By6(s), By12(s), By18(s), By24(s), By30(s) as Word), seed)
    ensures XORSHIFT.peek(Seeded(seed)) == seed
  {
    hide Rot, By6, By12, By18, By24, By30;
    var s := seed as bv32;
    Rot6(s);
    Rot12(s);
    Rot18(s);
    Rot24(s);
    Rot30(s);
  }

  /** Peek shows the last output, and after seeding the seed. */
  lemma PeekShowsLast(s: State)
    ensures XORSHIFT.peek(XORSHIFT.next(s).0) == XORSHIFT.next(s).1
  {
  }

  // ----- The generator's memory, updated in place -----

  lemma XorAssoc(x: bv32, y: bv32, z: bv32)
    ensures Xor(Xor(x, y), z) == Xor(x, Xor(y, z))
  {
  }

  lemma MixedWord(w3: bv32, w0: bv32)
    ensures Xor(Xor(Left1(Right2(w3)), w0), Shl4(w0)) == Xor(Scramble(w3), Mix(w0))
  {
    hide Xor, Shl4, Left1, Right2;
    XorAssoc(Left1(Right2(w3)), w0, Shl4(w0));
  }

  class XorshiftCell {
    const state: array<bv32>
    var counter: Word
    var current: Word

    predicate Valid() { state.Length == 4 }

    function View(): State
      requires Valid()
      reads this, state
    {
      State(Words(state[0], state[1], state[2], state[3], counter), current)
    }

    constructor (seed: Word)
      ensures Valid() && fresh(state) && View() == Seeded(seed)
    {
      state := new bv32[4];
      counter, current := 0, 0;
      new;
      Init(seed);
    }

    method Init(seed: Word)
      requires Valid()
      modifies this, state
      ensures View() == Seeded(seed)
    {
      hide Rot;
      current := seed;
      state[0] := Rot(seed as bv32);
      state[1] := Rot(state[0]);
      state[2] := Rot(state[1]);
      state[3] := Rot(state[2]);
      counter := Rot(state[3]) as Word;
    }

    method Next() returns (r: Word)
      requires Valid()
      modifies this, state
      ensures (View(), r) == NextState(old(View()))
    {
      hide Xor, Shl4, Left1, Right2, Scramble, Mix, Sum;
      MixedWord(state[3], state[0]);
      var s, t := state[0], state[3];
      t := Right2(t);
      t := Left1(t);
      state[3] := state[2];
      state[2] := state[1];
      state[1] := s;
      t := Xor(t, s);
      t := Xor(t, Shl4(s));
      state[0] := t;
      counter := Wrap(counter + STRIDE);
      current := Sum(t, counter);
      r := current;
    }
  }
}
