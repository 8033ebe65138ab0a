/**
 * The xorwow generator from one seed, up to a worker's first identifier
 * (prng/prng_xorshift.c, sample/sample_debug.c).
 */
module XorshiftSeed {
  import opened Prng
  import opened Xorshift
  import opened XorshiftWalk
  import opened Sample
  import opened Motif

  function Shifted(w: Words): Four { Four(w.w0, w.w1, w.w2, w.w3) }

  // ----- The plain step is the step of the generator, one operation at a time -----

  lemma PlainXor(t: bv32, s: bv32) ensures Xor(t, s) == t ^ s {}
  lemma PlainShr2(t: bv32) ensures Shr2(t) == t >> 2 {}
  lemma PlainXorShl(t: bv32, s: bv32) ensures Xor(t, Shl4(s)) == t ^ (s << 4) {}

  lemma SameRight(t: bv32)
    ensures Right2(t) == TwoRight(t)
  {
    hide Xor, Shr2, TwoRight;
    PlainShr2(t);
    PlainXor(t, t >> 2);
    PlainTwoRight(t);
  }

  lemma SameLeft(t: bv32) ensures Left1(t) == OneLeft(t) {}

  lemma PlainXorTwice(t: bv32, s: bv32)
    ensures Xor(Xor(t, s), Shl4(s)) == t ^ s ^ (s << 4)
  {
    hide Xor, Shl4;
    PlainXor(t, s);
    PlainXorShl(t ^ s, s);
  }

  lemma SameBlend(t: bv32, s: bv32)
    ensures Xor(Xor(t, s), Shl4(s)) == Blend(t, s)
  {
    hide Xor, Shl4;
    PlainXorTwice(t, s);
  }

  /** The new word of StepWords is the one of Shift. */
  lemma SameNew(w3: bv32, w0: bv32)
    ensures Xor(Scramble(w3), Mix(w0)) == NewWord(w3, w0)
  {
    hide Xor, Shl4, Left1, Right2, Mix, Scramble, TwoRight, OneLeft, Blend;
    MixedWord(w3, w0);
    SameRight(w3);
    SameLeft(TwoRight(w3));
    SameBlend(OneLeft(TwoRight(w3)), w0);
  }

  /** One draw in plain shifts: the words move up, the new one comes in front, and the counter is added to it. */
  lemma StepInPlainShifts(s: State)
    ensures var w, t := s.words, NextState(s);
      var counter := (w.counter + 32437) % 0x1_0000_0000;
      && t.0.words.w0 == (w.w3 ^ (w.w3 >> 2)) ^ ((w.w3 ^ (w.w3 >> 2)) << 1) ^ w.w0 ^ (w.w0 << 4)
      && t.0.words.w1 == w.w0 && t.0.words.w2 == w.w1 && t.0.words.w3 == w.w2 && t.0.words.counter == counter
      && t.1 == (t.0.words.w0 as int + counter) % 0x1_0000_0000 && t.0.current == t.1
  {
    hide Xor, Scramble, Mix, NewWord;
    SameNew(s.words.w3, s.words.w0);
    PlainNew(s.words.w3, s.words.w0);
  }

  // ----- Draws -----

  /** The state after k draws: the shifted words, the counter, and their sum as the output. */
  lemma {:induction false} WordsAfter(s: State, k: nat)
    ensures var t := After(XORSHIFT, s, k);
      && Shifted(t.words) == Shifts(Shifted(s.words), k)
      && t.words.counter == Wrap(s.words.counter + STRIDE * k)
      && (k > 0 ==> t.current == Sum(t.words.w0, t.words.counter))
  {
    hide Xor, Scramble, Mix, Sum;
    if k > 0 {
      WordsAfter(s, k - 1);
      var w := After(XORSHIFT, s, k - 1).words;
      SameNew(w.w3, w.w0);
      WrapAdd(s.words.counter + STRIDE * (k - 1), STRIDE);
    }
  }

  /** A seed that the option parser accepts (motif_1.c:142-145), with a short first object. */
  const SEED := 169
  const FIRST_ID := 2275256775

  lemma FirstDraw()
    ensures NextState(Seeded(SEED)).0.words == Words(0x85c28e40, 0x00002a40, 0x000a9000, 0x02a40000, 1073774303)
    ensures LenFrom(XORSHIFT, Seeded(SEED)) == 799
  {
  }

  /** The state in which a worker with this seed comes to its first write. */
  lemma FirstWrite()
    ensures var s := WriteState(XORSHIFT, SEED, 0);
      && s.words == Words(0x473a2d80, 0x75885041, 0x7d46063f, 0x909dba23, 1080261703)
      && s.current == FIRST_ID
  {
    hide NextState, Seeded;
    FirstDraw();
    TwoHundred();
    hide Shifts;
    WordsAfter(NextState(Seeded(SEED)).0, 200);
  }

  lemma IdentifierDraw()
    ensures LenFrom(XORSHIFT, Seeded(FIRST_ID)) == 1498
  {
    assert NextState(Seeded(FIRST_ID)).1 == 1833945562;
  }

  lemma WriteDraw(s: State)
    requires s.words == Words(0x473a2d80, 0x75885041, 0x7d46063f, 0x909dba23, 1080261703)
    ensures LenFrom(XORSHIFT, s) == 1401
  {
    assert StepWords(Words(0x473a2d80, 0x75885041, 0x7d46063f, 0x909dba23, 1080261703)).w0 == 3914827901;
  }

  /** Its first object has 1401 bytes, and the first identifier generates one of 1498. */
  lemma FirstLengths()
    ensures LenFrom(XORSHIFT, WriteState(XORSHIFT, SEED, 0)) == 1401
    ensures LenFrom(XORSHIFT, Seeded(FIRST_ID)) == 1498
  {
    hide NextState, Seeded, WriteState;
    FirstWrite();
    WriteDraw(WriteState(XORSHIFT, SEED, 0));
    IdentifierDraw();
  }
}
