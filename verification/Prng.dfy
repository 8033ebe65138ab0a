/** Pseudo-random number generators behind one table of functions (prng/prng.c, prng/prng_debug.c). */
module Prng {

  const WORD_LIMIT := 0x1_0000_0000

  /** uint32_t */
  type Word = x: int | 0 <= x < WORD_LIMIT

  /** prng_driver_t over states S: seeding, the next state with its output, and peek. */
  datatype Driver<!S(!new)> = Driver(init: Word -> S, next: S -> (S, Word), peek: S -> Word)

  /** The state after k draws. */
  function After<S(!new)>(d: Driver<S>, s: S, k: nat): S {
    if k == 0 then s else d.next(After(d, s, k - 1)).0
  }

  /** The first k outputs. */
  function Stream<S(!new)>(d: Driver<S>, s: S, k: nat): (r: seq<Word>)
    ensures |r| == k
  {
    if k == 0 then [] else Stream(d, s, k - 1) + [d.next(After(d, s, k - 1)).1]
  }

  lemma {:induction false} StreamPrefix<S(!new)>(d: Driver<S>, s: S, j: nat, k: nat)
    requires j <= k
    ensures Stream(d, s, k)[..j] == Stream(d, s, j)
  {
    if j < k {
      StreamPrefix(d, s, j, k - 1);
    }
  }

  /** Seeding with what peek shows restores the state. */
  ghost predicate Restores<S(!new)>(d: Driver<S>, s: S) { d.init(d.peek(s)) == s }

  ghost predicate Faithful<S(!new)>(d: Driver<S>) { forall s :: Restores(d, s) }

  /** prng_t */
  class Prng<S(!new)> {
    const d: Driver<S>
    var state: S

    /** prng_create */
    constructor (d: Driver<S>, seed: Word)
      ensures this.d == d && state == d.init(seed)
    {
      this.d := d;
      state := d.init(seed);
    }

    method Init(seed: Word)
      modifies this
      ensures state == d.init(seed)
    {
      state := d.init(seed);
    }

    method Draw() returns (w: Word)
      modifies this
      ensures (state, w) == d.next(old(state))
    {
      var r := d.next(state);
      state, w := r.0, r.1;
    }

    method Peek() returns (w: Word)
      ensures w == d.peek(state)
    {
      w := d.peek(state);
    }
  }

  /** Seeding again replays the stream, from any state and for any number of draws. */
  method Replay<S(!new)>(p: Prng<S>, seed: Word, k: nat) returns (first: seq<Word>, again: seq<Word>)
    modifies p
    ensures first == again == Stream(p.d, p.d.init(seed), k)
  {
    p.Init(seed);
    first := DrawMany(p, k);
    p.Init(seed);
    again := DrawMany(p, k);
  }

  method DrawMany<S(!new)>(p: Prng<S>, k: nat) returns (out: seq<Word>)
    modifies p
    ensures out == Stream(p.d, old(p.state), k) && p.state == After(p.d, old(p.state), k)
  {
    out := [];
    for i := 0 to k
      invariant out == Stream(p.d, old(p.state), i) && p.state == After(p.d, old(p.state), i)
    {
      var w := p.Draw();
      out := out + [w];
    }
  }

  // ----- PRNG_DEBUG: a counter that wraps -----

  function Wrap(x: int): Word { x % WORD_LIMIT }

  lemma WrapAdd(x: int, y: int)
    ensures Wrap(Wrap(x) + y) == Wrap(x + y)
  {
  }

  function DebugSeeded(seed: Word): Word { seed }

  function DebugNext(s: Word): (Word, Word) { (Wrap(s + 1), s) }

  function DebugPeek(s: Word): Word { s }

  const DEBUG: Driver<Word> := Driver(DebugSeeded, DebugNext, DebugPeek)

  lemma DebugIsFaithful()
    ensures Faithful(DEBUG)
  {
  }

  lemma {:induction false} DebugAfter(s: Word, k: nat)
    ensures After(DEBUG, s, k) == Wrap(s + k)
  {
    if k > 0 {
      DebugAfter(s, k - 1);
      WrapAdd(s + k - 1, 1);
    }
  }

  // ----- What the generators show -----

  /** Drawing first and then k times more is drawing k + 1 times. */
  lemma {:induction false} StreamNext<S(!new)>(d: Driver<S>, s: S, k: nat)
    ensures After(d, s, k + 1) == After(d, d.next(s).0, k)
    ensures Stream(d, s, k + 1) == [d.next(s).1] + Stream(d, d.next(s).0, k)
  {
    if k > 0 {
      StreamNext(d, s, k - 1);
    }
  }

  /** PRNG_DEBUG counts from its seed, and peek shows the next output without drawing it. */
  lemma {:induction false} DebugCounts(seed: Word, k: nat)
    ensures forall i :: 0 <= i < k ==> Stream(DEBUG, DEBUG.init(seed), k)[i] == (seed + i) % 0x1_0000_0000
    ensures DEBUG.peek(After(DEBUG, DEBUG.init(seed), k)) == (seed + k) % 0x1_0000_0000
    ensures DEBUG.next(After(DEBUG, DEBUG.init(seed), k)).1 == DEBUG.peek(After(DEBUG, DEBUG.init(seed), k))
  {
    DebugAfter(DEBUG.init(seed), k);
    if k > 0 {
      DebugCounts(seed, k - 1);
    }
  }
}
