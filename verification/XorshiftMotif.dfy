/**
 * The motif with PRNG_XORSHIFT: its read phase can reject objects that were stored correctly
 * (motif_1.c, prng/prng_xorshift.c).
 */
module XorshiftMotif {
  import opened Prng
  import opened Xorshift
  import opened Sample
  import opened Motif
  import opened MotifTheorems
  import Walked = XorshiftSeed

  /** An object reads back when the state it was generated from came from a seed. */
  lemma SeededReadsBack(p: Plan<State>, seed: Word, k: nat)
    requires p.d == XORSHIFT && k < p.writeCount && exists s :: FirstState(p, seed, k) == Seeded(s)
    ensures ReadsBack(p, seed, k)
  {
    RestoresIffSeeded(FirstState(p, seed, k));
    RestoredReadsBack(p, seed, k);
  }

  // ----- Seed 0 -----

  function Counting(c: Word): State { State(Words(0, 0, 0, 0, c), c) }

  lemma CountingStep(c: Word)
    ensures NextState(Counting(c)) == (Counting(Wrap(c + STRIDE)), Wrap(c + STRIDE))
  {
    ZeroWords();
  }

  lemma CountingStart()
    ensures Seeded(0) == Counting(0)
  {
  }

  /** From seed 0 only the counter moves. */
  lemma {:induction false} CountingAfter(c: Word, k: nat)
    ensures After(XORSHIFT, Counting(c), k) == Counting(Wrap(c + STRIDE * k))
  {
    hide NextState;
    if k > 0 {
      CountingAfter(c, k - 1);
      CountingStep(Wrap(c + STRIDE * (k - 1)));
      WrapAdd(c + STRIDE * (k - 1), STRIDE);
    }
  }

  const FIRST_ID := 7752443

  /** The first sample takes 239 draws, and the output after them becomes the first identifier. */
  lemma FirstIdentifier()
    ensures WriteState(XORSHIFT, 0, 0) == Counting(FIRST_ID)
    ensures LenFrom(XORSHIFT, Counting(FIRST_ID)) == 1200
  {
    hide NextState;
    CountingStart();
    CountingStep(0);
    CountingAfter(STRIDE, 238);
    CountingStep(FIRST_ID);
  }

  /** The identifier generates a sample of another length. */
  lemma IdentifierLength()
    ensures LenFrom(XORSHIFT, Seeded(FIRST_ID)) == 795
  {
    assert NextState(Seeded(FIRST_ID)).1 == 1259864091;
  }

  // ----- Rejected objects -----

  /** A first object whose length is not the one that its identifier generates does not read back. */
  lemma OtherLength(p: Plan<State>, seed: Word)
    requires Sane(p) && p.d == XORSHIFT
    requires var s := WriteState(XORSHIFT, seed, 0); LenFrom(XORSHIFT, s) != LenFrom(XORSHIFT, Seeded(s.current))
    ensures !ReadsBack(p, seed, 0)
  {
    hide NextState, Seeded, LenFrom, Drawn, WriteState;
    FirstUseIs(XORSHIFT, seed, 0, p.writeCount);
    ContentWords(XORSHIFT, WriteState(XORSHIFT, seed, 0));
    ContentWords(XORSHIFT, Seeded(WriteState(XORSHIFT, seed, 0).current));
  }

  /** A worker with seed 0, or with seed 169, stores its first object and then finds it not valid. */
  lemma XorshiftIsNotAlwaysValid(p: Plan<State>, seed: Word)
    requires Sane(p) && p.d == XORSHIFT && 0 < p.readCount && seed in p.seeds && (seed == 0 || seed == Walked.SEED)
    ensures !AlwaysValid(p)
  {
    hide NextState, Seeded, LenFrom, ReadsBack, WriteState;
    if seed == 0 {
      FirstIdentifier();
      IdentifierLength();
    } else {
      Walked.FirstWrite();
      Walked.FirstLengths();
    }
    OtherLength(p, seed);
    var w :| 0 <= w < |p.seeds| && p.seeds[w] == seed;
    assert !ReadsBack(p, p.seeds[w], 0);
    ValidIff(p);
  }
}
