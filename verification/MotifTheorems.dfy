/** What a whole run of the motif guarantees (motif_1.c). */
module MotifTheorems {
  import opened Common
  import opened Arith
  import opened Prng
  import opened Sample
  import opened Naming
  import opened Motif

  /** In every interleaving a check comes out as the generator alone decides: whether the first write that used the
      identifier generated what the identifier itself generates. */
  lemma VerdictsAreDetermined<S(!new)>(p: Plan<S>, run: seq<nat>, s: System<S>)
    requires Sane(p) && Exec(p, run) == Some(s)
    ensures |s.workers| == |p.seeds|
    ensures forall w, i :: 0 <= w < |s.workers| && 0 <= i < |s.workers[w].verdicts| ==>
              s.workers[w].verdicts[i] == ReadsBack(p, p.seeds[w], i % p.writeCount)
  {
    RunKeepsInv(p, run, s);
    forall w, i | 0 <= w < |s.workers| && 0 <= i < |s.workers[w].verdicts|
      ensures s.workers[w].verdicts[i] == ReadsBack(p, p.seeds[w], i % p.writeCount)
    {
      hide ReadsBack;
      assert WorkerInv(p, p.seeds[w], s.workers[w]);
    }
  }

  /** The first use of an identifier among n writes, if there is one. */
  lemma {:induction false} FirstUseMatches<S(!new)>(d: Driver<S>, seed: Word, id: Word, n: nat)
    ensures FirstUse(d, seed, id, n) < n ==> d.peek(WriteState(d, seed, FirstUse(d, seed, id, n))) == id
    ensures forall i: nat :: i < FirstUse(d, seed, id, n) ==> d.peek(WriteState(d, seed, i)) != id
  {
    if n > 0 {
      FirstUseMatches(d, seed, id, n - 1);
    }
  }

  /** The state from which the object of write number k was generated, at the first write with its identifier. */
  function FirstState<S(!new)>(p: Plan<S>, seed: Word, k: nat): S {
    WriteState(p.d, seed, FirstUse(p.d, seed, p.d.peek(WriteState(p.d, seed, k)), p.writeCount))
  }

  /**
   * What a check compares, in every interleaving: the bytes generated at the first write with the identifier, with
   * those generated after seeding with the identifier. It passes if and only if all of them, and their number, are
   * equal.
   */
  lemma VerdictsCompareBytes<S(!new)>(p: Plan<S>, run: seq<nat>, s: System<S>, w: nat, i: nat)
    requires Sane(p) && Exec(p, run) == Some(s) && w < |s.workers| && i < |s.workers[w].verdicts|
    ensures |s.workers| == |p.seeds|
    ensures var k := i % p.writeCount;
      s.workers[w].verdicts[i] <==>
        Content(p.d, FirstState(p, p.seeds[w], k)) == Content(p.d, p.d.init(p.d.peek(WriteState(p.d, p.seeds[w], k))))
  {
    VerdictsAreDetermined(p, run, s);
    hide Content, FirstUse, WriteState;
  }

  /** Where peek restores that state, the object reads back as generated from its identifier. */
  lemma RestoredReadsBack<S(!new)>(p: Plan<S>, seed: Word, k: nat)
    requires k < p.writeCount && Restores(p.d, FirstState(p, seed, k))
    ensures ReadsBack(p, seed, k)
  {
    hide Content;
    var id := p.d.peek(WriteState(p.d, seed, k));
    FirstUseMatches(p.d, seed, id, p.writeCount);
  }

  /** A generator whose peek restores every state keeps under an identifier what the identifier generates. */
  lemma FaithfulReadsBack<S(!new)>(p: Plan<S>, seed: Word, k: nat)
    requires Faithful(p.d) && k < p.writeCount
    ensures ReadsBack(p, seed, k)
  {
    hide Content, FirstState;
    assert Restores(p.d, FirstState(p, seed, k));
    RestoredReadsBack(p, seed, k);
  }

  /**
   * With a generator whose peek restores its state, every read back validates in every interleaving, also after
   * identifiers have repeated and creates have been refused; and every stored object holds exactly what its
   * identifier generates, unless its own worker has just created it and not filled it yet.
   */
  lemma ReadsValidate<S(!new)>(p: Plan<S>, run: seq<nat>, s: System<S>)
    requires Sane(p) && Faithful(p.d) && Exec(p, run) == Some(s)
    ensures forall w, i :: 0 <= w < |s.workers| && 0 <= i < |s.workers[w].verdicts| ==> s.workers[w].verdicts[i]
    ensures forall k :: k in s.store ==>
              && k.client < |s.workers|
              && (s.store[k] == Generated(p, k.obj) || (s.workers[k.client].pc.Filling? && s.store[k] == []))
  {
    RunKeepsInv(p, run, s);
    VerdictsAreDetermined(p, run, s);
    forall w, i | 0 <= w < |s.workers| && 0 <= i < |s.workers[w].verdicts| ensures s.workers[w].verdicts[i] {
      FaithfulReadsBack(p, p.seeds[w], i % p.writeCount);
    }
    forall k | k in s.store
      ensures k.client < |s.workers|
      ensures s.store[k] == Generated(p, k.obj) || (s.workers[k.client].pc.Filling? && s.store[k] == [])
    {
      StoredAsGenerated(p, s, k);
    }
  }

  lemma StoredAsGenerated<S(!new)>(p: Plan<S>, s: System<S>, k: Key)
    requires Faithful(p.d) && Inv(p, s) && k in s.store
    ensures k.client < |s.workers|
    ensures s.store[k] == Generated(p, k.obj) || (s.workers[k.client].pc.Filling? && s.store[k] == [])
  {
    hide Content, Beyond, WriteState, Generated;
    assert Owned(s, k);
    var x := s.workers[k.client];
    assert Stored(p, s.store, k.client, x) && WorkerInv(p, p.seeds[k.client], x);
    if k.obj in Settled(x) {
      var i :| 0 <= i < |x.ids| && x.ids[i] == k.obj;
      FaithfulReadsBack(p, p.seeds[k.client], i);
    }
  }

  /** PRNG_DEBUG is such a generator, for any seeds and counts. */
  lemma DebugReadsValidate(p: Plan<Word>, run: seq<nat>, s: System<Word>)
    requires Sane(p) && p.d == DEBUG && Exec(p, run) == Some(s)
    ensures forall w, i :: 0 <= w < |s.workers| && 0 <= i < |s.workers[w].verdicts| ==> s.workers[w].verdicts[i]
  {
    DebugIsFaithful();
    ReadsValidate(p, run, s);
  }

  /** The number of refused creates is the number of identifiers that repeat an earlier one of the same worker. */
  lemma RefusedAreRepeats<S(!new)>(p: Plan<S>, run: seq<nat>, s: System<S>, w: nat)
    requires Sane(p) && Exec(p, run) == Some(s) && w < |s.workers|
    ensures s.workers[w].refused == Repeats(Settled(s.workers[w]))
    ensures w < |p.seeds| && |s.workers[w].ids| <= p.writeCount
    ensures forall i :: 0 <= i < |s.workers[w].ids| ==> s.workers[w].ids[i] == p.d.peek(WriteState(p.d, p.seeds[w], i))
  {
    RunKeepsInv(p, run, s);
    assert WorkerInv(p, p.seeds[w], s.workers[w]);
  }

  // ----- Every run completes -----

  /** A bound on the steps a worker has still to take. */
  function Left<S(!new)>(p: Plan<S>, x: Worker<S>): nat {
    var writes := if |x.ids| < p.writeCount then p.writeCount - |x.ids| else 0;
    var checks := if |x.verdicts| < p.readCount then p.readCount - |x.verdicts| else 0;
    match x.pc
    case Starting => 8 * writes + 2 * checks + 3
    case Writing => 8 * writes + 2 * checks + 2
    case Opening => 8 * writes + 2 * checks + 9
    case Making(level) => 8 * writes + 2 * checks + (if level <= 2 then 8 - level else 6)
    case Retrying => 8 * writes + 2 * checks + 5
    case Filling => 8 * writes + 2 * checks + 3
    case Reading => 2 * checks + 1
    case Checking => 2 * checks
    case Done => 0
  }

  function LeftIn<S(!new)>(p: Plan<S>): Worker<S> -> nat { x => Left(p, x) }

  lemma LocalUsesUp<S(!new)>(p: Plan<S>, seed: Word, x: Worker<S>, found: Option<Bytes>)
    requires Sane(p) && WorkerInv(p, seed, x) && !Active(x.pc) && !x.pc.Done?
    ensures Left(p, Local(p, seed, x, found)) < Left(p, x)
  {
    hide ReadsBack, Kept, Content, Beyond, WriteState, Repeats;
  }

  lemma WorkerUsesUp<S(!new)>(p: Plan<S>, s: System<S>, w: nat)
    requires Sane(p) && Inv(p, s) && Can(p, s.workers, w)
    ensures Left(p, Step(p, s, w).workers[w]) < Left(p, s.workers[w])
  {
    hide ReadsBack, Kept, Content, Beyond, WriteState, Repeats;
    var x := s.workers[w];
    assert WorkerInv(p, p.seeds[w], x);
    if !Active(x.pc) {
      LocalUsesUp(p, p.seeds[w], x, if x.pc.Reading? then Find(s.store, Key(w, ReadId(p, x))) else None);
    }
  }

  lemma StepUsesUp<S(!new)>(p: Plan<S>, s: System<S>, w: nat)
    requires Sane(p) && Inv(p, s) && Can(p, s.workers, w)
    ensures Tally(Step(p, s, w).workers, LeftIn(p)) < Tally(s.workers, LeftIn(p))
  {
    WorkerUsesUp(p, s, w);
    StepMovesOne(p, s, w);
    hide Step, Left, Inv;
    TallyUpdate(s.workers, w, Step(p, s, w).workers[w], LeftIn(p));
  }

  lemma StepMovesOne<S(!new)>(p: Plan<S>, s: System<S>, w: nat)
    requires Can(p, s.workers, w)
    ensures Step(p, s, w).workers == s.workers[w := Step(p, s, w).workers[w]]
  {
    hide Local;
  }

  lemma {:induction false} RunIsBounded<S(!new)>(p: Plan<S>, run: seq<nat>, s: System<S>)
    requires Sane(p) && Exec(p, run) == Some(s)
    ensures |run| + Tally(s.workers, LeftIn(p)) <= (8 * p.writeCount + 2 * p.readCount + 3) * |p.seeds|
  {
    if run == [] {
      TallyConst(s.workers, LeftIn(p), 8 * p.writeCount + 2 * p.readCount + 3);
    } else {
      var k := |run| - 1;
      var before := Exec(p, run[..k]).value;
      RunIsBounded(p, run[..k], before);
      RunKeepsInv(p, run[..k], before);
      StepUsesUp(p, before, run[k]);
    }
  }

  /** Every schedule is finite, and one that cannot go on has let every worker write and check all its objects. */
  lemma EveryRunCompletes<S(!new)>(p: Plan<S>, run: seq<nat>, s: System<S>)
    requires Sane(p) && Exec(p, run) == Some(s)
    ensures |run| <= (8 * p.writeCount + 2 * p.readCount + 3) * |p.seeds|
    ensures |s.workers| == |p.seeds|
    ensures (forall w: nat :: !Can(p, s.workers, w)) ==>
              forall w :: 0 <= w < |p.seeds| ==>
                && |s.workers[w].ids| == p.writeCount
                && |s.workers[w].verdicts| == p.readCount
  {
    RunIsBounded(p, run, s);
    RunKeepsInv(p, run, s);
    if forall w: nat :: !Can(p, s.workers, w) {
      forall w | 0 <= w < |p.seeds|
        ensures |s.workers[w].ids| == p.writeCount && |s.workers[w].verdicts| == p.readCount
      {
        assert !Can(p, s.workers, w);
        assert WorkerInv(p, p.seeds[w], s.workers[w]);
      }
    }
  }

  /** Every run can be carried on to one that cannot go on. */
  lemma {:induction false} RunToEnd<S(!new)>(p: Plan<S>, run: seq<nat>, s: System<S>)
    returns (run': seq<nat>, s': System<S>)
    requires Sane(p) && Exec(p, run) == Some(s)
    ensures Exec(p, run') == Some(s') && forall w: nat :: !Can(p, s'.workers, w)
    decreases Tally(s.workers, LeftIn(p))
  {
    run', s' := run, s;
    if exists w: nat :: Can(p, s.workers, w) {
      var w: nat :| Can(p, s.workers, w);
      RunKeepsInv(p, run, s);
      StepUsesUp(p, s, w);
      var longer := run + [w];
      assert longer[..|run|] == run;
      run', s' := RunToEnd(p, longer, Step(p, s, w));
    }
  }

  /** Any number of workers that a client identifier can tell apart, with any counts, has a run that completes. */
  lemma SomeRunCompletes<S(!new)>(p: Plan<S>) returns (run: seq<nat>, s: System<S>)
    requires 0 < p.writeCount && |p.seeds| <= 0x1_0000_0000
    ensures Exec(p, run) == Some(s) && |s.workers| == |p.seeds|
    ensures forall w :: 0 <= w < |p.seeds| ==>
              |s.workers[w].ids| == p.writeCount && |s.workers[w].verdicts| == p.readCount
  {
    run, s := RunToEnd(p, [], System(map[], NewWorkers(p)));
    EveryRunCompletes(p, run, s);
  }

  ghost predicate AlwaysValid<S(!new)>(p: Plan<S>) {
    forall run, s, w: nat, i: nat ::
      Exec(p, run) == Some(s) && w < |s.workers| && i < |s.workers[w].verdicts| ==> s.workers[w].verdicts[i]
  }

  /** All checks pass in all interleavings if and only if every object that is read back is one that the generator
      can make again from its identifier. */
  lemma ValidIff<S(!new)>(p: Plan<S>)
    requires Sane(p)
    ensures AlwaysValid(p) <==>
              forall w: nat, k: nat ::
                w < |p.seeds| && k < p.writeCount && k < p.readCount ==> ReadsBack(p, p.seeds[w], k)
  {
    hide ReadsBack;
    if forall w: nat, k: nat :: w < |p.seeds| && k < p.writeCount && k < p.readCount ==> ReadsBack(p, p.seeds[w], k) {
      forall run, s, w: nat, i: nat | Exec(p, run) == Some(s) && w < |s.workers| && i < |s.workers[w].verdicts|
        ensures s.workers[w].verdicts[i]
      {
        VerdictsAreDetermined(p, run, s);
        RunKeepsInv(p, run, s);
        assert WorkerInv(p, p.seeds[w], s.workers[w]);
        RemainderSmall(i, p.writeCount);
        var k: nat := i % p.writeCount;
        assert k < p.writeCount && k < p.readCount;
      }
    }
    if AlwaysValid(p) {
      var run, s := RunToEnd(p, [], System(map[], NewWorkers(p)));
      EveryRunCompletes(p, run, s);
      VerdictsAreDetermined(p, run, s);
      forall w: nat, k: nat | w < |p.seeds| && k < p.writeCount && k < p.readCount ensures ReadsBack(p, p.seeds[w], k) {
        assert s.workers[w].verdicts[k];
        ModSmall(k, p.writeCount);
      }
    }
  }

  /** The same, byte for byte. */
  lemma ValidIffBytes<S(!new)>(p: Plan<S>)
    requires Sane(p)
    ensures AlwaysValid(p) <==>
              forall w: nat, k: nat :: w < |p.seeds| && k < p.writeCount && k < p.readCount ==>
                Content(p.d, FirstState(p, p.seeds[w], k))
                == Content(p.d, p.d.init(p.d.peek(WriteState(p.d, p.seeds[w], k))))
  {
    ValidIff(p);
    hide Content, FirstUse, WriteState, AlwaysValid;
    assert forall seed, k ::
      ReadsBack(p, seed, k) <==>
        Content(p.d, FirstState(p, seed, k)) == Content(p.d, p.d.init(p.d.peek(WriteState(p.d, seed, k))));
  }

  lemma RemainderSmall(i: nat, n: nat)
    requires 0 < n
    ensures i % n <= i
  {
    if i < n {
      ModSmall(i, n);
    }
  }

  // ----- Who can go on, and what the store holds in the end -----

  /** Nobody waits for anybody: in every reachable state each worker that has not finished can take its next step. */
  lemma AnyoneCanGo<S(!new)>(p: Plan<S>, run: seq<nat>, s: System<S>, w: nat)
    requires Sane(p) && Exec(p, run) == Some(s)
    ensures |s.workers| == |p.seeds|
    ensures Exec(p, run + [w]).Some? <==> w < |p.seeds| && !s.workers[w].pc.Done?
    ensures w < |p.seeds| && s.workers[w].pc.Done? ==> |s.workers[w].verdicts| == p.readCount
  {
    RunKeepsInv(p, run, s);
    assert (run + [w])[..|run|] == run;
    if w < |s.workers| {
      assert WorkerInv(p, p.seeds[w], s.workers[w]);
    }
  }

  /**
   * When nobody can go on, in every interleaving, the store holds an object for each identifier of each worker and no
   * other, with the bytes generated at the first write that used it.
   */
  lemma StoreAtEnd<S(!new)>(p: Plan<S>, run: seq<nat>, s: System<S>, k: Key)
    requires Sane(p) && Exec(p, run) == Some(s) && forall w: nat :: !Can(p, s.workers, w)
    ensures k in s.store <==>
              && k.client < |p.seeds|
              && exists i: nat :: i < p.writeCount && k.obj == p.d.peek(WriteState(p.d, p.seeds[k.client], i))
    ensures forall i: nat ::
              k in s.store && i < p.writeCount && k.obj == p.d.peek(WriteState(p.d, p.seeds[k.client], i))
              ==> s.store[k] == Content(p.d, FirstState(p, p.seeds[k.client], i))
  {
    RunKeepsInv(p, run, s);
    hide Content, WriteState, FirstUse, Inv, Can;
    if k in s.store {
      OwnedAtEnd(p, s, k);
    }
    forall i: nat |
      k.client < |p.seeds| && i < p.writeCount && k.obj == p.d.peek(WriteState(p.d, p.seeds[k.client], i))
      ensures k in s.store && s.store[k] == Content(p.d, FirstState(p, p.seeds[k.client], i))
    {
      KeptAtEnd(p, s, k.client, i);
    }
  }

  lemma KeptAtEnd<S(!new)>(p: Plan<S>, s: System<S>, w: Word, i: nat)
    requires Sane(p) && Inv(p, s) && w < |p.seeds| && i < p.writeCount && !Can(p, s.workers, w)
    ensures var k := Key(w, p.d.peek(WriteState(p.d, p.seeds[w], i)));
            k in s.store && s.store[k] == Content(p.d, FirstState(p, p.seeds[w], i))
  {
    FinishedWorker(p, s, w);
    hide Content, WriteState, FirstUse, WorkerInv, Can, Settled;
    assert Stored(p, s.store, w, s.workers[w]);
    assert s.workers[w].ids[i] in Settled(s.workers[w]);
  }

  lemma OwnedAtEnd<S(!new)>(p: Plan<S>, s: System<S>, k: Key)
    requires Sane(p) && Inv(p, s) && k in s.store && forall w: nat :: !Can(p, s.workers, w)
    ensures k.client < |p.seeds|
    ensures exists i: nat :: i < p.writeCount && k.obj == p.d.peek(WriteState(p.d, p.seeds[k.client], i))
  {
    hide Content, WriteState, FirstUse, WorkerInv, Can, Settled;
    assert Owned(s, k);
    FinishedWorker(p, s, k.client);
    var x := s.workers[k.client];
    var i :| 0 <= i < |x.ids| && x.ids[i] == k.obj;
  }

  lemma FinishedWorker<S(!new)>(p: Plan<S>, s: System<S>, w: Word)
    requires Sane(p) && Inv(p, s) && w < |p.seeds| && !Can(p, s.workers, w)
    ensures var x := s.workers[w];
      && x.pc.Done? && Settled(x) == x.ids && |x.ids| == p.writeCount
      && forall i: nat :: i < p.writeCount ==> x.ids[i] == p.d.peek(WriteState(p.d, p.seeds[w], i))
  {
    hide Content, WriteState, Repeats, TracedOps, ReadsBack, Kept;
    assert WorkerInv(p, p.seeds[w], s.workers[w]);
  }

  function Different(ids: seq<Word>): set<Word> { set id | id in ids }

  /** The identifiers that repeat no earlier one are as many as there are different ones. */
  lemma {:induction false} RepeatsAreTheRest(ids: seq<Word>)
    ensures Repeats(ids) + |Different(ids)| == |ids|
  {
    if ids != [] {
      var k := |ids| - 1;
      RepeatsAreTheRest(ids[..k]);
      assert Different(ids) == Different(ids[..k]) + {ids[k]};
    }
  }

  // ----- Identifiers under PRNG_DEBUG -----

  const MIN_STRIDE := 193
  const MAX_STRIDE := 385

  /** The identifier of write number k. */
  function DebugId(seed: Word, k: nat): Word { WriteState<Word>(DEBUG, seed, k) }

  /** How far one object moves the counter on. */
  lemma DebugBeyond(s: Word) returns (m: nat)
    ensures Beyond<Word>(DEBUG, s) == Wrap(s + m) && MIN_STRIDE <= m <= MAX_STRIDE
  {
    m := 1 + WordsFor(LenFrom<Word>(DEBUG, s));
    DebugAfter(Wrap(s + 1), m - 1);
    WrapAdd(s + 1, m - 1);
  }

  lemma DebugIdNext(seed: Word, k: nat) returns (m: nat)
    ensures DebugId(seed, k + 1) == Wrap(DebugId(seed, k) + m) && MIN_STRIDE <= m <= MAX_STRIDE
  {
    hide Beyond;
    m := DebugBeyond(DebugId(seed, k));
  }

  /** Each identifier is the one before, moved on by one draw for the length and one for each started word; the first
      one comes that far after the seed. */
  lemma DebugIdsExactly(seed: Word, k: nat)
    ensures DebugId(seed, 0) == (seed + 1 + (seed % 768 + 771) / 4) % 0x1_0000_0000
    ensures DebugId(seed, k + 1)
            == (DebugId(seed, k) + 1 + (DebugId(seed, k) % 768 + 771) / 4) % 0x1_0000_0000
    ensures DEBUG.peek(WriteState(DEBUG, seed, k)) == DebugId(seed, k)
  {
    DebugContent(seed);
    DebugContent(DebugId(seed, k));
    hide Beyond;
  }

  /** Successive identifiers of a worker move on by 193 to 385 at each object, modulo 2^32. */
  lemma {:induction false} DebugIdsSpaced(seed: Word, i: nat, j: nat) returns (m: nat)
    requires i <= j
    ensures DebugId(seed, j) == Wrap(DebugId(seed, i) + m)
    ensures MIN_STRIDE * (j - i) <= m <= MAX_STRIDE * (j - i)
    decreases j
  {
    hide DebugId;
    m := 0;
    if i < j {
      var n := DebugIdsSpaced(seed, i, j - 1);
      var k := DebugIdNext(seed, j - 1);
      WrapAdd(DebugId(seed, i) + n, k);
      m := n + k;
    }
  }

  const SAFE_COUNT := 11155760

  lemma DebugIdsDiffer(seed: Word, i: nat, j: nat)
    requires i < j < SAFE_COUNT
    ensures DebugId(seed, i) != DebugId(seed, j)
  {
    hide DebugId;
    var m := DebugIdsSpaced(seed, i, j);
    var x := DebugId(seed, i);
    assert 0 < m < WORD_LIMIT;
    assert x + m == Wrap(x + m) + WORD_LIMIT * ((x + m) / WORD_LIMIT);
  }

  lemma {:induction false} NoRepeats(ids: seq<Word>)
    requires forall i, j :: 0 <= i < j < |ids| ==> ids[i] != ids[j]
    ensures Repeats(ids) == 0
  {
    if ids != [] {
      NoRepeats(ids[..|ids| - 1]);
    }
  }

  /** With PRNG_DEBUG, workers that write at most 11,155,760 objects each never have a create refused. */
  lemma DebugNeverRefused(p: Plan<Word>, run: seq<nat>, s: System<Word>, w: nat)
    requires Sane(p) && p.d == DEBUG && p.writeCount <= SAFE_COUNT
    requires Exec(p, run) == Some(s) && w < |s.workers|
    ensures s.workers[w].refused == 0
    ensures forall i, j :: 0 <= i < j < |s.workers[w].ids| ==> s.workers[w].ids[i] != s.workers[w].ids[j]
  {
    RefusedAreRepeats(p, run, s, w);
    hide Exec, WriteState;
    var ids := s.workers[w].ids;
    forall i, j | 0 <= i < j < |ids| ensures ids[i] != ids[j] {
      DebugIdsDiffer(p.seeds[w], i, j);
      assert ids[i] == DebugId(p.seeds[w], i) && ids[j] == DebugId(p.seeds[w], j);
    }
    NoRepeats(Settled(s.workers[w]));
  }
}
