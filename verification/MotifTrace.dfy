/**
 * The trace files of a whole run: each worker's ring, fed with the operations of the motif
 * (motif_1.c, utils/trace.c).
 */
module MotifTrace {
  import opened Common
  import opened Prng
  import opened Clock
  import opened TraceEntries
  import Ring = TraceRing
  import opened TraceTheorems
  import opened Motif
  import opened MotifTheorems
  import opened MotifTree

  /** The identifiers of a worker, in the order of its writes. */
  function IdsOf<S(!new)>(p: Plan<S>, seed: Word): (ids: seq<Word>)
    ensures |ids| == p.writeCount
  {
    seq<Word>(p.writeCount, i requires 0 <= i < p.writeCount => p.d.peek(WriteState(p.d, seed, i)))
  }

  /** The writes of a worker that are not refused. */
  function Writes<S(!new)>(p: Plan<S>, seed: Word): nat { p.writeCount - Repeats(IdsOf(p, seed)) }

  ghost predicate Complete<S(!new)>(p: Plan<S>, workers: seq<Worker<S>>) { forall w: nat :: !Can(p, workers, w) }

  lemma DoneHasTraced<S(!new)>(p: Plan<S>, seed: Word, x: Worker<S>)
    requires Sane(p) && WorkerInv(p, seed, x) && x.pc.Done?
    ensures x.traced == TracedOps(Writes(p, seed), p.readCount)
  {
    hide TracedOps, ReadsBack, Kept, Repeats;
    assert x.ids == IdsOf(p, seed);
  }

  lemma StuckIsDone<S(!new)>(p: Plan<S>, workers: seq<Worker<S>>, x: Worker<S>, w: nat)
    requires Sane(p) && |workers| == |p.seeds| && w < |workers| && !Can(p, workers, w)
    requires WorkerInv(p, p.seeds[w], x) && (x == workers[w] || x == Flattened(workers[w]))
    ensures x == workers[w] && x.pc.Done?
  {
    hide TracedOps, ReadsBack, Kept, Repeats, WriteState;
  }

  /** In every interleaving a worker has traced, at the end, its writes that were not refused and then all its reads. */
  lemma TracedAtEnd<S(!new)>(p: Plan<S>, run: seq<nat>, s: System<S>, w: nat)
    requires Sane(p) && Exec(p, run) == Some(s) && Complete(p, s.workers) && w < |p.seeds|
    ensures |s.workers| == |p.seeds|
    ensures s.workers[w].traced == TracedOps(Writes(p, p.seeds[w]), p.readCount)
  {
    hide TracedOps, WorkerInv, Writes, Can;
    RunKeepsInv(p, run, s);
    StuckIsDone(p, s.workers, s.workers[w], w);
    DoneHasTraced(p, p.seeds[w], s.workers[w]);
  }

  /** And so over the directory tree. */
  lemma TreeTracedAtEnd<S(!new)>(p: Plan<S>, run: seq<nat>, t: TreeSystem<S>, w: nat)
    requires Sane(p) && TreeExec(p, run) == Some(t) && Complete(p, t.workers) && w < |p.seeds|
    ensures |t.workers| == |p.seeds|
    ensures t.workers[w].traced == TracedOps(Writes(p, p.seeds[w]), p.readCount)
  {
    hide TracedOps, WorkerInv, Writes, Can, TreeInv;
    var flat, s := TreeRefinesFlat(p, run, t);
    RunKeepsInv(p, flat, s);
    StuckIsDone(p, t.workers, s.workers[w], w);
    DoneHasTraced(p, p.seeds[w], s.workers[w]);
  }

  /** Calls of trace_write and trace_read for these operations, with whatever times the clock has shown. */
  ghost predicate CallsFor(calls: seq<Call>, ops: seq<Op>) {
    |calls| == |ops| && forall i :: 0 <= i < |ops| ==> calls[i].op == ops[i] && calls[i].tag.None?
  }

  /**
   * What the trace file of a worker holds when both the motif and the flush thread are through, in every interleaving
   * of either: first one record for each write that was not refused, then one for each read.
   */
  lemma TraceFileOfRun<S(!new)>(p: Plan<S>, run: seq<nat>, s: System<S>, w: nat,
                                ring: seq<Entry>, calls: seq<Call>, steps: seq<Ring.Label>, c: Ring.Config)
    requires Sane(p) && Exec(p, run) == Some(s) && Complete(p, s.workers) && w < |p.seeds| == |s.workers|
    requires CallsFor(calls, s.workers[w].traced) && |ring| == 65536
    requires Ring.Reaches(Ring.CODE_GEOMETRY, ring, steps, c) && c.s.fl.Exited? && c.h.log == AskedAll(calls)
    ensures var writes := Writes(p, p.seeds[w]);
      && |c.s.file| == writes + p.readCount + (if c.h.stale then 65536 else 0)
      && (forall i :: 0 <= i < writes + p.readCount ==>
            Decode(c.s.file[i]).op == (if i < writes then WriteOp else ReadOp) && Decode(c.s.file[i]).text == [])
  {
    TracedAtEnd(p, run, s, w);
    FileAtExit(Ring.CODE_GEOMETRY, ring, steps, c);
    var n := |calls|;
    forall i | 0 <= i < n ensures Decode(c.s.file[i]) == Asked(calls[i]) {
      assert DecodeAll(c.s.file[..n])[i] == AskedAll(calls)[i];
    }
  }

  /** A number of records after which no EXIT can find an empty backlog away from the seam of the ring. */
  predicate Fits(n: nat) { n % 65536 == 0 || (n % 65536) % 204 != 0 }

  /** Every worker's trace file is exact, in every interleaving of the workers and of each with its flush thread. */
  ghost predicate TracesExact<S(!new)>(p: Plan<S>, ring: seq<Entry>) {
    forall run, s, w: nat, calls ::
      Exec(p, run) == Some(s) && Complete(p, s.workers) && w < |s.workers| && CallsFor(calls, s.workers[w].traced)
      ==> AlwaysExact(Ring.CODE_GEOMETRY, ring, calls)
  }

  /** That is so if and only if each worker's number of records, which the generator determines, fits. */
  lemma TracesExactIff<S(!new)>(p: Plan<S>, ring: seq<Entry>)
    requires Sane(p) && |ring| == 65536
    ensures TracesExact(p, ring) <==>
              forall w: nat :: w < |p.seeds| ==> Fits(Writes(p, p.seeds[w]) + p.readCount)
  {
    hide Writes, AlwaysExact, Fits;
    if forall w: nat :: w < |p.seeds| ==> Fits(Writes(p, p.seeds[w]) + p.readCount) {
      forall run, s, w: nat, calls |
        Exec(p, run) == Some(s) && Complete(p, s.workers) && w < |s.workers| && CallsFor(calls, s.workers[w].traced)
        ensures AlwaysExact(Ring.CODE_GEOMETRY, ring, calls)
      {
        hide Complete, TracesExact;
        EveryRunCompletes(p, run, s);
        ExactIfFits(p, run, s, w, ring, calls);
      }
    }
    if TracesExact(p, ring) {
      var run, s := RunToEnd(p, [], System(map[], NewWorkers(p)));
      EveryRunCompletes(p, run, s);
      assert Complete(p, s.workers);
      forall w: nat | w < |p.seeds| ensures Fits(Writes(p, p.seeds[w]) + p.readCount) {
        var ops := s.workers[w].traced;
        var calls := SomeCalls(ops, seq(|ops|, _ => (Timespec(0, 0), Timespec(0, 0))));
        ExactIfFits(p, run, s, w, ring, calls);
      }
    }
  }

  lemma ExactIfFits<S(!new)>(p: Plan<S>, run: seq<nat>, s: System<S>, w: nat, ring: seq<Entry>, calls: seq<Call>)
    requires Sane(p) && Exec(p, run) == Some(s) && Complete(p, s.workers) && w < |p.seeds| == |s.workers|
    requires CallsFor(calls, s.workers[w].traced) && |ring| == 65536
    ensures AlwaysExact(Ring.CODE_GEOMETRY, ring, calls) <==> Fits(Writes(p, p.seeds[w]) + p.readCount)
  {
    hide Writes, AlwaysExact, Complete;
    TracedAtEnd(p, run, s, w);
    ExactIffInCode(ring, calls);
  }

  /** Whatever the clock shows, there are calls for these operations. */
  lemma SomeCalls(ops: seq<Op>, times: seq<(Timespec, Timespec)>) returns (calls: seq<Call>)
    requires |times| == |ops|
    ensures CallsFor(calls, ops)
    ensures forall i :: 0 <= i < |ops| ==> calls[i].timestamp == times[i].0 && calls[i].duration == times[i].1
  {
    calls := seq(|ops|, i requires 0 <= i < |ops| => Call(ops[i], times[i].0, times[i].1, None));
  }

  /**
   * With PRNG_DEBUG and at most 11,155,760 writes a worker, all trace files are exact in all interleavings if and only
   * if the number of writes and reads, counted from the last wrap of the ring, is zero or no multiple of 204.
   */
  lemma DebugTracesExactIff(p: Plan<Word>, ring: seq<Entry>)
    requires Sane(p) && p.d == DEBUG && p.writeCount <= SAFE_COUNT && p.seeds != [] && |ring| == 65536
    ensures TracesExact(p, ring) <==> Fits(p.writeCount + p.readCount)
  {
    hide Writes, Fits, TracesExact;
    forall w: nat | w < |p.seeds| ensures Writes(p, p.seeds[w]) == p.writeCount {
      DebugWrites(p, p.seeds[w]);
    }
    TracesExactIff(p, ring);
    assert p.seeds[0] in p.seeds;
  }

  lemma DebugWrites(p: Plan<Word>, seed: Word)
    requires p.d == DEBUG && p.writeCount <= SAFE_COUNT
    ensures Writes(p, seed) == p.writeCount
  {
    var ids := IdsOf(p, seed);
    forall i, j | 0 <= i < j < |ids| ensures ids[i] != ids[j] {
      DebugIdsDiffer(seed, i, j);
    }
    NoRepeats(ids);
  }
}
