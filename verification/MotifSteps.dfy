/**
 * What single steps of a run do, in every reachable state: which bytes a write stores, which ones a read returns, and
 * which directories are made on the way (motif_1.c, storage/storage_debug.c, storage/storage_dirtree.c).
 */
module MotifSteps {
  import opened Common
  import opened Prng
  import opened Sample
  import opened Naming
  import opened TraceEntries
  import opened FileTree
  import opened Motif
  import opened MotifTheorems
  import opened MotifTree

  /** The object of write number k of worker w. */
  function ObjectKey<S(!new)>(p: Plan<S>, w: Word, k: nat): Key
    requires w < |p.seeds|
  {
    Key(w, p.d.peek(WriteState(p.d, p.seeds[w], k)))
  }

  // ----- Over the flat store -----

  lemma OneMore<S(!new)>(p: Plan<S>, run: seq<nat>, s: System<S>, w: nat)
    requires Exec(p, run) == Some(s)
    ensures Exec(p, run + [w]) == if Can(p, s.workers, w) then Some(Step(p, s, w)) else None
  {
    assert (run + [w])[..|run|] == run;
  }

  /** A step is the worker's own: the others stay where they are. */
  lemma OthersStay<S(!new)>(p: Plan<S>, run: seq<nat>, s: System<S>, w: nat, s': System<S>)
    requires Sane(p) && Exec(p, run) == Some(s) && Exec(p, run + [w]) == Some(s')
    ensures w < |p.seeds| && |s.workers| == |p.seeds|
    ensures s'.workers == s.workers[w := s'.workers[w]]
  {
    OneMore(p, run, s, w);
    hide Local;
  }

  /** The next write: peek gives the identifier, and the sample is generated from the state of that moment. */
  lemma WriteBegins<S(!new)>(p: Plan<S>, run: seq<nat>, s: System<S>, w: Word, s': System<S>)
    requires Sane(p) && Exec(p, run) == Some(s) && Exec(p, run + [w]) == Some(s') && w < |s.workers|
    requires s.workers[w].pc.Writing? && |s.workers[w].ids| < p.writeCount
    ensures w < |p.seeds| && s'.store == s.store && |s'.workers| == |s.workers|
    ensures var x, x', n := s.workers[w], s'.workers[w], |s.workers[w].ids|;
      && x'.ids == x.ids + [p.d.peek(WriteState(p.d, p.seeds[w], n))]
      && x'.sample == Content(p.d, WriteState(p.d, p.seeds[w], n))
      && x'.pc.Opening? && x'.traced == x.traced
  {
    hide Content, Beyond, ReadsBack, Kept, Repeats, TracedOps, StoreInv;
    RunKeepsInv(p, run, s);
    assert WorkerInv(p, p.seeds[w], s.workers[w]);
    hide Inv;
    OneMore(p, run, s, w);
  }

  /** The exclusive create: refused with no trace when the object is there, and otherwise an empty object. */
  lemma CreateDecides<S(!new)>(p: Plan<S>, run: seq<nat>, s: System<S>, w: Word, s': System<S>)
    requires Sane(p) && Exec(p, run) == Some(s) && Exec(p, run + [w]) == Some(s') && w < |s.workers|
    requires s.workers[w].pc.Opening?
    ensures w < |p.seeds| && s.workers[w].ids != [] && |s'.workers| == |s.workers|
    ensures var x, x', k := s.workers[w], s'.workers[w], ObjectKey(p, w, |s.workers[w].ids| - 1);
      && x'.ids == x.ids && x'.sample == x.sample && x'.traced == x.traced
      && if k in s.store then s'.store == s.store && x'.pc.Writing? && x'.refused == x.refused + 1
         else s'.store == s.store[k := []] && x'.pc.Filling? && x'.refused == x.refused
  {
    hide Content, ReadsBack, Kept, Repeats, WriteState, TracedOps, StoreInv;
    RunKeepsInv(p, run, s);
    assert WorkerInv(p, p.seeds[w], s.workers[w]);
    hide Inv;
    OneMore(p, run, s, w);
  }

  /** The write: the bytes generated at this write, under its identifier, and one record traced. */
  lemma WriteStores<S(!new)>(p: Plan<S>, run: seq<nat>, s: System<S>, w: Word, s': System<S>)
    requires Sane(p) && Exec(p, run) == Some(s) && Exec(p, run + [w]) == Some(s') && w < |s.workers|
    requires s.workers[w].pc.Filling?
    ensures w < |p.seeds| && s.workers[w].ids != [] && |s'.workers| == |s.workers|
    ensures var x, x', n := s.workers[w], s'.workers[w], |s.workers[w].ids| - 1;
      && s'.store == s.store[ObjectKey(p, w, n) := Content(p.d, WriteState(p.d, p.seeds[w], n))]
      && x'.traced == x.traced + [WriteOp] && x'.pc.Writing? && x'.ids == x.ids
  {
    hide Content, ReadsBack, Kept, Repeats, WriteState, TracedOps, StoreInv;
    RunKeepsInv(p, run, s);
    assert WorkerInv(p, p.seeds[w], s.workers[w]);
    hide Inv;
    OneMore(p, run, s, w);
  }

  /** The read: the bytes the store holds under the identifier whose turn it is, and one record traced. */
  lemma ReadTakes<S(!new)>(p: Plan<S>, run: seq<nat>, s: System<S>, w: Word, s': System<S>)
    requires Sane(p) && Exec(p, run) == Some(s) && Exec(p, run + [w]) == Some(s') && w < |s.workers|
    requires s.workers[w].pc.Reading? && |s.workers[w].verdicts| < p.readCount
    ensures w < |p.seeds| && s'.store == s.store && |s'.workers| == |s.workers|
    ensures var x, x' := s.workers[w], s'.workers[w];
      var k := ObjectKey(p, w, |x.verdicts| % p.writeCount);
      && k in s.store && x'.sample == s.store[k]
      && x'.traced == x.traced + [ReadOp] && x'.pc.Checking? && x'.verdicts == x.verdicts
  {
    hide Content, ReadsBack, Kept, Repeats, WriteState, StoreInv;
    RunKeepsInv(p, run, s);
    ReadFinds(p, s, w);
    assert WorkerInv(p, p.seeds[w], s.workers[w]);
    assert ReadId(p, s.workers[w]) == ObjectKey(p, w, |s.workers[w].verdicts| % p.writeCount).obj;
    hide WorkerInv, Inv;
    OneMore(p, run, s, w);
  }

  /** The check: the bytes read against those that the identifier generates. */
  lemma CheckCompares<S(!new)>(p: Plan<S>, run: seq<nat>, s: System<S>, w: Word, s': System<S>)
    requires Sane(p) && Exec(p, run) == Some(s) && Exec(p, run + [w]) == Some(s') && w < |s.workers|
    requires s.workers[w].pc.Checking?
    ensures w < |p.seeds| && s'.store == s.store && |s'.workers| == |s.workers|
    ensures var x, x' := s.workers[w], s'.workers[w];
      var id := ObjectKey(p, w, |x.verdicts| % p.writeCount).obj;
      && x'.verdicts == x.verdicts + [x.sample == Content(p.d, p.d.init(id))]
      && x'.pc.Reading? && x'.traced == x.traced
  {
    hide Content, ReadsBack, Kept, Repeats, WriteState, TracedOps, StoreInv;
    RunKeepsInv(p, run, s);
    assert WorkerInv(p, p.seeds[w], s.workers[w]);
    hide Inv;
    OneMore(p, run, s, w);
  }

  // ----- Over the directory tree -----

  lemma OneMoreInTree<S(!new)>(p: Plan<S>, run: seq<nat>, t: TreeSystem<S>, w: nat)
    requires TreeExec(p, run) == Some(t)
    ensures TreeExec(p, run + [w]) == if Can(p, t.workers, w) then Some(TreeStep(p, t, w)) else None
  {
    assert (run + [w])[..|run|] == run;
  }

  /** What is known of a worker in every reachable state of the tree. */
  lemma TreeWorker<S(!new)>(p: Plan<S>, run: seq<nat>, t: TreeSystem<S>, w: Word)
    requires Sane(p) && TreeExec(p, run) == Some(t) && w < |t.workers|
    ensures w < |p.seeds| && |t.workers| == |p.seeds| && TreeInv(t) && Prepared(t.fs, w, t.workers[w])
    ensures WorkerInv(p, p.seeds[w], Flattened(t.workers[w]))
  {
    hide WorkerInv, TreeInv, TreeExec, Exec, Agrees;
    var flat, s := TreeRefinesFlat(p, run, t);
    RunKeepsInv(p, flat, s);
    assert s.workers[w] == Flattened(t.workers[w]);
    PreparedHere(t, w);
  }

  lemma PreparedHere<S(!new)>(t: TreeSystem<S>, w: Word)
    requires TreeInv(t) && w < |t.workers|
    ensures Prepared(t.fs, w, t.workers[w])
  {
  }

  /** The object a worker is writing. */
  lemma TreeObject<S(!new)>(p: Plan<S>, run: seq<nat>, t: TreeSystem<S>, w: Word) returns (k: Key)
    requires Sane(p) && TreeExec(p, run) == Some(t) && w < |t.workers| && Active(t.workers[w].pc)
    ensures w < |p.seeds| && |t.workers| == |p.seeds| && t.workers[w].ids != []
    ensures k == ObjectKey(p, w, |t.workers[w].ids| - 1) == KeyOf(w, t.workers[w])
    ensures t.workers[w].sample == Content(p.d, WriteState(p.d, p.seeds[w], |t.workers[w].ids| - 1))
    ensures Can(p, t.workers, w)
  {
    hide Content, WriteState, Repeats, ReadsBack, Kept, TracedOps, TreeInv, Prepared;
    TreeWorker(p, run, t, w);
    k := KeyOf(w, t.workers[w]);
  }

  /** Nobody waits for anybody over the tree either. */
  lemma AnyoneCanGoInTree<S(!new)>(p: Plan<S>, run: seq<nat>, t: TreeSystem<S>, w: nat)
    requires Sane(p) && TreeExec(p, run) == Some(t)
    ensures |t.workers| == |p.seeds|
    ensures TreeExec(p, run + [w]).Some? <==> w < |p.seeds| && !t.workers[w].pc.Done?
  {
    hide WorkerInv, TreeInv, Prepared;
    TreeReadsValidate(p, run, t);
    OneMoreInTree(p, run, t, w);
    if w < |t.workers| {
      TreeWorker(p, run, t, w);
      WorkerCan(p, t.workers, w);
    }
  }

  lemma WorkerCan<S(!new)>(p: Plan<S>, workers: seq<Worker<S>>, w: Word)
    requires Sane(p) && w < |workers| == |p.seeds| && WorkerInv(p, p.seeds[w], Flattened(workers[w]))
    ensures Can(p, workers, w) <==> !workers[w].pc.Done?
  {
    hide Repeats, ReadsBack, Kept, TracedOps, WriteState;
  }

  /** The first create succeeds when the object is absent and its directories exist; otherwise the path is made. */
  lemma FirstCreate<S(!new)>(p: Plan<S>, run: seq<nat>, t: TreeSystem<S>, w: Word, t': TreeSystem<S>)
    requires Sane(p) && TreeExec(p, run) == Some(t) && TreeExec(p, run + [w]) == Some(t') && w < |t.workers|
    requires t.workers[w].pc.Opening?
    ensures w < |p.seeds| && t.workers[w].ids != [] && |t'.workers| == |t.workers| && t'.fs.dirs == t.fs.dirs
    ensures var k := ObjectKey(p, w, |t.workers[w].ids| - 1);
      if TreePath(k) !in t.fs.files && TreePath(k)[..3] in t.fs.dirs
      then t'.fs.files == t.fs.files[TreePath(k) := []] && t'.workers[w].pc.Filling?
      else t'.fs.files == t.fs.files && t'.workers[w].pc == Making(0)
  {
    hide WriteState, Content;
    var k := TreeObject(p, run, t, w);
    TreeWriteOutcome(p, run, t, w);
    PathFacts(k);
    hide TreePath, Parents, CanCreate;
    OneMoreInTree(p, run, t, w);
  }

  /** Each mkdir adds the next directory of the path, made or found, and nothing else. */
  lemma MakesDirectory<S(!new)>(p: Plan<S>, run: seq<nat>, t: TreeSystem<S>, w: Word, t': TreeSystem<S>)
    requires Sane(p) && TreeExec(p, run) == Some(t) && TreeExec(p, run + [w]) == Some(t') && w < |t.workers|
    requires t.workers[w].pc.Making?
    ensures w < |p.seeds| && t.workers[w].ids != [] && |t'.workers| == |t.workers| && t'.fs.files == t.fs.files
    ensures var k, level := ObjectKey(p, w, |t.workers[w].ids| - 1), t.workers[w].pc.level;
      && level <= 2 && |TreePath(k)| == 4
      && t'.fs.dirs == t.fs.dirs + {TreePath(k)[..level + 1]}
      && t'.workers[w].pc == if level < 2 then Making(level + 1) else Retrying
  {
    hide WriteState, Content, WorkerInv, TreeInv, TreePath, Parents, Mkdir, Named;
    var k := TreeObject(p, run, t, w);
    TreeWorker(p, run, t, w);
    TreeReadsValidate(p, run, t);
    PathFacts(k);
    MakesOrFinds(t.fs, k, t.workers[w].pc.level);
    hide MadeTo, TreeOk, Prepared;
    OneMoreInTree(p, run, t, w);
    MakingStep(p, t, w);
  }

  lemma MakingStep<S(!new)>(p: Plan<S>, t: TreeSystem<S>, w: nat)
    requires Can(p, t.workers, w) && t.workers[w].pc.Making? && t.workers[w].pc.level <= 2
    ensures var x, t' := t.workers[w], TreeStep(p, t, w);
      && t'.fs == Mkdir(t.fs, Parents(KeyOf(w, x))[..x.pc.level + 1])
      && t'.workers == t.workers[w := x.(pc := if x.pc.level < 2 then Making(x.pc.level + 1) else Retrying)]
  {
    hide Mkdir, Parents, TreePath;
  }

  /** The second create decides: refused with no trace when the object is there, and otherwise an empty file. */
  lemma SecondCreate<S(!new)>(p: Plan<S>, run: seq<nat>, t: TreeSystem<S>, w: Word, t': TreeSystem<S>)
    requires Sane(p) && TreeExec(p, run) == Some(t) && TreeExec(p, run + [w]) == Some(t') && w < |t.workers|
    requires t.workers[w].pc.Retrying?
    ensures w < |p.seeds| && t.workers[w].ids != [] && |t'.workers| == |t.workers| && t'.fs.dirs == t.fs.dirs
    ensures var x, x', k := t.workers[w], t'.workers[w], ObjectKey(p, w, |t.workers[w].ids| - 1);
      && x'.traced == x.traced
      && if TreePath(k) in t.fs.files
         then t'.fs.files == t.fs.files && x'.pc.Writing? && x'.refused == x.refused + 1
         else t'.fs.files == t.fs.files[TreePath(k) := []] && x'.pc.Filling? && x'.refused == x.refused
  {
    hide WriteState, Content;
    var k := TreeObject(p, run, t, w);
    TreeWriteOutcome(p, run, t, w);
    hide TreePath, Parents, CanCreate;
    OneMoreInTree(p, run, t, w);
  }

  /** The write: the bytes generated at this write, in the object's file, and one record traced. */
  lemma TreeWriteStores<S(!new)>(p: Plan<S>, run: seq<nat>, t: TreeSystem<S>, w: Word, t': TreeSystem<S>)
    requires Sane(p) && TreeExec(p, run) == Some(t) && TreeExec(p, run + [w]) == Some(t') && w < |t.workers|
    requires t.workers[w].pc.Filling?
    ensures w < |p.seeds| && t.workers[w].ids != [] && |t'.workers| == |t.workers| && t'.fs.dirs == t.fs.dirs
    ensures var x, x', n := t.workers[w], t'.workers[w], |t.workers[w].ids| - 1;
      && t'.fs.files == t.fs.files[TreePath(ObjectKey(p, w, n)) := Content(p.d, WriteState(p.d, p.seeds[w], n))]
      && x'.traced == x.traced + [WriteOp] && x'.pc.Writing?
  {
    hide WriteState, Content;
    var k := TreeObject(p, run, t, w);
    hide TreePath, Parents;
    OneMoreInTree(p, run, t, w);
  }

  // ----- What the tree holds in the end -----

  /** Only objects' files and the directories on their paths are ever made. */
  ghost predicate OnlyObjects(fs: Fs) {
    && (forall f :: f in fs.files ==> exists k :: f == TreePath(k))
    && (forall d :: d in fs.dirs ==> d == [] || exists k :: d <= TreePath(k))
  }

  lemma {:induction false} TreeHoldsOnlyObjects<S(!new)>(p: Plan<S>, run: seq<nat>, t: TreeSystem<S>)
    requires TreeExec(p, run) == Some(t)
    ensures OnlyObjects(t.fs)
  {
    if run != [] {
      var k := |run| - 1;
      var before := TreeExec(p, run[..k]).value;
      TreeHoldsOnlyObjects(p, run[..k], before);
      StepMakesOnlyObjects(p, before, run[k]);
    }
  }

  lemma StepMakesOnlyObjects<S(!new)>(p: Plan<S>, t: TreeSystem<S>, w: nat)
    requires Can(p, t.workers, w) && OnlyObjects(t.fs)
    ensures OnlyObjects(TreeStep(p, t, w).fs)
  {
    hide TreePath, Local;
    if Active(t.workers[w].pc) {
      PathFacts(KeyOf(w, t.workers[w]));
      hide Parents;
    }
  }

  /**
   * When nobody can go on, in every interleaving, the tree holds a file for each identifier of each worker and no other
   * file, with the bytes generated at the first write that used it.
   */
  lemma TreeAtEnd<S(!new)>(p: Plan<S>, run: seq<nat>, t: TreeSystem<S>, k: Key)
    requires Sane(p) && TreeExec(p, run) == Some(t) && forall w: nat :: !Can(p, t.workers, w)
    ensures OnlyObjects(t.fs)
    ensures TreePath(k) in t.fs.files <==>
              && k.client < |p.seeds|
              && exists i: nat :: i < p.writeCount && k.obj == p.d.peek(WriteState(p.d, p.seeds[k.client], i))
    ensures forall i: nat ::
              TreePath(k) in t.fs.files && i < p.writeCount
              && k.obj == p.d.peek(WriteState(p.d, p.seeds[k.client], i))
              ==> t.fs.files[TreePath(k)] == Content(p.d, FirstState(p, p.seeds[k.client], i))
  {
    var flat, s := TreeRefinesFlat(p, run, t);
    TreeHoldsOnlyObjects(p, run, t);
    RunKeepsInv(p, flat, s);
    forall w: nat ensures !Can(p, s.workers, w) {
      NoneCan(p, t, s, w);
    }
    hide Content, WriteState, FirstUse, Can, Inv, TreePath, TreeInv, Exec, TreeExec, OnlyObjects;
    StoreAtEnd(p, flat, s, k);
  }

  lemma NoneCan<S(!new)>(p: Plan<S>, t: TreeSystem<S>, s: System<S>, w: nat)
    requires Sane(p) && TreeInv(t) && Matches(t, s) && Inv(p, s) && !Can(p, t.workers, w)
    ensures !Can(p, s.workers, w)
  {
    hide WorkerInv, Agrees, TreeOk;
    if w < |s.workers| {
      assert s.workers[w] == Flattened(t.workers[w]);
      assert WorkerInv(p, p.seeds[w], s.workers[w]);
      WorkerCan(p, t.workers, w);
    }
  }

  // ----- Reading over the tree -----

  /** The read: the bytes of the object's file, and one record traced. */
  lemma TreeReadTakes<S(!new)>(p: Plan<S>, run: seq<nat>, t: TreeSystem<S>, w: Word, t': TreeSystem<S>)
    requires Sane(p) && TreeExec(p, run) == Some(t) && TreeExec(p, run + [w]) == Some(t') && w < |t.workers|
    requires t.workers[w].pc.Reading? && |t.workers[w].verdicts| < p.readCount
    ensures w < |p.seeds| && t'.fs == t.fs && |t'.workers| == |t.workers|
    ensures var x, x' := t.workers[w], t'.workers[w];
      var f := TreePath(ObjectKey(p, w, |x.verdicts| % p.writeCount));
      && f in t.fs.files && x'.sample == t.fs.files[f]
      && x'.traced == x.traced + [ReadOp] && x'.pc.Checking? && x'.verdicts == x.verdicts
  {
    hide Content, ReadsBack, Kept, Repeats, WriteState, TreePath, TreeOk;
    var flat, s := TreeRefinesFlat(p, run, t);
    RunKeepsInv(p, flat, s);
    assert s.workers[w] == t.workers[w];
    ReadFinds(p, s, w);
    assert WorkerInv(p, p.seeds[w], s.workers[w]);
    assert ReadId(p, t.workers[w]) == ObjectKey(p, w, |t.workers[w].verdicts| % p.writeCount).obj;
    hide WorkerInv, Inv, TreeInv;
    OneMoreInTree(p, run, t, w);
  }

  /** A check over the tree compares the same bytes as over the flat store. */
  lemma TreeVerdictsCompareBytes<S(!new)>(p: Plan<S>, run: seq<nat>, t: TreeSystem<S>, w: nat, i: nat)
    requires Sane(p) && TreeExec(p, run) == Some(t) && w < |t.workers| && i < |t.workers[w].verdicts|
    ensures |t.workers| == |p.seeds|
    ensures var k := i % p.writeCount;
      t.workers[w].verdicts[i] <==>
        Content(p.d, FirstState(p, p.seeds[w], k)) == Content(p.d, p.d.init(p.d.peek(WriteState(p.d, p.seeds[w], k))))
  {
    TreeReadsValidate(p, run, t);
    hide Content, FirstUse, WriteState;
  }

  // ----- Whatever is stored, the read phase judges it -----

  /**
   * Also when objects have been changed or lost behind the worker's back: a read and a check give the verdict on the
   * bytes that are stored then, against those that the identifier generates.
   */
  lemma ChangedObjectIsFound<S(!new)>(p: Plan<S>, s: System<S>, w: nat)
    requires Can(p, s.workers, w) && s.workers[w].pc.Reading? && |s.workers[w].verdicts| < p.readCount
    ensures var x := s.workers[w];
      var id := x.ids[|x.verdicts| % p.writeCount];
      var found := if Key(w, id) in s.store then s.store[Key(w, id)] else x.sample;
      && Can(p, Step(p, s, w).workers, w)
      && Step(p, Step(p, s, w), w).workers[w].verdicts == x.verdicts + [found == Content(p.d, p.d.init(id))]
  {
    hide Content;
    assert Step(p, s, w).workers[w].pc.Checking?;
  }

  lemma ChangedFileIsFound<S(!new)>(p: Plan<S>, t: TreeSystem<S>, w: nat)
    requires Can(p, t.workers, w) && t.workers[w].pc.Reading? && |t.workers[w].verdicts| < p.readCount
    ensures var x := t.workers[w];
      var id := x.ids[|x.verdicts| % p.writeCount];
      var f := TreePath(Key(w, id));
      var found := if f in t.fs.files then t.fs.files[f] else x.sample;
      && Can(p, TreeStep(p, t, w).workers, w)
      && TreeStep(p, TreeStep(p, t, w), w).workers[w].verdicts == x.verdicts + [found == Content(p.d, p.d.init(id))]
  {
    hide Content, TreePath;
    assert TreeStep(p, t, w).workers[w].pc.Checking?;
  }
}
