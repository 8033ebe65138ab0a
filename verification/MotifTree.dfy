/**
 * The motif over the directory-tree store, one step per file system call: it refines the motif over the flat store,
 * whatever directories and files the other workers make in between (motif_1.c, storage/storage_dirtree.c).
 */
module MotifTree {
  import opened Common
  import opened Arith
  import opened Prng
  import opened Naming
  import opened FileTree
  import opened Motif
  import opened MotifTheorems

  datatype TreeSystem<S> = TreeSystem(fs: Fs, workers: seq<Worker<S>>)

  function FindFile(fs: Fs, p: Path): Option<Bytes> { if p in fs.files then Some(fs.files[p]) else None }

  /** The object a worker is writing. */
  function KeyOf<S(!new)>(w: Word, x: Worker<S>): Key
    requires x.ids != []
  {
    Key(w, LastId(x))
  }

  function TreeStep<S(!new)>(p: Plan<S>, t: TreeSystem<S>, w: nat): TreeSystem<S>
    requires Can(p, t.workers, w)
  {
    var x := t.workers[w];
    if x.pc.Opening? || x.pc.Retrying? then
      var path := TreePath(KeyOf(w, x));
      if CanCreate(t.fs, path) then
        TreeSystem(WriteFile(t.fs, path, []), t.workers[w := x.(pc := Filling)])
      else if x.pc.Opening? then t.(workers := t.workers[w := x.(pc := Making(0))])
      else t.(workers := t.workers[w := Refused(x)])
    else if x.pc.Making? then
      var level := if x.pc.level < 2 then x.pc.level else 2;
      TreeSystem(Mkdir(t.fs, Parents(KeyOf(w, x))[..level + 1]),
                 t.workers[w := x.(pc := if level < 2 then Making(level + 1) else Retrying)])
    else if x.pc.Filling? then
      TreeSystem(WriteFile(t.fs, TreePath(KeyOf(w, x)), x.sample), t.workers[w := Written(x)])
    else
      var found := if x.pc.Reading? then FindFile(t.fs, TreePath(Key(w, ReadId(p, x)))) else None;
      t.(workers := t.workers[w := Local(p, p.seeds[w], x, found)])
  }

  /** From an empty workspace. */
  function TreeExec<S(!new)>(p: Plan<S>, run: seq<nat>): Option<TreeSystem<S>> {
    if run == [] then Some(TreeSystem(Fs({[]}, map[]), NewWorkers(p)))
    else
      var before := TreeExec(p, run[..|run| - 1]);
      if before.Some? && Can(p, before.value.workers, run[|run| - 1])
      then Some(TreeStep(p, before.value, run[|run| - 1]))
      else None
  }

  // ----- Simulation -----

  /** A worker of the flat store is still opening while this one makes directories and retries. */
  function Flattened<S(!new)>(x: Worker<S>): Worker<S> {
    if x.pc.Making? || x.pc.Retrying? then x.(pc := Opening) else x
  }

  ghost predicate Matches<S(!new)>(t: TreeSystem<S>, s: System<S>) {
    && Agrees(t.fs, s.store)
    && |t.workers| == |s.workers|
    && forall w :: 0 <= w < |t.workers| ==> s.workers[w] == Flattened(t.workers[w])
  }

  /** The directories a worker has made for the object it is writing are there. */
  ghost predicate Prepared<S(!new)>(fs: Fs, w: Word, x: Worker<S>) {
    && (x.pc.Making? ==> x.ids != [] && x.pc.level <= 2 && MadeTo(fs, KeyOf(w, x), x.pc.level))
    && (x.pc.Retrying? || x.pc.Filling? ==> x.ids != [] && MadeTo(fs, KeyOf(w, x), 3))
  }

  ghost predicate TreeInv<S(!new)>(t: TreeSystem<S>) {
    && TreeOk(t.fs)
    && |t.workers| <= WORD_LIMIT
    && forall w: Word :: w < |t.workers| ==> Prepared(t.fs, w, t.workers[w])
  }

  /** The step of the flat store that a step of the tree amounts to, if any. */
  predicate Stutters<S(!new)>(p: Plan<S>, t: TreeSystem<S>, w: nat)
    requires Can(p, t.workers, w)
  {
    var x := t.workers[w];
    x.pc.Making? || (x.pc.Opening? && !CanCreate(t.fs, TreePath(KeyOf(w, x))))
  }

  lemma DirsGrow<S(!new)>(p: Plan<S>, t: TreeSystem<S>, w: nat)
    requires Can(p, t.workers, w)
    ensures t.fs.dirs <= TreeStep(p, t, w).fs.dirs
  {
  }

  /** A worker that does not move stays prepared, because directories are never removed. */
  lemma OthersStayPrepared<S(!new)>(p: Plan<S>, t: TreeSystem<S>, w: Word)
    requires TreeInv(t) && Can(p, t.workers, w)
    ensures forall v: Word :: v < |t.workers| && v != w ==>
              Prepared(TreeStep(p, t, w).fs, v, TreeStep(p, t, w).workers[v])
  {
    DirsGrow(p, t, w);
    forall v: Word | v < |t.workers| && v != w ensures Prepared(TreeStep(p, t, w).fs, v, TreeStep(p, t, w).workers[v]) {
      assert Prepared(t.fs, v, t.workers[v]);
    }
  }

  /** Making a directory changes nothing the flat store can see. */
  lemma MakingStutters<S(!new)>(p: Plan<S>, t: TreeSystem<S>, s: System<S>, w: Word)
    requires TreeInv(t) && Matches(t, s) && Can(p, t.workers, w) && t.workers[w].pc.Making?
    ensures TreeInv(TreeStep(p, t, w)) && Matches(TreeStep(p, t, w), s)
  {
    hide TreeOk;
    var x := t.workers[w];
    assert Prepared(t.fs, w, x);
    MkdirMakes(t.fs, KeyOf(w, x), x.pc.level);
    MkdirAgrees(t.fs, s.store, Parents(KeyOf(w, x))[..x.pc.level + 1]);
    hide Mkdir, Parents, Agrees;
    OthersStayPrepared(p, t, w);
  }

  lemma MkdirAgrees(fs: Fs, store: map<Key, Bytes>, d: Path)
    requires Agrees(fs, store)
    ensures Agrees(Mkdir(fs, d), store)
  {
    hide TreePath, Named;
  }

  /** A first create that fails changes nothing the flat store can see. */
  lemma FailedOpenStutters<S(!new)>(p: Plan<S>, t: TreeSystem<S>, s: System<S>, w: Word)
    requires TreeInv(t) && Matches(t, s) && Can(p, t.workers, w)
    requires t.workers[w].pc.Opening? && !CanCreate(t.fs, TreePath(KeyOf(w, t.workers[w])))
    ensures TreeInv(TreeStep(p, t, w)) && Matches(TreeStep(p, t, w), s)
  {
    OthersStayPrepared(p, t, w);
    assert Parents(KeyOf(w, t.workers[w]))[..0] == [];
  }

  /** A successful create, and a second one that fails, are the flat store's exclusive create. */
  lemma CreateSimulates<S(!new)>(p: Plan<S>, t: TreeSystem<S>, s: System<S>, w: Word)
    requires TreeInv(t) && Matches(t, s) && Can(p, t.workers, w)
    requires t.workers[w].pc.Opening? || t.workers[w].pc.Retrying?
    requires CanCreate(t.fs, TreePath(KeyOf(w, t.workers[w])))
    ensures Can(p, s.workers, w) && TreeInv(TreeStep(p, t, w)) && Matches(TreeStep(p, t, w), Step(p, s, w))
  {
    hide TreePath, TreeOk, Agrees;
    var k := KeyOf(w, t.workers[w]);
    CreateIffAbsent(t.fs, s.store, k);
    PathFacts(k);
    WriteAgrees(t.fs, s.store, k, []);
    ParentsMade(t.fs, k);
    CreatePrepares(p, t, w);
  }

  lemma CreatePrepares<S(!new)>(p: Plan<S>, t: TreeSystem<S>, w: Word)
    requires TreeInv(t) && Can(p, t.workers, w) && (t.workers[w].pc.Opening? || t.workers[w].pc.Retrying?)
    requires CanCreate(t.fs, TreePath(KeyOf(w, t.workers[w]))) && MadeTo(t.fs, KeyOf(w, t.workers[w]), 3)
    ensures forall v: Word :: v < |t.workers| ==> Prepared(TreeStep(p, t, w).fs, v, TreeStep(p, t, w).workers[v])
  {
    hide TreePath, TreeOk;
    OthersStayPrepared(p, t, w);
  }

  /** A directory that exists has its own parents. */
  lemma ParentsMade(fs: Fs, k: Key)
    requires TreeOk(fs) && Parents(k) in fs.dirs
    ensures MadeTo(fs, k, 3)
  {
    assert Parents(k)[..3] == Parents(k);
    assert Parent(Parents(k)[..3]) == Parents(k)[..2];
    assert Parent(Parents(k)[..2]) == Parents(k)[..1];
    assert Parent(Parents(k)[..1]) == Parents(k)[..0] == [];
  }

  lemma RefusalSimulates<S(!new)>(p: Plan<S>, t: TreeSystem<S>, s: System<S>, w: Word)
    requires TreeInv(t) && Matches(t, s) && Can(p, t.workers, w) && t.workers[w].pc.Retrying?
    requires !CanCreate(t.fs, TreePath(KeyOf(w, t.workers[w])))
    ensures Can(p, s.workers, w) && TreeInv(TreeStep(p, t, w)) && Matches(TreeStep(p, t, w), Step(p, s, w))
  {
    hide TreePath, TreeOk, Agrees;
    var k := KeyOf(w, t.workers[w]);
    assert Prepared(t.fs, w, t.workers[w]);
    assert Parents(k)[..3] == Parents(k);
    CreateIffAbsent(t.fs, s.store, k);
    hide CanCreate, Parents, MadeTo;
    OthersStayPrepared(p, t, w);
  }

  lemma FillSimulates<S(!new)>(p: Plan<S>, t: TreeSystem<S>, s: System<S>, w: Word)
    requires TreeInv(t) && Matches(t, s) && Can(p, t.workers, w) && t.workers[w].pc.Filling?
    ensures Can(p, s.workers, w) && TreeInv(TreeStep(p, t, w)) && Matches(TreeStep(p, t, w), Step(p, s, w))
  {
    hide TreePath, Named;
    var x := t.workers[w];
    assert Prepared(t.fs, w, x);
    assert Parents(KeyOf(w, x))[..3] == Parents(KeyOf(w, x));
    WriteAgrees(t.fs, s.store, KeyOf(w, x), x.sample);
    OthersStayPrepared(p, t, w);
  }

  lemma LocalSimulates<S(!new)>(p: Plan<S>, t: TreeSystem<S>, s: System<S>, w: Word)
    requires TreeInv(t) && Matches(t, s) && Can(p, t.workers, w) && !Active(t.workers[w].pc)
    ensures Can(p, s.workers, w) && TreeInv(TreeStep(p, t, w)) && Matches(TreeStep(p, t, w), Step(p, s, w))
  {
    hide TreePath, Local, TreeOk;
    LocalLeavesStore(p, p.seeds[w], t.workers[w]);
    OthersStayPrepared(p, t, w);
  }

  lemma LocalLeavesStore<S(!new)>(p: Plan<S>, seed: Word, x: Worker<S>)
    requires 0 < p.writeCount && (x.pc.Reading? ==> |x.ids| == p.writeCount) && !Active(x.pc)
    ensures forall found ::
              var pc := Local(p, seed, x, found).pc;
              !pc.Making? && !pc.Retrying? && !pc.Filling?
  {
  }

  lemma StepSimulates<S(!new)>(p: Plan<S>, t: TreeSystem<S>, s: System<S>, w: Word)
    requires TreeInv(t) && Matches(t, s) && Can(p, t.workers, w)
    ensures TreeInv(TreeStep(p, t, w))
    ensures if Stutters(p, t, w) then Matches(TreeStep(p, t, w), s)
            else Can(p, s.workers, w) && Matches(TreeStep(p, t, w), Step(p, s, w))
  {
    var x := t.workers[w];
    if x.pc.Making? {
      MakingStutters(p, t, s, w);
    } else if x.pc.Filling? {
      FillSimulates(p, t, s, w);
    } else if !Active(x.pc) {
      LocalSimulates(p, t, s, w);
    } else if CanCreate(t.fs, TreePath(KeyOf(w, x))) {
      CreateSimulates(p, t, s, w);
    } else if x.pc.Opening? {
      FailedOpenStutters(p, t, s, w);
    } else {
      RefusalSimulates(p, t, s, w);
    }
  }

  /** Every run over the tree is a run over the flat store, with the same objects and the same verdicts. */
  lemma {:induction false} TreeRefinesFlat<S(!new)>(p: Plan<S>, run: seq<nat>, t: TreeSystem<S>)
    returns (flat: seq<nat>, s: System<S>)
    requires Sane(p) && TreeExec(p, run) == Some(t)
    ensures Exec(p, flat) == Some(s) && TreeInv(t) && Matches(t, s)
  {
    if run == [] {
      flat, s := [], System(map[], NewWorkers(p));
    } else {
      var k := |run| - 1;
      var before := TreeExec(p, run[..k]).value;
      flat, s := TreeRefinesFlat(p, run[..k], before);
      StepSimulates(p, before, s, run[k]);
      if !Stutters(p, before, run[k]) {
        var longer := flat + [run[k]];
        assert longer[..|flat|] == flat;
        flat, s := longer, Step(p, s, run[k]);
      }
    }
  }

  // ----- What follows for runs over the tree -----

  /** Every stored file has its parent directories, whatever the interleaving, and every check comes out as over the
      flat store; with a generator whose peek restores its state, it passes. */
  lemma TreeReadsValidate<S(!new)>(p: Plan<S>, run: seq<nat>, t: TreeSystem<S>)
    requires Sane(p) && TreeExec(p, run) == Some(t)
    ensures TreeOk(t.fs) && |t.workers| == |p.seeds|
    ensures forall w, i :: 0 <= w < |t.workers| && 0 <= i < |t.workers[w].verdicts| ==>
              && t.workers[w].verdicts[i] == ReadsBack(p, p.seeds[w], i % p.writeCount)
              && (Faithful(p.d) ==> t.workers[w].verdicts[i])
  {
    hide ReadsBack;
    var flat, s := TreeRefinesFlat(p, run, t);
    VerdictsAreDetermined(p, flat, s);
    forall w, i | 0 <= w < |t.workers| && 0 <= i < |t.workers[w].verdicts|
      ensures t.workers[w].verdicts[i] == ReadsBack(p, p.seeds[w], i % p.writeCount)
      ensures Faithful(p.d) ==> t.workers[w].verdicts[i]
    {
      assert s.workers[w] == Flattened(t.workers[w]);
      if Faithful(p.d) {
        FaithfulReadsBack(p, p.seeds[w], i % p.writeCount);
      }
    }
  }

  /** Open, pathgen and open again: in every reachable state the second create succeeds exactly when the object is not
      stored, and the first one can fail without that only while one of the directories is missing. */
  lemma TreeWriteOutcome<S(!new)>(p: Plan<S>, run: seq<nat>, t: TreeSystem<S>, w: Word)
    requires Sane(p) && TreeExec(p, run) == Some(t) && w < |t.workers| && t.workers[w].ids != []
    ensures var k := KeyOf(w, t.workers[w]);
      && (t.workers[w].pc.Retrying? ==> (CanCreate(t.fs, TreePath(k)) <==> TreePath(k) !in t.fs.files))
      && (t.workers[w].pc.Opening? ==>
            (CanCreate(t.fs, TreePath(k)) <==> TreePath(k) !in t.fs.files && Parents(k) in t.fs.dirs))
      && (t.workers[w].pc.Filling? ==> Parents(k) in t.fs.dirs)
  {
    var flat, s := TreeRefinesFlat(p, run, t);
    var k := KeyOf(w, t.workers[w]);
    assert Prepared(t.fs, w, t.workers[w]);
    assert Parents(k)[..3] == Parents(k);
    CreateIffAbsent(t.fs, s.store, k);
  }

  lemma TreeWriteUsesUp<S(!new)>(p: Plan<S>, t: TreeSystem<S>, w: Word)
    requires Sane(p) && Can(p, t.workers, w) && Active(t.workers[w].pc)
    ensures Left(p, TreeStep(p, t, w).workers[w]) < Left(p, t.workers[w])
  {
    hide TreePath, CanCreate, Mkdir, WriteFile, Parents, Local;
  }

  lemma TreeWorkerUsesUp<S(!new)>(p: Plan<S>, t: TreeSystem<S>, s: System<S>, w: Word)
    requires Sane(p) && Matches(t, s) && Inv(p, s) && Can(p, t.workers, w)
    ensures Left(p, TreeStep(p, t, w).workers[w]) < Left(p, t.workers[w])
  {
    hide WorkerInv, Left, Local, TreePath, Agrees;
    var x := t.workers[w];
    if Active(x.pc) {
      TreeWriteUsesUp(p, t, w);
    } else {
      assert s.workers[w] == Flattened(x);
      LocalUsesUp(p, p.seeds[w], x, if x.pc.Reading? then FindFile(t.fs, TreePath(Key(w, ReadId(p, x)))) else None);
    }
  }

  lemma TreeStepUsesUp<S(!new)>(p: Plan<S>, t: TreeSystem<S>, s: System<S>, w: Word)
    requires Sane(p) && TreeInv(t) && Matches(t, s) && Inv(p, s) && Can(p, t.workers, w)
    ensures Tally(TreeStep(p, t, w).workers, LeftIn(p)) < Tally(t.workers, LeftIn(p))
  {
    TreeWorkerUsesUp(p, t, s, w);
    TreeStepMovesOne(p, t, w);
    hide TreeStep, Left, Inv, TreeInv, Matches;
    TallyUpdate(t.workers, w, TreeStep(p, t, w).workers[w], LeftIn(p));
  }

  lemma TreeStepMovesOne<S(!new)>(p: Plan<S>, t: TreeSystem<S>, w: nat)
    requires Can(p, t.workers, w)
    ensures TreeStep(p, t, w).workers == t.workers[w := TreeStep(p, t, w).workers[w]]
  {
    hide Local, TreePath, CanCreate, Mkdir, WriteFile, Parents;
  }

  lemma {:induction false} TreeRunIsBounded<S(!new)>(p: Plan<S>, run: seq<nat>, t: TreeSystem<S>)
    requires Sane(p) && TreeExec(p, run) == Some(t)
    ensures |run| + Tally(t.workers, LeftIn(p)) <= (8 * p.writeCount + 2 * p.readCount + 3) * |p.seeds|
  {
    if run == [] {
      TallyConst(t.workers, LeftIn(p), 8 * p.writeCount + 2 * p.readCount + 3);
    } else {
      var k := |run| - 1;
      var before := TreeExec(p, run[..k]).value;
      TreeRunIsBounded(p, run[..k], before);
      var flat, s := TreeRefinesFlat(p, run[..k], before);
      RunKeepsInv(p, flat, s);
      TreeStepUsesUp(p, before, s, run[k]);
    }
  }

  lemma StuckTreeWorker<S(!new)>(p: Plan<S>, t: TreeSystem<S>, s: System<S>, w: Word)
    requires Sane(p) && TreeInv(t) && Matches(t, s) && Inv(p, s) && w < |t.workers| && !Can(p, t.workers, w)
    ensures |t.workers[w].ids| == p.writeCount && |t.workers[w].verdicts| == p.readCount
  {
    hide ReadsBack, Kept, WriteState, Repeats, TreePath, TreeOk, Agrees;
    assert s.workers[w] == Flattened(t.workers[w]);
    assert WorkerInv(p, p.seeds[w], s.workers[w]) && Prepared(t.fs, w, t.workers[w]);
  }

  /** Every schedule over the tree is finite too, and ends with every object written and every check passed. */
  lemma EveryTreeRunCompletes<S(!new)>(p: Plan<S>, run: seq<nat>, t: TreeSystem<S>)
    requires Sane(p) && TreeExec(p, run) == Some(t)
    ensures |run| <= (8 * p.writeCount + 2 * p.readCount + 3) * |p.seeds|
    ensures |t.workers| == |p.seeds|
    ensures (forall w: nat :: !Can(p, t.workers, w)) ==>
              forall w :: 0 <= w < |p.seeds| ==>
                && |t.workers[w].ids| == p.writeCount
                && |t.workers[w].verdicts| == p.readCount
  {
    TreeRunIsBounded(p, run, t);
    var flat, s := TreeRefinesFlat(p, run, t);
    RunKeepsInv(p, flat, s);
    if forall w: nat :: !Can(p, t.workers, w) {
      forall w: Word | 0 <= w < |p.seeds|
        ensures |t.workers[w].ids| == p.writeCount && |t.workers[w].verdicts| == p.readCount
      {
        hide WorkerInv;
        StuckTreeWorker(p, t, s, w);
      }
    }
  }
}
