/**
 * Many workers writing and reading back objects on one shared store, for any interleaving of their steps
 * (run_motif in motif_1.c, over the flat store of storage/storage_debug.c).
 */
module Motif {
  import opened Common
  import opened Prng
  import opened Sample
  import opened Naming
  import opened TraceEntries

  /** One worker for each seed. */
  datatype Plan<!S(!new)> = Plan(d: Driver<S>, seeds: seq<Word>, writeCount: nat, readCount: nat)

  predicate Sane<S(!new)>(p: Plan<S>) { 0 < p.writeCount && |p.seeds| <= WORD_LIMIT }

  /** Where a worker is. The directory-tree store also makes directories and retries. */
  datatype Pc =
    | Starting               // motif_1.c:312-313
    | Writing                // motif_1.c:325-328, or the end of the loop and motif_1.c:340
    | Opening                // the exclusive create of storage_write
    | Making(level: nat)     // the next mkdir of storage_dirtree_pathgen
    | Retrying               // the second exclusive create of storage_dirtree_write
    | Filling                // write() to the created file
    | Reading                // motif_1.c:341-345
    | Checking               // motif_1.c:346
    | Done

  /** traced: the operations for which the worker has called trace_write or trace_read. */
  datatype Worker<S> =
    Worker(prng: S, sample: Bytes, ids: seq<Word>, pc: Pc, verdicts: seq<bool>, refused: nat, traced: seq<Op>)

  datatype System<S> = System(store: map<Key, Bytes>, workers: seq<Worker<S>>)

  function LastId<S(!new)>(x: Worker<S>): Word
    requires x.ids != []
  {
    x.ids[|x.ids| - 1]
  }

  /** In the middle of storage_write. */
  predicate Active(pc: Pc) { pc.Opening? || pc.Making? || pc.Retrying? || pc.Filling? }

  /** The identifiers whose storage_write is over. */
  function Settled<S(!new)>(x: Worker<S>): seq<Word> {
    if Active(x.pc) && x.ids != [] then x.ids[..|x.ids| - 1] else x.ids
  }

  /** The object that a read is about. */
  function ReadId<S(!new)>(p: Plan<S>, x: Worker<S>): Word
    requires 0 < p.writeCount == |x.ids|
  {
    x.ids[|x.verdicts| % p.writeCount]
  }

  predicate Can<S(!new)>(p: Plan<S>, workers: seq<Worker<S>>, w: nat) {
    && w < |workers| == |p.seeds| <= WORD_LIMIT && 0 < p.writeCount
    && (Active(workers[w].pc) ==> workers[w].ids != [])
    && (workers[w].pc.Reading? ==> |workers[w].ids| == p.writeCount)
    && !workers[w].pc.Done?
  }

  /** Steps that do not change the store; found is what it holds under the key being read. */
  function Local<S(!new)>(p: Plan<S>, seed: Word, x: Worker<S>, found: Option<Bytes>): Worker<S>
    requires 0 < p.writeCount && (x.pc.Reading? ==> |x.ids| == p.writeCount)
  {
    match x.pc
    case Starting =>
      x.(prng := Beyond(p.d, p.d.init(seed)), sample := Content(p.d, p.d.init(seed)), pc := Writing)
    case Writing =>
      if |x.ids| < p.writeCount then
        x.(prng := Beyond(p.d, x.prng), sample := Content(p.d, x.prng), ids := x.ids + [p.d.peek(x.prng)],
           pc := Opening)
      else x.(prng := p.d.init(seed), pc := Reading)
    case Reading =>
      if |x.verdicts| < p.readCount then
        x.(prng := p.d.init(ReadId(p, x)), sample := if found.Some? then found.value else x.sample,
           traced := if found.Some? then x.traced + [ReadOp] else x.traced, pc := Checking)
      else x.(pc := Done)
    case Checking => x.(verdicts := x.verdicts + [x.sample == Content(p.d, x.prng)], pc := Reading)
    case _ => x
  }

  /** The end of a storage_write, with its file written or its create refused. */
  function Written<S(!new)>(x: Worker<S>): Worker<S> { x.(pc := Writing, traced := x.traced + [WriteOp]) }

  function Refused<S(!new)>(x: Worker<S>): Worker<S> { x.(pc := Writing, refused := x.refused + 1) }

  function Find(store: map<Key, Bytes>, k: Key): Option<Bytes> { if k in store then Some(store[k]) else None }

  function Step<S(!new)>(p: Plan<S>, s: System<S>, w: nat): System<S>
    requires Can(p, s.workers, w)
  {
    var x := s.workers[w];
    if x.pc.Opening? || x.pc.Making? || x.pc.Retrying? then
      var k := Key(w, LastId(x));
      if k in s.store then s.(workers := s.workers[w := Refused(x)])
      else System(s.store[k := []], s.workers[w := x.(pc := Filling)])
    else if x.pc.Filling? then
      System(s.store[Key(w, LastId(x)) := x.sample], s.workers[w := Written(x)])
    else
      var found := if x.pc.Reading? then Find(s.store, Key(w, ReadId(p, x))) else None;
      s.(workers := s.workers[w := Local(p, p.seeds[w], x, found)])
  }

  function NewWorker<S(!new)>(p: Plan<S>, seed: Word): Worker<S> {
    Worker(p.d.init(seed), [], [], Starting, [], 0, [])
  }

  function NewWorkers<S(!new)>(p: Plan<S>): seq<Worker<S>> {
    seq(|p.seeds|, i requires 0 <= i < |p.seeds| => NewWorker(p, p.seeds[i]))
  }

  function Exec<S(!new)>(p: Plan<S>, run: seq<nat>): Option<System<S>> {
    if run == [] then Some(System(map[], NewWorkers(p)))
    else
      var before := Exec(p, run[..|run| - 1]);
      if before.Some? && Can(p, before.value.workers, run[|run| - 1]) then Some(Step(p, before.value, run[|run| - 1]))
      else None
  }

  // ----- The invariant -----

  /** The PRNG state when a worker comes to its write number k: one sample has been generated before the first. */
  function WriteState<S(!new)>(d: Driver<S>, seed: Word, k: nat): S {
    if k == 0 then Beyond(d, d.init(seed)) else Beyond(d, WriteState(d, seed, k - 1))
  }

  /** The bytes generated from an identifier. */
  function Generated<S(!new)>(p: Plan<S>, id: Word): Bytes { Content(p.d, p.d.init(id)) }

  /** The first of n writes that uses an identifier, or n. */
  function FirstUse<S(!new)>(d: Driver<S>, seed: Word, id: Word, n: nat): (k: nat)
    ensures k <= n
  {
    if n == 0 then 0
    else
      var k := FirstUse(d, seed, id, n - 1);
      if k < n - 1 || d.peek(WriteState(d, seed, n - 1)) == id then k else n
  }

  /** The bytes a worker's object ends up with: those generated at the first write that uses its identifier. */
  function Kept<S(!new)>(p: Plan<S>, seed: Word, id: Word): Bytes {
    Content(p.d, WriteState(p.d, seed, FirstUse(p.d, seed, id, p.writeCount)))
  }

  /** Whether the object of write number k reads back as generated from its identifier. */
  predicate ReadsBack<S(!new)>(p: Plan<S>, seed: Word, k: nat) {
    var id := p.d.peek(WriteState(p.d, seed, k));
    Kept(p, seed, id) == Generated(p, id)
  }

  /** How many entries repeat an earlier one. */
  function Repeats(ids: seq<Word>): (n: nat)
    ensures n <= |ids|
  {
    if ids == [] then 0
    else Repeats(ids[..|ids| - 1]) + if ids[|ids| - 1] in ids[..|ids| - 1] then 1 else 0
  }

  /** The operations of the write phase, then those of the read phase. */
  function TracedOps(w: nat, r: nat): seq<Op> { seq(w, _ => WriteOp) + seq(r, _ => ReadOp) }

  ghost predicate WorkerInv<S(!new)>(p: Plan<S>, seed: Word, x: Worker<S>)
    requires 0 < p.writeCount
  {
    && |x.ids| <= p.writeCount && |x.verdicts| <= p.readCount
    && (forall i :: 0 <= i < |x.verdicts| ==> x.verdicts[i] == ReadsBack(p, seed, i % p.writeCount))
    && (forall i :: 0 <= i < |x.ids| ==> x.ids[i] == p.d.peek(WriteState(p.d, seed, i)))
    && x.refused == Repeats(Settled(x))
    && x.traced == TracedOps(|Settled(x)| - x.refused, |x.verdicts| + if x.pc.Checking? then 1 else 0)
    && (x.pc.Starting? ==> x.ids == [])
    && (x.pc.Writing? || Active(x.pc) ==> x.prng == WriteState(p.d, seed, |x.ids|) && x.verdicts == [])
    && (Active(x.pc) ==> x.ids != [] && x.sample == Content(p.d, WriteState(p.d, seed, |x.ids| - 1)))
    && (x.pc.Filling? ==> LastId(x) !in Settled(x))
    && (x.pc.Reading? || x.pc.Checking? || x.pc.Done? ==> |x.ids| == p.writeCount)
    && (x.pc.Checking? ==>
          && |x.verdicts| < p.readCount && x.prng == p.d.init(ReadId(p, x)) && x.sample == Kept(p, seed, ReadId(p, x)))
    && (x.pc.Starting? ==> x.verdicts == [])
    && (x.pc.Done? ==> |x.verdicts| == p.readCount)
  }

  /** Everything a worker has settled is stored as first generated. */
  ghost predicate Stored<S(!new)>(p: Plan<S>, store: map<Key, Bytes>, w: Word, x: Worker<S>)
    requires w < |p.seeds|
  {
    forall id :: id in Settled(x) ==> Key(w, id) in store && store[Key(w, id)] == Kept(p, p.seeds[w], id)
  }

  /** Whatever is stored was settled by its worker, or is the empty file being filled. */
  ghost predicate Owned<S(!new)>(s: System<S>, k: Key)
    requires k in s.store
  {
    && k.client < |s.workers|
    && var x := s.workers[k.client];
       k.obj in Settled(x) || (x.pc.Filling? && x.ids != [] && k.obj == LastId(x) && s.store[k] == [])
  }

  ghost predicate StoreInv<S(!new)>(p: Plan<S>, s: System<S>) {
    && |s.workers| == |p.seeds|
    && (forall w: Word :: w < |s.workers| ==> Stored(p, s.store, w, s.workers[w]))
    && (forall k :: k in s.store ==> Owned(s, k))
  }

  ghost predicate Inv<S(!new)>(p: Plan<S>, s: System<S>) {
    && StoreInv(p, s)
    && 0 < p.writeCount
    && (forall w :: 0 <= w < |s.workers| ==> WorkerInv(p, p.seeds[w], s.workers[w]))
  }

  lemma SettledSplit<S(!new)>(x: Worker<S>)
    requires Active(x.pc) && x.ids != []
    ensures x.ids == Settled(x) + [LastId(x)]
    ensures Repeats(x.ids) == Repeats(Settled(x)) + if LastId(x) in Settled(x) then 1 else 0
  {
  }

  lemma BeginWriteKeeps<S(!new)>(p: Plan<S>, seed: Word, x: Worker<S>)
    requires Sane(p) && WorkerInv(p, seed, x) && x.pc.Writing? && |x.ids| < p.writeCount
    ensures WorkerInv(p, seed, Local(p, seed, x, None)) && Settled(Local(p, seed, x, None)) == x.ids
  {
    hide Content, Beyond, Repeats, ReadsBack, Kept;
    assert Settled(Local(p, seed, x, None)) == x.ids;
  }

  lemma BeginReadKeeps<S(!new)>(p: Plan<S>, seed: Word, x: Worker<S>, found: Option<Bytes>)
    requires Sane(p) && WorkerInv(p, seed, x) && x.pc.Reading?
    requires found == Some(Kept(p, seed, ReadId(p, x)))
    ensures WorkerInv(p, seed, Local(p, seed, x, found))
  {
    hide ReadsBack, Kept, Repeats, WriteState;
  }

  lemma CheckKeeps<S(!new)>(p: Plan<S>, seed: Word, x: Worker<S>)
    requires Sane(p) && WorkerInv(p, seed, x) && x.pc.Checking?
    ensures WorkerInv(p, seed, Local(p, seed, x, None))
  {
    hide Kept, Repeats, Content, WriteState;
    assert Local(p, seed, x, None).verdicts == x.verdicts + [ReadsBack(p, seed, |x.verdicts| % p.writeCount)];
  }

  lemma LocalKeeps<S(!new)>(p: Plan<S>, seed: Word, x: Worker<S>, found: Option<Bytes>)
    requires Sane(p) && WorkerInv(p, seed, x) && !Active(x.pc)
    requires if x.pc.Reading? then found == Some(Kept(p, seed, ReadId(p, x))) else found == None
    ensures WorkerInv(p, seed, Local(p, seed, x, found))
    ensures Settled(Local(p, seed, x, found)) == Settled(x)
  {
    hide Content, Beyond, Repeats, ReadsBack, Kept;
    if x.pc.Writing? && |x.ids| < p.writeCount {
      BeginWriteKeeps(p, seed, x);
    } else if x.pc.Reading? {
      BeginReadKeeps(p, seed, x, found);
    } else if x.pc.Checking? {
      CheckKeeps(p, seed, x);
    }
  }

  /** The read finds what was kept for the identifier. */
  lemma ReadFinds<S(!new)>(p: Plan<S>, s: System<S>, w: Word)
    requires Sane(p) && Inv(p, s) && w < |s.workers| && s.workers[w].pc.Reading?
    ensures |s.workers[w].ids| == p.writeCount
    ensures Find(s.store, Key(w, ReadId(p, s.workers[w]))) == Some(Kept(p, p.seeds[w], ReadId(p, s.workers[w])))
  {
    hide Kept, ReadsBack;
    var x := s.workers[w];
    assert Stored(p, s.store, w, x) && WorkerInv(p, p.seeds[w], x);
    assert ReadId(p, x) in Settled(x);
  }

  lemma {:induction false} FirstUseIs<S(!new)>(d: Driver<S>, seed: Word, k: nat, n: nat)
    requires k < n
    requires forall i :: 0 <= i < k ==> d.peek(WriteState(d, seed, i)) != d.peek(WriteState(d, seed, k))
    ensures FirstUse(d, seed, d.peek(WriteState(d, seed, k)), n) == k
    decreases n
  {
    if k < n - 1 {
      FirstUseIs(d, seed, k, n - 1);
    } else {
      NotUsedBefore(d, seed, d.peek(WriteState(d, seed, k)), k);
    }
  }

  lemma {:induction false} NotUsedBefore<S(!new)>(d: Driver<S>, seed: Word, id: Word, n: nat)
    requires forall i :: 0 <= i < n ==> d.peek(WriteState(d, seed, i)) != id
    ensures FirstUse(d, seed, id, n) == n
  {
    if n > 0 {
      NotUsedBefore(d, seed, id, n - 1);
    }
  }

  /** What a worker fills its file with is what the file is to keep. */
  lemma FillsWithKept<S(!new)>(p: Plan<S>, seed: Word, x: Worker<S>)
    requires 0 < p.writeCount && WorkerInv(p, seed, x) && x.pc.Filling?
    ensures x.sample == Kept(p, seed, LastId(x))
  {
    hide Content, ReadsBack, Repeats;
    var k := |x.ids| - 1;
    forall i | 0 <= i < k ensures p.d.peek(WriteState(p.d, seed, i)) != LastId(x) {
      assert x.ids[i] in Settled(x);
    }
    FirstUseIs(p.d, seed, k, p.writeCount);
  }

  /** A refused storage_write: the worker's last identifier repeats one settled before. */
  lemma RefusedKeeps<S(!new)>(p: Plan<S>, seed: Word, x: Worker<S>)
    requires 0 < p.writeCount && WorkerInv(p, seed, x) && Active(x.pc) && LastId(x) in Settled(x)
    ensures WorkerInv(p, seed, Refused(x))
  {
    hide Kept, ReadsBack, Content, WriteState, TracedOps;
    SettledSplit(x);
  }

  /** A complete one: the last identifier is settled, and the write is traced. */
  lemma WrittenKeeps<S(!new)>(p: Plan<S>, seed: Word, x: Worker<S>)
    requires 0 < p.writeCount && WorkerInv(p, seed, x) && x.pc.Filling?
    ensures WorkerInv(p, seed, Written(x))
  {
    hide Kept, ReadsBack, Content, WriteState;
    SettledSplit(x);
    hide Repeats;
    assert TracedOps(|Settled(x)| - x.refused, 0) + [WriteOp] == TracedOps(|Settled(x)| - x.refused + 1, 0);
  }

  lemma CreateKeeps<S(!new)>(p: Plan<S>, seed: Word, x: Worker<S>)
    requires 0 < p.writeCount && WorkerInv(p, seed, x) && Active(x.pc) && LastId(x) !in Settled(x)
    ensures WorkerInv(p, seed, x.(pc := Filling))
  {
    hide Kept, ReadsBack, Content, WriteState, Repeats;
    assert Settled(x.(pc := Filling)) == Settled(x);
  }

  /** An exclusive create is refused exactly when the worker has settled the identifier before. */
  lemma RefusedIffSettled<S(!new)>(p: Plan<S>, s: System<S>, w: Word)
    requires Inv(p, s) && w < |s.workers| && Active(s.workers[w].pc) && !s.workers[w].pc.Filling?
    ensures s.workers[w].ids != []
    ensures Key(w, LastId(s.workers[w])) in s.store <==> LastId(s.workers[w]) in Settled(s.workers[w])
  {
    var x := s.workers[w];
    assert WorkerInv(p, p.seeds[w], x) && Stored(p, s.store, w, x);
    if Key(w, LastId(x)) in s.store {
      assert Owned(s, Key(w, LastId(x)));
    }
  }

  /** The store after a step of storage_write, with the worker as it is then. */
  function Put<S(!new)>(s: System<S>, w: Word, bytes: Bytes, x: Worker<S>): System<S>
    requires w < |s.workers| && s.workers[w].ids != []
  {
    System(s.store[Key(w, LastId(s.workers[w])) := bytes], s.workers[w := x])
  }

  /** Creating the worker's unsettled object, empty. */
  lemma CreateKeepsStore<S(!new)>(p: Plan<S>, s: System<S>, w: Word)
    requires StoreInv(p, s) && w < |s.workers| && Active(s.workers[w].pc) && s.workers[w].ids != []
    requires LastId(s.workers[w]) !in Settled(s.workers[w]) && Key(w, LastId(s.workers[w])) !in s.store
    ensures StoreInv(p, Put(s, w, [], s.workers[w].(pc := Filling)))
  {
    hide Kept;
    var x := s.workers[w];
    var s' := Put(s, w, [], x.(pc := Filling));
    assert Settled(s'.workers[w]) == Settled(x);
    hide Settled;
    forall v: Word | v < |s'.workers| ensures Stored(p, s'.store, v, s'.workers[v]) {
      assert Stored(p, s.store, v, s.workers[v]);
    }
    forall k | k in s'.store ensures Owned(s', k) {
      assert k in s.store ==> Owned(s, k);
    }
  }

  /** A worker's settled objects survive a change elsewhere, and are joined by one stored as it is to be kept. */
  lemma PutKeepsStored<S(!new)>(p: Plan<S>, store: map<Key, Bytes>, v: Word, x: Worker<S>, x': Worker<S>,
                                k: Key, bytes: Bytes)
    requires v < |p.seeds| && Stored(p, store, v, x)
    requires forall id :: id in Settled(x') ==>
               id in Settled(x) || (k == Key(v, id) && bytes == Kept(p, p.seeds[v], id))
    requires k.client == v ==> k.obj !in Settled(x) || bytes == Kept(p, p.seeds[v], k.obj)
    ensures Stored(p, store[k := bytes], v, x')
  {
    hide Kept, ReadsBack, Settled;
  }

  /** Filling it with what it is to keep. */
  lemma FillKeepsStore<S(!new)>(p: Plan<S>, s: System<S>, w: Word)
    requires StoreInv(p, s) && w < |s.workers| && s.workers[w].pc.Filling? && s.workers[w].ids != []
    ensures StoreInv(p, Put(s, w, Kept(p, p.seeds[w], LastId(s.workers[w])), Written(s.workers[w])))
  {
    var s' := Put(s, w, Kept(p, p.seeds[w], LastId(s.workers[w])), Written(s.workers[w]));
    hide Kept, ReadsBack;
    FillSettles(s.workers[w]);
    hide Settled;
    var k := Key(w, LastId(s.workers[w]));
    forall v: Word | v < |s'.workers| ensures Stored(p, s'.store, v, s'.workers[v]) {
      PutKeepsStored(p, s.store, v, s.workers[v], s'.workers[v], k, Kept(p, p.seeds[w], LastId(s.workers[w])));
    }
    FillKeepsOwned(s, w, Kept(p, p.seeds[w], LastId(s.workers[w])));
  }

  lemma FillSettles<S(!new)>(x: Worker<S>)
    requires x.pc.Filling? && x.ids != []
    ensures forall id :: id in Settled(Written(x)) <==> id in Settled(x) || id == LastId(x)
  {
    SettledSplit(x);
  }

  lemma FillKeepsOwned<S(!new)>(s: System<S>, w: Word, bytes: Bytes)
    requires forall k :: k in s.store ==> Owned(s, k)
    requires w < |s.workers| && s.workers[w].pc.Filling? && s.workers[w].ids != []
    ensures var s' := Put(s, w, bytes, Written(s.workers[w])); forall k :: k in s'.store ==> Owned(s', k)
  {
    FillSettles(s.workers[w]);
    hide Settled;
    var s' := Put(s, w, bytes, Written(s.workers[w]));
    forall k | k in s'.store ensures Owned(s', k) {
      assert k in s.store ==> Owned(s, k);
    }
  }

  /** Changing a worker without unsettling anything keeps what is stored. */
  lemma WorkerChangeKeeps<S(!new)>(p: Plan<S>, s: System<S>, w: Word, x': Worker<S>)
    requires StoreInv(p, s) && w < |s.workers| && !s.workers[w].pc.Filling?
    requires forall id :: id in Settled(x') <==> id in Settled(s.workers[w])
    ensures StoreInv(p, s.(workers := s.workers[w := x']))
  {
    var s' := s.(workers := s.workers[w := x']);
    forall v: Word | v < |s'.workers| ensures Stored(p, s'.store, v, s'.workers[v]) {
      assert Stored(p, s.store, v, s.workers[v]);
    }
    forall k | k in s'.store ensures Owned(s', k) {
      assert Owned(s, k);
    }
  }

  lemma LocalStepKeepsInv<S(!new)>(p: Plan<S>, s: System<S>, w: Word)
    requires Sane(p) && Inv(p, s) && Can(p, s.workers, w) && !Active(s.workers[w].pc)
    ensures Inv(p, Step(p, s, w))
  {
    var x := s.workers[w];
    assert WorkerInv(p, p.seeds[w], x);
    if x.pc.Reading? {
      ReadFinds(p, s, w);
    }
    LocalKeeps(p, p.seeds[w], x, if x.pc.Reading? then Find(s.store, Key(w, ReadId(p, x))) else None);
    WorkerChangeKeeps(p, s, w, Step(p, s, w).workers[w]);
  }

  lemma FillStepKeepsInv<S(!new)>(p: Plan<S>, s: System<S>, w: Word)
    requires Inv(p, s) && Can(p, s.workers, w) && s.workers[w].pc.Filling?
    ensures Inv(p, Step(p, s, w))
  {
    var x := s.workers[w];
    hide Kept, ReadsBack;
    assert WorkerInv(p, p.seeds[w], x);
    WrittenKeeps(p, p.seeds[w], x);
    FillsWithKept(p, p.seeds[w], x);
    FillKeepsStore(p, s, w);
  }

  lemma CreateStepKeepsInv<S(!new)>(p: Plan<S>, s: System<S>, w: Word)
    requires Inv(p, s) && Can(p, s.workers, w) && Active(s.workers[w].pc) && !s.workers[w].pc.Filling?
    requires Key(w, LastId(s.workers[w])) !in s.store
    ensures Inv(p, Step(p, s, w))
  {
    hide Kept, ReadsBack, Settled;
    RefusedIffSettled(p, s, w);
    CreateKeeps(p, p.seeds[w], s.workers[w]);
    CreateKeepsStore(p, s, w);
  }

  lemma RefusedSettles<S(!new)>(x: Worker<S>)
    requires Active(x.pc) && x.ids != [] && LastId(x) in Settled(x)
    ensures forall id :: id in Settled(Refused(x)) <==> id in Settled(x)
  {
    SettledSplit(x);
  }

  lemma RefusedStepKeepsInv<S(!new)>(p: Plan<S>, s: System<S>, w: Word)
    requires Inv(p, s) && Can(p, s.workers, w) && Active(s.workers[w].pc) && !s.workers[w].pc.Filling?
    requires Key(w, LastId(s.workers[w])) in s.store
    ensures Inv(p, Step(p, s, w))
  {
    hide Kept, ReadsBack, WorkerInv;
    var x := s.workers[w];
    RefusedIffSettled(p, s, w);
    RefusedSettles(x);
    hide Settled;
    RefusedKeeps(p, p.seeds[w], x);
    WorkerChangeKeeps(p, s, w, Step(p, s, w).workers[w]);
  }

  lemma StepKeepsInv<S(!new)>(p: Plan<S>, s: System<S>, w: Word)
    requires Sane(p) && Inv(p, s) && Can(p, s.workers, w)
    ensures Inv(p, Step(p, s, w))
  {
    if !Active(s.workers[w].pc) {
      LocalStepKeepsInv(p, s, w);
    } else if s.workers[w].pc.Filling? {
      FillStepKeepsInv(p, s, w);
    } else if Key(w, LastId(s.workers[w])) in s.store {
      RefusedStepKeepsInv(p, s, w);
    } else {
      CreateStepKeepsInv(p, s, w);
    }
  }

  lemma {:induction false} RunKeepsInv<S(!new)>(p: Plan<S>, run: seq<nat>, s: System<S>)
    requires Sane(p) && Exec(p, run) == Some(s)
    ensures Inv(p, s)
  {
    if run != [] {
      var k := |run| - 1;
      var before := Exec(p, run[..k]).value;
      RunKeepsInv(p, run[..k], before);
      StepKeepsInv(p, before, run[k]);
    }
  }
}
