/** One worker's run with its loops, over the flat store in place (run_motif in motif_1.c). */
module RunMotif {
  import opened Common
  import opened Prng
  import opened Sample
  import opened Naming
  import opened Motif
  import opened Stores

  /** The client's objects are what their identifiers generate. */
  ghost predicate Clean<S(!new)>(d: Driver<S>, client: Word, contents: Key -> Option<Bytes>) {
    forall id: Word :: contents(Key(client, id)).Some? ==> contents(Key(client, id)).value == Content(d, d.init(id))
  }

  /** What a run leaves: its identifiers stored, nothing else changed. */
  ghost predicate Wrote(client: Word, ids: seq<Word>, before: Key -> Option<Bytes>, after: Key -> Option<Bytes>) {
    && (forall i :: 0 <= i < |ids| ==> after(Key(client, ids[i])).Some?)
    && (forall k: Key :: (k.client != client || k.obj !in ids) ==> after(k) == before(k))
  }

  lemma WroteAnother<S(!new)>(d: Driver<S>, client: Word, ids: seq<Word>, id: Word, bytes: Bytes, ok: bool,
                              before: Key -> Option<Bytes>, mid: Key -> Option<Bytes>, after: Key -> Option<Bytes>)
    requires Wrote(client, ids, before, mid) && WroteOne(mid, after, Key(client, id), bytes, ok)
    requires Clean(d, client, mid) && bytes == Content(d, d.init(id))
    ensures Wrote(client, ids + [id], before, after) && Clean(d, client, after)
  {
    hide Content;
  }

  /** One turn of the write loop, for any generator: the object gets what is generated from the state then. */
  method WriteObject<S(!new)>(p: Prng<S>, s: SampleCell, store: FlatStore, client: Word) returns (id: Word, ok: bool)
    requires s.Valid()
    modifies p, s, s.data, store
    ensures s.Valid() && id == p.d.peek(old(p.state)) && p.state == Beyond(p.d, old(p.state))
    ensures WroteOne(old(store.Contents()), store.Contents(), Key(client, id), Content(p.d, old(p.state)), ok)
  {
    hide Content, Beyond, LenFrom;
    id := p.Peek();
    s.Init(p);
    ok := store.Write(Key(client, id), s);
  }

  lemma NothingWrote(client: Word, contents: Key -> Option<Bytes>)
    ensures Wrote(client, [], contents, contents)
  {
  }

  /** The write phase, with the identifiers it leaves in obj_id. */
  method WritePhase<S(!new)>(p: Prng<S>, s: SampleCell, store: FlatStore, client: Word, ghost seed: Word,
                             objId: array<Word>)
    requires s.Valid() && Faithful(p.d) && Clean(p.d, client, store.Contents())
    requires p.state == WriteState(p.d, seed, 0)
    modifies p, s, s.data, store, objId
    ensures s.Valid() && Clean(p.d, client, store.Contents())
    ensures forall i :: 0 <= i < objId.Length ==> objId[i] == p.d.peek(WriteState(p.d, seed, i))
    ensures Wrote(client, objId[..], old(store.Contents()), store.Contents())
  {
    hide Content, Beyond, LenFrom, Wrote, Clean, WroteOne;
    NothingWrote(client, store.Contents());
    for i := 0 to objId.Length
      invariant s.Valid() && Clean(p.d, client, store.Contents()) && p.state == WriteState(p.d, seed, i)
      invariant forall j :: 0 <= j < i ==> objId[j] == p.d.peek(WriteState(p.d, seed, j))
      invariant Wrote(client, objId[..i], old(store.Contents()), store.Contents())
    {
      ghost var mid := store.Contents();
      assert Restores(p.d, p.state);
      var id, ok := WriteObject(p, s, store, client);
      WroteAnother(p.d, client, objId[..i], id, Content(p.d, p.d.init(id)), ok,
                   old(store.Contents()), mid, store.Contents());
      objId[i] := id;
      assert objId[..i + 1] == objId[..i] + [id];
    }
    assert objId[..] == objId[..objId.Length];
  }

  /** The read phase: each check passes if and only if the bytes then stored are those the identifier generates. */
  method ReadPhase<S(!new)>(p: Prng<S>, s: SampleCell, store: FlatStore, client: Word, objId: array<Word>,
                            readCount: nat)
    returns (verdicts: seq<bool>)
    requires s.Valid() && objId.Length > 0
    requires forall i :: 0 <= i < objId.Length ==> Fits(store.Contents()(Key(client, objId[i])))
    modifies p, s, s.data
    ensures |verdicts| == readCount
    ensures forall i :: 0 <= i < readCount ==>
              var id := objId[i % objId.Length];
              verdicts[i] <==> store.Contents()(Key(client, id)) == Some(Content(p.d, p.d.init(id)))
  {
    hide Content, Beyond;
    verdicts := [];
    for i := 0 to readCount
      invariant s.Valid() && |verdicts| == i
      invariant forall j :: 0 <= j < i ==>
                  var id := objId[j % objId.Length];
                  verdicts[j] <==> store.Contents()(Key(client, id)) == Some(Content(p.d, p.d.init(id)))
    {
      var index := i % objId.Length;
      p.Init(objId[index]);
      var found := store.Read(Key(client, objId[index]), s);
      var ok := s.Check(p);
      verdicts := verdicts + [ok];
    }
  }

  /** An object is there, and no longer than the longest sample; the drivers assert so. */
  predicate Fits(found: Option<Bytes>) { found.Some? && |found.value| <= LEN_MAX }

  lemma ContentFits<S(!new)>(d: Driver<S>, s: S)
    ensures Fits(Some(Content(d, s)))
  {
  }

  /** Every object a worker has written reads back valid, when the store started clean for this client. */
  method Run<S(!new)>(d: Driver<S>, seed: Word, client: Word, writeCount: nat, readCount: nat, store: FlatStore)
    returns (objId: array<Word>, verdicts: seq<bool>)
    requires Faithful(d) && writeCount > 0 && Clean(d, client, store.Contents())
    modifies store
    ensures verdicts == seq(readCount, _ => true)
    ensures objId.Length == writeCount && forall i :: 0 <= i < writeCount ==> objId[i] == d.peek(WriteState(d, seed, i))
    ensures Wrote(client, objId[..], old(store.Contents()), store.Contents()) && Clean(d, client, store.Contents())
  {
    objId := new Word[writeCount](_ => 0);
    var p := new Prng(d, seed);
    var s := new SampleCell.Create(p);
    WritePhase(p, s, store, client, seed, objId);
    p.Init(seed);
    hide Content;
    forall i | 0 <= i < writeCount
      ensures store.Contents()(Key(client, objId[i])) == Some(Content(d, d.init(objId[i])))
      ensures Fits(store.Contents()(Key(client, objId[i])))
    {
      ContentFits(d, d.init(objId[i]));
    }
    verdicts := ReadPhase(p, s, store, client, objId, readCount);
    assert verdicts == seq(readCount, _ => true);
  }
}
