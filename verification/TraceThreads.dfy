/** struct traceinfo and its two threads, updated in place one atomic section at a time (utils/trace.c). */
module TraceThreads {
  import opened TraceEntries
  import opened TraceRing
  import opened TraceTheorems

  class TraceInfo {
    const geometry: Geometry
    var req: Request
    var nextent: nat
    var lastflush: nat
    var nextflush: nat
    const tracebuf: array<Entry>
    var file: seq<Entry>
    var prod: Producer  // the main thread's position and locals
    var fl: Flusher     // the flush thread's position and locals

    ghost var h: History

    function View(): State
      reads this, tracebuf
    {
      State(Ti(req, nextent, lastflush, nextflush, tracebuf[..]), prod, fl, file)
    }

    ghost function Now(): Config
      reads this, tracebuf
    {
      Config(View(), h)
    }

    ghost predicate Valid()
      reads this, tracebuf
    {
      Inv(geometry, Now())
    }

    /** trace_init over a buffer of any contents. */
    constructor (geometry: Geometry, tracebuf: array<Entry>)
      requires Sized(geometry) && tracebuf.Length == geometry.n
      ensures Now() == Init(geometry, tracebuf[..]) && Valid()
      ensures this.geometry == geometry && this.tracebuf == tracebuf
    {
      this.geometry := geometry;
      this.tracebuf := tracebuf;
      lastflush, nextflush := geometry.n - 1, geometry.n - 1;
      nextent := 0;
      req := NoRequest;
      file := [];
      prod, fl := Idle, Ready;
      h := History([], 0, 0, false);
      new;
      InvInit(geometry, tracebuf[..]);
    }

    method ClaimSlot(call: Call)
      requires Enabled(geometry, View(), Claim(call))
      modifies this`nextent, this`prod
      ensures Now() == Next(geometry, old(Now()), Claim(call))
    {
      prod := Filling(nextent, call, 0);
      nextent := Mod(nextent + 1, geometry);
    }

    method StoreNextField()
      requires Enabled(geometry, View(), StoreField)
      modifies this`prod, this`h, tracebuf
      ensures Now() == Next(geometry, old(Now()), StoreField)
    {
      h := Note(geometry, Now(), StoreField);
      var slot, call := prod.slot, prod.call;
      if prod.stage == 0 {
        tracebuf[slot] := tracebuf[slot].(op := call.op);
      } else if prod.stage == 1 {
        tracebuf[slot] := tracebuf[slot].(timestamp := call.timestamp);
      } else if prod.stage == 2 {
        tracebuf[slot] := tracebuf[slot].(duration := call.duration);
      } else if call.tag.Some? {
        tracebuf[slot] := tracebuf[slot].(tag := Strncpy(call.tag.value));
      } else {
        tracebuf[slot] := tracebuf[slot].(tag := tracebuf[slot].tag[0 := 0]);
      }
      if prod.stage < STORES - 1 {
        prod := Filling(slot, call, prod.stage + 1);
      } else if nextent % geometry.b == 0 {
        prod := Posting(slot);
      } else {
        prod := Idle;
      }
    }

    /** pthread_cond_signal */
    method Signal()
      modifies this`fl
      ensures fl == Signalled(old(fl))
    {
      if fl.Waiting? {
        fl := Woken;
      }
    }

    method RequestFlush()
      requires Enabled(geometry, View(), PostFlush)
      modifies this`req, this`nextflush, this`prod, this`fl, this`h
      ensures Now() == Next(geometry, old(Now()), PostFlush)
    {
      h := Note(geometry, Now(), PostFlush);
      req := Flush;
      nextflush := prod.slot;
      Signal();
      prod := Idle;
    }

    /** The locked section of trace_fini. */
    method RequestExit()
      requires Enabled(geometry, View(), PostExit)
      modifies this`req, this`nextflush, this`prod, this`fl, this`h
      ensures Now() == Next(geometry, old(Now()), PostExit)
    {
      h := Note(geometry, Now(), PostExit);
      req := Exit;
      nextflush := Mod(nextent + geometry.n - 1, geometry);
      Signal();
      prod := Joining;
    }

    /** The locked section of trace_sync. */
    method TakeRequest()
      requires Enabled(geometry, View(), Take)
      modifies this`req, this`fl, this`h
      ensures Now() == Next(geometry, old(Now()), Take)
    {
      h := Note(geometry, Now(), Take);
      var taken := req;
      req := NoRequest;
      if taken.NoRequest? {
        fl := Waiting;
      } else {
        fl := Taken(taken, lastflush, nextflush);
      }
    }

    method FirstSegment()
      requires Enabled(geometry, View(), BeginFlush)
      modifies this`lastflush, this`fl
      ensures Now() == Next(geometry, old(Now()), BeginFlush)
    {
      hide Mod, Store, Signalled;
      var thisflush, nflush := Mod(fl.last + 1, geometry), 0;
      if thisflush > fl.next {
        nflush := Mod(geometry.n - thisflush, geometry);
      } else {
        nflush := Mod(fl.next - thisflush + 1, geometry);
      }
      lastflush := Mod(lastflush + nflush, geometry);
      fl := Copying(fl.req, fl.next, thisflush, nflush, thisflush > fl.next);
    }

    /** One element of fwrite. */
    method WriteRecord()
      requires Enabled(geometry, View(), CopyOne)
      modifies this`file, this`fl
      ensures Now() == Next(geometry, old(Now()), CopyOne)
    {
      file := file + [tracebuf[fl.tbp]];
      fl := Copying(fl.req, fl.next, fl.tbp + 1, fl.nflush - 1, fl.wrapped);
    }

    method SecondSegment()
      requires Enabled(geometry, View(), NextSegment)
      modifies this`lastflush, this`fl
      ensures Now() == Next(geometry, old(Now()), NextSegment)
    {
      var nflush := Mod(fl.next + 1, geometry);
      lastflush := Mod(lastflush + nflush, geometry);
      fl := Copying(fl.req, fl.next, 0, nflush, false);
    }

    method EndRequest()
      requires Enabled(geometry, View(), EndFlush)
      modifies this`fl
      ensures Now() == Next(geometry, old(Now()), EndFlush)
    {
      if fl.req.Exit? {
        fl := Exited;
      } else {
        fl := Ready;
      }
    }

    /**
     * The flush thread's work on one request when it is not interrupted: the two writes of trace_sync append the
     * slots after the last flushed one, up to the marker, and leave that marker as the last flushed one.
     */
    method ServeRequest()
      requires Enabled(geometry, View(), Take) && !req.NoRequest?
      modifies this`req, this`lastflush, this`file, this`fl, this`h
      ensures var slots := CyclicSlice(geometry, old(lastflush), Covered(geometry, old(lastflush), old(nextflush)));
              file == old(file) + Pick(old(tracebuf[..]), slots)
      ensures lastflush == old(nextflush) && nextflush == old(nextflush) && nextent == old(nextent)
      ensures req.NoRequest? && prod == old(prod) && fl == if old(req).Exit? then Exited else Ready
      ensures h == old(Note(geometry, Now(), Take)) && (old(Valid()) ==> Valid())
    {
      hide ProducerInv, RequestInv, FlusherInv, ContentInv, SlotsLeft, CyclicSlice, Covered, Pick;
      BeginRequest();
      WriteBothSegments();
      FlushThreadKeepsInv(geometry, Now(), EndFlush);
      EndRequest();
    }

    /** Up to the first write. */
    method BeginRequest()
      requires Enabled(geometry, View(), Take) && !req.NoRequest?
      modifies this`req, this`lastflush, this`fl, this`h
      ensures WellFormed(geometry, View()) && fl.Copying? && fl.req == old(req) && fl.next == old(nextflush)
      ensures req.NoRequest?
      ensures SlotsLeft(fl) ==
              CyclicSlice(geometry, old(lastflush), Covered(geometry, old(lastflush), old(nextflush)))
      ensures fl.wrapped ==> Mod(fl.next + 1, geometry) == fl.next + 1
      ensures old(nextflush) ==
              if fl.wrapped then Mod(lastflush + Mod(fl.next + 1, geometry), geometry) else lastflush
      ensures h == old(Note(geometry, Now(), Take)) && (old(Valid()) ==> Valid())
    {
      hide ProducerInv, RequestInv, FlusherInv, ContentInv, Mod;
      FlushThreadKeepsInv(geometry, Now(), Take);
      TakeRequest();
      FlushThreadKeepsInv(geometry, Now(), BeginFlush);
      FlushArithmetic(geometry, View());
      hide SlotsLeft, CyclicSlice, Covered;
      FirstSegment();
    }

    /** The first write and, after a wrap, the second. */
    method WriteBothSegments()
      requires WellFormed(geometry, View()) && fl.Copying?
      requires fl.wrapped ==> Mod(fl.next + 1, geometry) == fl.next + 1
      modifies this`file, this`fl, this`lastflush
      ensures WellFormed(geometry, View()) && fl.Copying? && fl.nflush == 0 && !fl.wrapped && fl.req == old(fl.req)
      ensures file == old(file) + Pick(tracebuf[..], SlotsLeft(old(fl)))
      ensures lastflush == if old(fl).wrapped then Mod(old(lastflush) + Mod(old(fl).next + 1, geometry), geometry)
                           else old(lastflush)
      ensures old(Valid()) ==> Valid()
    {
      hide ProducerInv, RequestInv, FlusherInv, ContentInv, Mod;
      PickSegments(tracebuf[..], fl);
      hide Pick, SlotsLeft, Inv;
      WriteSegment();
      if fl.wrapped {
        ghost var first := file;
        WriteAfterWrap();
        assert file == first + tracebuf[..old(fl).next + 1];
      }
    }

    /** The second write, from slot 0. */
    method WriteAfterWrap()
      requires Enabled(geometry, View(), NextSegment) && Mod(fl.next + 1, geometry) == fl.next + 1
      modifies this`file, this`fl, this`lastflush
      ensures WellFormed(geometry, View()) && fl.Copying? && fl.nflush == 0 && !fl.wrapped && fl.req == old(fl.req)
      ensures file == old(file) + tracebuf[..old(fl).next + 1]
      ensures lastflush == Mod(old(lastflush) + Mod(old(fl).next + 1, geometry), geometry)
      ensures old(Valid()) ==> Valid()
    {
      hide ProducerInv, RequestInv, FlusherInv, ContentInv, Mod;
      FlushThreadKeepsInv(geometry, Now(), NextSegment);
      SecondSegment();
      WriteSegment();
    }

    /** fwrite of the segment at hand. */
    method WriteSegment()
      requires WellFormed(geometry, View()) && fl.Copying?
      modifies this`file, this`fl
      ensures WellFormed(geometry, View()) && fl.Copying? && fl.nflush == 0
      ensures fl.req == old(fl.req) && fl.next == old(fl.next) && fl.wrapped == old(fl.wrapped)
      ensures file == old(file) + tracebuf[old(fl.tbp)..old(fl.tbp) + old(fl.nflush)]
      ensures old(Valid()) ==> Valid()
    {
      hide ProducerInv, RequestInv, FlusherInv, ContentInv;
      while fl.nflush > 0
        invariant WellFormed(geometry, View()) && fl.Copying?
        invariant fl.req == old(fl.req) && fl.next == old(fl.next) && fl.wrapped == old(fl.wrapped)
        invariant old(fl.tbp) <= fl.tbp && fl.tbp + fl.nflush == old(fl.tbp) + old(fl.nflush)
        invariant file == old(file) + tracebuf[old(fl.tbp)..fl.tbp]
        invariant old(Valid()) ==> Valid()
        decreases fl.nflush
      {
        FlushThreadKeepsInv(geometry, Now(), CopyOne);
        WriteRecord();
      }
    }

    // ----- Whole calls and a whole run -----

    /** trace(), with the flush thread not moving meanwhile. */
    method Trace(call: Call)
      requires Valid() && prod.Idle? && |h.log| + 1 < |file| + geometry.n
      modifies this, tracebuf
      ensures Traces(geometry, old(Now()), call, Now())
    {
      hide ProducerInv, RequestInv, FlusherInv, ContentInv, Apply, Note;
      ClaimStep(geometry, Now(), call);
      ClaimSlot(call);
      StoringStep(geometry, Now());
      StoreNextField();
      StoringStep(geometry, Now());
      StoreNextField();
      StoringStep(geometry, Now());
      StoreNextField();
      StoringStep(geometry, Now());
      StoreNextField();
      if prod.Posting? {
        PostStep(geometry, Now());
        RequestFlush();
      }
    }

    /** A run in which every request is served before the next call, and trace_fini: what the file then holds. */
    method TraceAll(calls: seq<Call>)
      requires Valid() && Now() == Init(geometry, tracebuf[..])
      modifies this, tracebuf
      ensures Valid() && fl.Exited? && FinalFile(geometry, Now()) && h.log == AskedAll(calls)
      ensures var p, n := |calls|, geometry.n;
              |file| == p + if p % n != 0 && (p % n) % geometry.b == 0 then n else 0
    {
      hide ProducerInv, RequestInv, FlusherInv, ContentInv, FinalFile;
      for i := 0 to |calls|
        invariant Valid() && prod.Idle? && fl.Ready? && req.NoRequest? && h.log == AskedAll(calls[..i])
      {
        RoomForOne(geometry, Now());
        Trace(calls[i]);
        assert AskedAll(calls[..i + 1]) == AskedAll(calls[..i]) + [Asked(calls[i])];
        if req.Flush? {
          ServeRequest();
        }
      }
      assert calls[..|calls|] == calls;
      ExitStep(geometry, Now());
      RequestExit();
      ServeRequest();
      ExitedFile(geometry, Now());
    }
  }

  /** The flush thread's steps need no room in the ring. */
  lemma FlushThreadKeepsInv(g: Geometry, c: Config, l: Label)
    requires Enabled(g, c.s, l) && !l.StoreField?
    ensures Inv(g, c) ==> Inv(g, Next(g, c, l))
  {
    hide Inv;
    if Inv(g, c) {
      StepKeepsInv(g, c, l);
    }
  }

  lemma PickSegments(buf: seq<Entry>, fl: Flusher)
    requires fl.Copying? && fl.tbp + fl.nflush <= |buf| && fl.next < |buf|
    ensures Pick(buf, SlotsLeft(fl)) == buf[fl.tbp..fl.tbp + fl.nflush] + if fl.wrapped then buf[..fl.next + 1] else []
  {
  }

  /** The entries in these slots, in this order. */
  function Pick(buf: seq<Entry>, slots: seq<nat>): seq<Entry>
    requires forall i :: 0 <= i < |slots| ==> slots[i] < |buf|
  {
    seq(|slots|, i requires 0 <= i < |slots| => buf[slots[i]])
  }
}
