/** What the trace ring guarantees over whole runs (utils/trace.c). */
module TraceTheorems {
  import opened Common
  import opened TraceEntries
  import opened Arith
  import opened TraceRing

  // ----- Safety in every reachable configuration -----

  /** Slots the flush thread has still to copy for the request it serves. */
  function SlotsLeft(fl: Flusher): seq<nat> {
    if fl.Copying? then
      seq(fl.nflush, i requires 0 <= i < fl.nflush => fl.tbp + i)
      + if fl.wrapped then seq(fl.next + 1, i requires 0 <= i < fl.next + 1 => i) else []
    else []
  }

  /** n consecutive slots after a marker, going round the ring. */
  function CyclicSlice(g: Geometry, last: nat, count: nat): seq<nat>
    requires Sized(g)
  {
    seq(count, i requires 0 <= i < count => (last + 1 + i) % g.n)
  }

  /** While copying, what is left is a cyclic slice that starts at the next position of the file. */
  lemma SlotsLeftAreNext(g: Geometry, c: Config, k: nat)
    requires Inv(g, c) && c.s.fl.Copying? && k < |SlotsLeft(c.s.fl)|
    ensures SlotsLeft(c.s.fl)[k] == (|c.s.file| + k) % g.n
    ensures |SlotsLeft(c.s.fl)| == Target(g, c.h) - |c.s.file|
  {
    var f, fl := |c.s.file|, c.s.fl;
    hide ContentInv, ProducerInv;
    if k < fl.nflush {
      ModAdd(f, k, g.n);
    } else {
      ModAdd(f, fl.nflush, g.n);
      ModAdd(f + fl.nflush, k - fl.nflush, g.n);
    }
  }

  /**
   * Without an EXIT taken on an empty backlog, the file is a prefix of what was asked for, every slot not copied
   * yet holds its own record, and the slot being filled is neither pending nor about to be copied.
   */
  lemma ReachableIsSafe(g: Geometry, ring: seq<Entry>, run: seq<Label>, c: Config)
    requires Reaches(g, ring, run, c) && !c.h.stale
    ensures |c.s.ti.buf| == g.n
    ensures DecodeAll(c.s.file) <= c.h.log
    ensures forall i :: |c.s.file| <= i < |c.h.log| ==> Decode(c.s.ti.buf[i % g.n]) == c.h.log[i]
    ensures c.s.prod.Filling? ==>
              && c.s.prod.slot !in SlotsLeft(c.s.fl)
              && forall i :: |c.s.file| <= i < |c.h.log| ==> i % g.n != c.s.prod.slot
  {
    RunKeepsInv(g, ring, run, c);
    var f, p := |c.s.file|, |c.h.log|;
    if c.s.prod.Filling? {
      forall i | f <= i < p ensures i % g.n != c.s.prod.slot {
        SlotsDiffer(i, p, g.n);
      }
      forall k | 0 <= k < |SlotsLeft(c.s.fl)| ensures SlotsLeft(c.s.fl)[k] != c.s.prod.slot {
        SlotsLeftAreNext(g, c, k);
        SlotsDiffer(f + k, p, g.n);
      }
    }
  }

  lemma SegmentsAreSlice(g: Geometry, last: nat, fl: Flusher)
    requires Sized(g) && fl.Copying? && fl.tbp == (last + 1) % g.n && fl.tbp + fl.nflush <= g.n
    requires fl.wrapped ==> fl.tbp + fl.nflush == g.n && fl.next + 1 < g.n
    ensures SlotsLeft(fl) == CyclicSlice(g, last, Remaining(fl))
  {
    var slots := SlotsLeft(fl);
    forall i | 0 <= i < |slots| ensures slots[i] == (last + 1 + i) % g.n {
      if i < fl.nflush {
        ModAdd(last + 1, i, g.n);
      } else {
        ModAdd(last + 1, fl.nflush, g.n);
        ModAdd(last + 1 + fl.nflush, i - fl.nflush, g.n);
      }
    }
  }

  /** How many records a pair of markers stands for. */
  function Covered(g: Geometry, last: nat, next: nat): nat
    requires Sized(g) && last < g.n && next < g.n
  {
    if last != next then (next + g.n - last) % g.n else if last == g.n - 1 then 0 else g.n
  }

  lemma CoveredCases(g: Geometry, last: nat, next: nat)
    requires Sized(g) && last < g.n && next < g.n
    ensures var first := (last + 1) % g.n;
      Covered(g, last, next) == if first > next then g.n - first + next + 1
                                else if next - first + 1 == g.n then 0 else next - first + 1
  {
    ModStep(last, g.n);
    ModSmall(last, g.n);
    if next > last {
      ModAddN(next - last, g.n);
      ModSmall(next - last, g.n);
    } else if next < last {
      ModSmall(next + g.n - last, g.n);
    }
  }

  /**
   * The two segments and the one or two marker updates, for every pair of markers: a cyclic slice after the last
   * flushed slot. Equal markers are ambiguous: nothing is written at the seam and the whole ring elsewhere.
   */
  lemma FlushArithmetic(g: Geometry, s: State)
    requires Enabled(g, s, BeginFlush) && s.fl.last == s.ti.lastflush
    ensures var s', last, next := Apply(g, s, BeginFlush), s.fl.last, s.fl.next;
      && s'.fl.tbp + s'.fl.nflush <= g.n
      && (s'.fl.wrapped ==> Mod(next + 1, g) == next + 1)
      && SlotsLeft(s'.fl) == CyclicSlice(g, last, Covered(g, last, next))
      && (if s'.fl.wrapped then Mod(s'.ti.lastflush + Mod(next + 1, g), g) else s'.ti.lastflush) == next
  {
    var s', last, next := Apply(g, s, BeginFlush), s.fl.last, s.fl.next;
    var first := (last + 1) % g.n;
    CoveredCases(g, last, next);
    ModStep(last, g.n);
    ModSmall(last, g.n);
    if first > next {
      ModSmall(g.n - first, g.n);
      ModAdd(last, g.n - first, g.n);
      ModSmall(next + 1, g.n);
      ModAdd(g.n - 1, next + 1, g.n);
      ModSmall(g.n - 1, g.n);
    } else if next - first + 1 < g.n {
      ModSmall(next - first + 1, g.n);
      ModAdd(last, next - first + 1, g.n);
    } else {
      ModUnique(g.n, g.n, 1, 0);
    }
    SegmentsAreSlice(g, last, s'.fl);
  }

  lemma MarkersDiffer(f: nat, t: nat, g: Geometry)
    requires Sized(g) && f < t < f + g.n
    ensures Before(f, g) != Before(t, g)
  {
    BeforeNext(f, g);
    BeforeNext(t, g);
    SlotsDiffer(f, t, g.n);
  }

  /** At every return from trace() exactly the records since the last trigger are unrequested: fewer than b, also in
      the short block before the seam. */
  lemma TriggerSpacing(g: Geometry, ring: seq<Entry>, run: seq<Label>, c: Config)
    requires Reaches(g, ring, run, c) && c.s.prod.Idle?
    ensures |c.h.log| - c.h.requested == (|c.h.log| % g.n) % g.b < g.b
  {
    RunKeepsInv(g, ring, run, c);
    assert ProducerInv(g, c);
  }

  /** A FLUSH, pending or taken, covers at least one record and less than a lap, so its markers differ. */
  lemma FlushIsUnambiguous(g: Geometry, ring: seq<Entry>, run: seq<Label>, c: Config)
    requires Reaches(g, ring, run, c)
    ensures c.s.ti.req.Flush? ==> 0 < c.h.requested - c.h.taken < g.n
    ensures c.s.fl.Taken? && c.s.fl.req.Flush? ==> c.s.fl.last != c.s.fl.next
  {
    RunKeepsInv(g, ring, run, c);
    if c.s.fl.Taken? && c.s.fl.req.Flush? {
      MarkersDiffer(|c.s.file|, c.h.taken, g);
    }
  }

  // ----- Which steps are possible -----

  /**
   * Nothing the flush thread does holds the producer up: between calls it can claim a slot or post EXIT, after a
   * trigger it can post FLUSH, and the only store that the environment has to see to is the last one, for which there
   * must be room in the ring.
   */
  lemma ProducerCanGo(g: Geometry, ring: seq<Entry>, run: seq<Label>, c: Config, call: Call)
    requires Reaches(g, ring, run, c)
    ensures Exec(g, Init(g, ring), run + [Claim(call)]).Some? <==> c.s.prod.Idle?
    ensures Exec(g, Init(g, ring), run + [PostExit]).Some? <==> c.s.prod.Idle?
    ensures Exec(g, Init(g, ring), run + [PostFlush]).Some? <==> c.s.prod.Posting?
    ensures Exec(g, Init(g, ring), run + [StoreField]).Some? <==>
              c.s.prod.Filling? && (c.s.prod.stage + 1 < 4 || |c.h.log| + 1 < |c.s.file| + g.n)
  {
    RunKeepsInv(g, ring, run, c);
    OneMore(g, ring, run, c, Claim(call));
    OneMore(g, ring, run, c, PostExit);
    OneMore(g, ring, run, c, PostFlush);
    OneMore(g, ring, run, c, StoreField);
  }

  lemma OneMore(g: Geometry, ring: seq<Entry>, run: seq<Label>, c: Config, l: Label)
    requires Reaches(g, ring, run, c)
    ensures Exec(g, Init(g, ring), run + [l]) == if Allowed(g, c, l) then Some(Next(g, c, l)) else None
  {
    assert (run + [l])[..|run|] == run;
  }

  /** The flush thread has one step to take, wherever it is, unless it sleeps or has ended; a write can fail too. */
  lemma FlushThreadCanGo(g: Geometry, ring: seq<Entry>, run: seq<Label>, c: Config, l: Label)
    requires Reaches(g, ring, run, c) && !l.Claim? && !l.StoreField? && !l.PostFlush? && !l.PostExit?
    ensures Exec(g, Init(g, ring), run + [l]).Some? <==>
              match c.s.fl
              case Ready => l.Take?
              case Waiting => l.SpuriousWake?
              case Woken => l.Relock?
              case Taken(_, _, _) => l.BeginFlush?
              case Copying(_, _, _, nflush, wrapped) =>
                if nflush > 0 then l.CopyOne? || l.WriteError? else if wrapped then l.NextSegment? else l.EndFlush?
              case Exited => false
              case Failed => false
  {
    RunKeepsInv(g, ring, run, c);
    OneMore(g, ring, run, c, l);
  }

  /** Who sleeps and who wakes: the flush thread goes to sleep exactly when it finds no request, a request that it takes
      comes with the markers of that moment, and every request that is posted wakes it. */
  lemma SleepAndWake(g: Geometry, ring: seq<Entry>, run: seq<Label>, c: Config, l: Label, c': Config)
    requires Reaches(g, ring, run, c) && Reaches(g, ring, run + [l], c')
    ensures l.Take? ==> c'.s.fl == if c.s.ti.req.NoRequest? then Waiting
                                   else Taken(c.s.ti.req, c.s.ti.lastflush, Before(c.h.requested, g))
    ensures l.PostFlush? || l.PostExit? ==>
              && c'.s.fl == (if c.s.fl.Waiting? then Woken else c.s.fl)
              && c'.s.ti.req == (if l.PostFlush? then Flush else Exit)
              && c'.s.ti.nextflush == Before(|c.h.log|, g)
    ensures l.Claim? || l.StoreField? ==> c'.s.fl == c.s.fl && c'.s.ti.req == c.s.ti.req
  {
    RunKeepsInv(g, ring, run, c);
    RunKeepsInv(g, ring, run + [l], c');
    OneMore(g, ring, run, c, l);
  }

  // ----- The calls of a run, and their records byte for byte -----

  /** The calls of trace() in a schedule. */
  function CallsIn(run: seq<Label>): seq<Call> {
    if run == [] then []
    else
      var l := run[|run| - 1];
      CallsIn(run[..|run| - 1]) + if l.Claim? then [l.call] else []
  }

  /** The log holds what each call of the schedule asks for, except for the one that is still under way. */
  lemma {:induction false} LogIsCalls(g: Geometry, ring: seq<Entry>, run: seq<Label>, c: Config)
    requires Reaches(g, ring, run, c)
    ensures if c.s.prod.Filling? then AskedAll(CallsIn(run)) == c.h.log + [Asked(c.s.prod.call)]
            else AskedAll(CallsIn(run)) == c.h.log
  {
    if run != [] {
      var k := |run| - 1;
      var before := Exec(g, Init(g, ring), run[..k]).value;
      LogIsCalls(g, ring, run[..k], before);
      if run[k].Claim? {
        assert AskedAll(CallsIn(run)) == AskedAll(CallsIn(run[..k])) + [Asked(run[k].call)];
      } else {
        assert CallsIn(run) == CallsIn(run[..k]);
      }
      hide AskedAll, Asked, CallsIn;
    }
  }

  /**
   * In every reachable state the file holds the calls of the schedule in order, field by field and byte for byte, and
   * so do the slots that are not copied yet.
   */
  lemma FileHoldsCalls(g: Geometry, ring: seq<Entry>, run: seq<Label>, c: Config)
    requires Reaches(g, ring, run, c)
    ensures |c.s.ti.buf| == g.n
    ensures |CallsIn(run)| == |c.h.log| + if c.s.prod.Filling? then 1 else 0
    ensures forall i :: 0 <= i < |c.s.file| && i < |c.h.log| ==> Holds(c.s.file[i], CallsIn(run)[i])
    ensures forall i :: |c.s.file| <= i < |c.h.log| ==> Holds(c.s.ti.buf[i % g.n], CallsIn(run)[i])
  {
    RunKeepsInv(g, ring, run, c);
    LogIsCalls(g, ring, run, c);
    var calls, f, p := CallsIn(run), |c.s.file|, |c.h.log|;
    assert |AskedAll(calls)| == |calls|;
    forall i | 0 <= i < p
      ensures i < f ==> Holds(c.s.file[i], calls[i])
      ensures f <= i ==> Holds(c.s.ti.buf[i % g.n], calls[i])
    {
      assert AskedAll(calls)[i] == c.h.log[i];
      DecodedHolds(if i < f then c.s.file[i] else c.s.ti.buf[i % g.n], calls[i]);
    }
  }

  // ----- What the file holds at exit -----

  /** The file is what was asked for, followed by the whole ring exactly when EXIT was taken on an empty backlog away
      from the seam. */
  ghost predicate FinalFile(g: Geometry, c: Config)
    requires Sized(g) && |c.s.ti.buf| == g.n
  {
    var p := |c.h.log|;
    && |c.s.file| == p + (if c.h.stale then g.n else 0)
    && DecodeAll(c.s.file[..p]) == c.h.log
    && (forall i :: p <= i < |c.s.file| ==> c.s.file[i] == c.s.ti.buf[i % g.n])
    && (DecodeAll(c.s.file) == c.h.log <==> !c.h.stale)
    && (c.h.stale ==> p % g.n != 0 && (p % g.n) % g.b == 0)
  }

  lemma ExitedFile(g: Geometry, c: Config)
    requires Inv(g, c) && c.s.fl.Exited?
    ensures FinalFile(g, c)
  {
    assert |DecodeAll(c.s.file)| == |c.s.file|;
    if !c.h.stale {
      assert c.s.file[..|c.h.log|] == c.s.file;
    }
  }

  /** So it is at the exit of every run. */
  lemma FileAtExit(g: Geometry, ring: seq<Entry>, run: seq<Label>, c: Config)
    requires Reaches(g, ring, run, c) && c.s.fl.Exited?
    ensures |c.s.ti.buf| == g.n && FinalFile(g, c)
  {
    RunKeepsInv(g, ring, run, c);
    ExitedFile(g, c);
  }

  // ----- Single calls -----

  /** One store of trace(): nothing but the producer, its slot and the log changes. */
  lemma StoringStep(g: Geometry, c: Config)
    requires Inv(g, c) && Allowed(g, c, StoreField)
    ensures var c' := Next(g, c, StoreField);
      && Inv(g, c') && c'.s.fl == c.s.fl && c'.s.file == c.s.file && c'.s.ti.req == c.s.ti.req
      && if c.s.prod.stage + 1 < STORES then c'.h == c.h && c'.s.prod == c.s.prod.(stage := c.s.prod.stage + 1)
         else
           && c'.h == c.h.(log := c.h.log + [Asked(c.s.prod.call)])
           && (c'.s.prod.Posting? <==> (|c'.h.log| % g.n) % g.b == 0) && (c'.s.prod.Posting? || c'.s.prod.Idle?)
  {
    StoreKeepsInv(g, c);
    assert ProducerInv(g, Next(g, c, StoreField));
    hide RequestInv, FlusherInv, ContentInv, Store;
  }

  lemma ClaimStep(g: Geometry, c: Config, call: Call)
    requires Inv(g, c) && c.s.prod.Idle?
    ensures var c' := Next(g, c, Claim(call));
      && Inv(g, c') && c'.h == c.h && c'.s.prod == Filling(c.s.ti.nextent, call, 0)
      && c'.s.fl == c.s.fl && c'.s.file == c.s.file && c'.s.ti.req == c.s.ti.req
  {
    ClaimKeepsInv(g, c, call);
  }

  lemma PostStep(g: Geometry, c: Config)
    requires Inv(g, c) && c.s.prod.Posting?
    ensures var c' := Next(g, c, PostFlush);
      && Inv(g, c') && c'.h == c.h.(requested := |c.h.log|) && c'.s.prod.Idle?
      && c'.s.fl == Signalled(c.s.fl) && c'.s.file == c.s.file && c'.s.ti.req.Flush?
  {
    PostKeepsInv(g, c, PostFlush);
  }

  /** EXIT posted with the flush thread at the top of its loop and nothing pending. */
  lemma ExitStep(g: Geometry, c: Config)
    requires Inv(g, c) && c.s.prod.Idle? && c.s.fl.Ready? && c.s.ti.req.NoRequest?
    ensures var c', p := Next(g, c, PostExit), |c.h.log|;
      && Inv(g, c') && c'.s.fl.Ready? && c'.s.ti.req.Exit? && c'.h.log == c.h.log
      && (Note(g, c', Take).stale <==> p % g.n != 0 && (p % g.n) % g.b == 0)
  {
    PostKeepsInv(g, c, PostExit);
  }

  /** What one call of trace() makes of a configuration in which the flush thread does not move. */
  ghost predicate Traces(g: Geometry, c: Config, call: Call, c': Config)
    requires Sized(g)
  {
    var trigger := (|c'.h.log| % g.n) % g.b == 0;
    && Inv(g, c') && c'.s.prod.Idle? && c'.s.file == c.s.file
    && c'.h.log == c.h.log + [Asked(call)] && c'.h.taken == c.h.taken
    && c'.s.ti.req == (if trigger then Flush else c.s.ti.req)
    && c'.s.fl == (if trigger then Signalled(c.s.fl) else c.s.fl)
  }

  /** Between calls, with the flush thread at the top of its loop and nothing pending, there is room for a record. */
  lemma RoomForOne(g: Geometry, c: Config)
    requires Inv(g, c) && c.s.prod.Idle? && c.s.fl.Ready? && c.s.ti.req.NoRequest?
    ensures |c.h.log| + 1 < |c.s.file| + g.n
  {
  }

  lemma Extend(g: Geometry, ring: seq<Entry>, run: seq<Label>, c: Config, l: Label)
    returns (run': seq<Label>, c': Config)
    requires Reaches(g, ring, run, c) && Allowed(g, c, l)
    ensures c' == Next(g, c, l) && Reaches(g, ring, run', c') && Inv(g, c')
  {
    run', c' := run + [l], Next(g, c, l);
    assert run'[..|run|] == run;
    RunKeepsInv(g, ring, run', c');
  }

  /** The flush thread alone can finish the request it serves. */
  lemma {:induction false} Drain(g: Geometry, ring: seq<Entry>, run: seq<Label>, c: Config)
    returns (run': seq<Label>, c': Config)
    requires Reaches(g, ring, run, c) && Inv(g, c) && c.s.fl.Copying?
    ensures Reaches(g, ring, run', c') && Inv(g, c')
    ensures c'.h == c.h && c'.s.prod == c.s.prod && c'.s.ti.req == c.s.ti.req
    ensures c'.s.fl == if c.s.fl.req.Exit? then Exited else Ready
    decreases c.s.fl.wrapped, c.s.fl.nflush
  {
    var l := if c.s.fl.nflush > 0 then CopyOne else if c.s.fl.wrapped then NextSegment else EndFlush;
    run', c' := Extend(g, ring, run, c, l);
    if !l.EndFlush? {
      run', c' := Drain(g, ring, run', c');
    }
  }

  /** The flush thread alone can take a pending request and finish it. */
  lemma Serve(g: Geometry, ring: seq<Entry>, run: seq<Label>, c: Config) returns (run': seq<Label>, c': Config)
    requires Reaches(g, ring, run, c) && Inv(g, c) && c.s.fl.Ready? && !c.s.ti.req.NoRequest?
    ensures Reaches(g, ring, run', c') && Inv(g, c')
    ensures c'.h == Note(g, c, Take) && c'.s.prod == c.s.prod && c'.s.ti.req.NoRequest?
    ensures c'.s.fl == if c.s.ti.req.Exit? then Exited else Ready
  {
    run', c' := Extend(g, ring, run, c, Take);
    run', c' := Extend(g, ring, run', c', BeginFlush);
    run', c' := Drain(g, ring, run', c');
  }

  /** Between calls, with the flush thread at the top of its loop. */
  ghost predicate Resting(g: Geometry, ring: seq<Entry>, run: seq<Label>, c: Config) {
    Reaches(g, ring, run, c) && Inv(g, c) && c.s.prod.Idle? && c.s.fl.Ready?
  }

  /** One call of trace() while the flush thread does nothing. */
  lemma OneCall(g: Geometry, ring: seq<Entry>, run: seq<Label>, c: Config, call: Call)
    returns (run': seq<Label>, c': Config)
    requires Resting(g, ring, run, c) && c.s.ti.req.NoRequest?
    ensures Resting(g, ring, run', c') && Traces(g, c, call, c')
  {
    RoomForOne(g, c);
    run', c' := Extend(g, ring, run, c, Claim(call));
    for stage := 0 to STORES - 1
      invariant Reaches(g, ring, run', c') && Inv(g, c') && c'.h == c.h
      invariant c'.s.prod.Filling? && c'.s.prod.stage == stage && c'.s.prod.call == call
      invariant c'.s.fl == c.s.fl && c'.s.file == c.s.file && c'.s.ti.req == c.s.ti.req
    {
      StoringStep(g, c');
      run', c' := Extend(g, ring, run', c', StoreField);
    }
    StoringStep(g, c');
    run', c' := Extend(g, ring, run', c', StoreField);
    if c'.s.prod.Posting? {
      run', c' := Extend(g, ring, run', c', PostFlush);
    }
  }

  /** Any calls can be made with every request served at once. */
  lemma {:induction false} ManyCalls(g: Geometry, ring: seq<Entry>, calls: seq<Call>)
    returns (run: seq<Label>, c: Config)
    requires Sized(g) && |ring| == g.n
    ensures Resting(g, ring, run, c) && c.s.ti.req.NoRequest?
    ensures c.h.log == AskedAll(calls)
  {
    if calls == [] {
      run, c := [], Init(g, ring);
      InvInit(g, ring);
    } else {
      var k := |calls| - 1;
      run, c := ManyCalls(g, ring, calls[..k]);
      run, c := OneCall(g, ring, run, c, calls[k]);
      assert AskedAll(calls) == AskedAll(calls[..k]) + [Asked(calls[k])];
      if c.s.ti.req.Flush? {
        run, c := Serve(g, ring, run, c);
      }
    }
  }

  /** trace_fini and the flush thread's last request. */
  lemma Finish(g: Geometry, ring: seq<Entry>, run: seq<Label>, c: Config) returns (run': seq<Label>, c': Config)
    requires Resting(g, ring, run, c)
    ensures Reaches(g, ring, run', c') && c'.s.fl.Exited? && c'.h.log == c.h.log
    ensures c'.h.stale <==> c.h.taken == |c.h.log| && |c.h.log| % g.n != 0
  {
    run', c' := Extend(g, ring, run, c, PostExit);
    run', c' := Serve(g, ring, run', c');
  }

  /** Every complete run that makes these calls leaves exactly what they asked for in the file. */
  ghost predicate AlwaysExact(g: Geometry, ring: seq<Entry>, calls: seq<Call>) {
    forall run, c :: Reaches(g, ring, run, c) && c.s.fl.Exited? && c.h.log == AskedAll(calls)
                     ==> DecodeAll(c.s.file) == AskedAll(calls)
  }

  /**
   * The trace file is exact in every interleaving if and only if the number of calls, counted from the last
   * wrap of the ring, is zero or does not end on a flush trigger.
   */
  lemma ExactIff(g: Geometry, ring: seq<Entry>, calls: seq<Call>)
    requires 0 < g.b < g.n == |ring|
    ensures AlwaysExact(g, ring, calls) <==> |calls| % g.n == 0 || (|calls| % g.n) % g.b != 0
  {
    var p := |calls|;
    assert |AskedAll(calls)| == p;
    forall run, c | Reaches(g, ring, run, c) && c.s.fl.Exited? && c.h.log == AskedAll(calls)
      ensures DecodeAll(c.s.file) == c.h.log || (p % g.n != 0 && (p % g.n) % g.b == 0)
    {
      FileAtExit(g, ring, run, c);
    }
    if p % g.n != 0 && (p % g.n) % g.b == 0 {
      var run, c := ManyCalls(g, ring, calls);
      run, c := Finish(g, ring, run, c);
      FileAtExit(g, ring, run, c);
    }
  }

  /** The same with the sizes of the code: 65536 slots, and a trigger at every 204 records of 40 bytes. */
  lemma ExactIffInCode(ring: seq<Entry>, calls: seq<Call>)
    requires |ring| == 65536
    ensures AlwaysExact(CODE_GEOMETRY, ring, calls) <==> |calls| % 65536 == 0 || (|calls| % 65536) % 204 != 0
  {
    ExactIff(CODE_GEOMETRY, ring, calls);
  }

  /** The other outcome of the race is possible too: every count of calls has a complete run with an exact file. */
  lemma ExactPossible(g: Geometry, ring: seq<Entry>, calls: seq<Call>) returns (run: seq<Label>, c: Config)
    requires 0 < g.b < g.n == |ring|
    ensures Reaches(g, ring, run, c) && c.s.fl.Exited? && c.h.log == AskedAll(calls)
    ensures DecodeAll(c.s.file) == AskedAll(calls)
  {
    if calls == [] {
      run, c := ManyCalls(g, ring, calls);
      ModSmall(0, g.n);
    } else {
      var k := |calls| - 1;
      run, c := ManyCalls(g, ring, calls[..k]);
      run, c := OneCall(g, ring, run, c, calls[k]);
      assert AskedAll(calls) == AskedAll(calls[..k]) + [Asked(calls[k])];
    }
    run, c := Finish(g, ring, run, c);
    FileAtExit(g, ring, run, c);
  }

  // ----- No lost wake-up, no lost exit -----

  function FlusherStep(s: State): Label {
    match s.fl
    case Ready => Take
    case Woken => Relock
    case Taken(_, _, _) => BeginFlush
    case Copying(_, _, _, nflush, wrapped) => if nflush > 0 then CopyOne else if wrapped then NextSegment else EndFlush
    case _ => SpuriousWake
  }

  /** The flush thread sleeps only when nothing is pending, requests are never dropped, and it can always move on. */
  lemma NoLostWakeup(g: Geometry, ring: seq<Entry>, run: seq<Label>, c: Config)
    requires Reaches(g, ring, run, c)
    ensures c.s.fl.Waiting? ==> c.s.ti.req.NoRequest? && c.h.taken == c.h.requested && !c.s.prod.Joining?
    ensures c.s.prod.Joining? && !c.s.fl.Exited? && !c.s.fl.Failed?
            ==> c.s.ti.req.Exit? || ((c.s.fl.Taken? || c.s.fl.Copying?) && c.s.fl.req.Exit?)
    ensures c.h.taken < c.h.requested <==> c.s.ti.req.Flush? || (c.s.ti.req.Exit? && c.h.taken < |c.h.log|)
    ensures c.s.ti.nextflush == Before(c.h.requested, g)
    ensures !c.s.fl.Waiting? && !c.s.fl.Exited? && !c.s.fl.Failed? ==> Allowed(g, c, FlusherStep(c.s))
  {
    RunKeepsInv(g, ring, run, c);
  }

  /** How far the flush thread is from its end once EXIT has been posted. */
  function Distance(g: Geometry, fl: Flusher): nat {
    match fl
    case Exited => 0
    case Failed => 0
    case Copying(req, _, _, _, wrapped) =>
      1 + Remaining(fl) + (if wrapped then 1 else 0) + if req.Exit? then 0 else g.n + 7
    case Taken(req, _, _) => g.n + 4 + if req.Exit? then 0 else g.n + 8
    case Ready => g.n + 5
    case Woken => g.n + 6
    case Waiting => g.n + 7
  }

  lemma DistanceFalls(g: Geometry, c: Config, l: Label)
    requires Inv(g, c) && Allowed(g, c, l) && c.s.prod.Joining?
    ensures Next(g, c, l).s.prod.Joining?
    ensures Distance(g, Next(g, c, l).s.fl) < Distance(g, c.s.fl)
    ensures Next(g, c, l).s.fl.Failed? ==> l.WriteError?
  {
    if l.BeginFlush? {
      BeginSegments(g, c.s, |c.s.file|, c.h.taken);
    }
    if l.NextSegment? {
      ModSmall(c.s.fl.next + 1, g.n);
    }
  }

  /**
   * Once EXIT is posted, every continuation is bounded, and a continuation that cannot go on and has no failed
   * write has ended the flush thread normally. No fairness and no bound on spurious wake-ups is needed.
   */
  lemma {:induction false} ExitTerminates(g: Geometry, ring: seq<Entry>, run: seq<Label>, c: Config,
                                          more: seq<Label>, c': Config)
    requires Reaches(g, ring, run, c) && c.s.prod.Joining? && !c.s.fl.Failed?
    requires Reaches(g, ring, run + more, c')
    ensures c'.s.prod.Joining? && Distance(g, c'.s.fl) + |more| <= Distance(g, c.s.fl) <= 2 * g.n + 12
    ensures (forall l :: !Allowed(g, c', l)) && WriteError !in more ==> c'.s.fl.Exited?
  {
    if more == [] {
      assert run + more == run;
      RunKeepsInv(g, ring, run, c);
      BeforeNext(c.h.taken, g);
    } else {
      var k := |more| - 1;
      assert (run + more)[..|run + more| - 1] == run + more[..k];
      var mid := Exec(g, Init(g, ring), run + more[..k]).value;
      ExitTerminates(g, ring, run, c, more[..k], mid);
      RunKeepsInv(g, ring, run + more[..k], mid);
      DistanceFalls(g, mid, more[k]);
    }
    NoLostWakeup(g, ring, run + more, c');
  }
}
