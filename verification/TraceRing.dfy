/**
 * The trace ring shared by a producer and a flush thread (utils/trace.c), as an interleaved step system.
 * Each critical section is one step, each store into a slot is one step, and each copied record is one step.
 */
module TraceRing {
  import opened Common
  import opened TraceEntries
  import opened Arith

  /** n ring slots, and a flush request at every multiple of b. The code has n == 65536 and b == 8192 / 40 == 204. */
  datatype Geometry = Geometry(n: nat, b: nat)

  predicate Sized(g: Geometry) { 0 < g.b < g.n }

  const CODE_GEOMETRY := Geometry(65536, 204)

  datatype Request = NoRequest | Flush | Exit

  /** struct traceinfo. */
  datatype Ti = Ti(req: Request, nextent: nat, lastflush: nat, nextflush: nat, buf: seq<Entry>)

  /** Where the main thread is: outside trace(), storing into a slot, about to post FLUSH, or in trace_fini(). */
  datatype Producer = Idle | Filling(slot: nat, call: Call, stage: nat) | Posting(slot: nat) | Joining

  /** Where the flush thread is, with its local variables. */
  datatype Flusher =
    | Ready
    | Waiting
    | Woken
    | Taken(req: Request, last: nat, next: nat)
    | Copying(req: Request, next: nat, tbp: nat, nflush: nat, wrapped: bool)
    | Exited
    | Failed

  datatype State = State(ti: Ti, prod: Producer, fl: Flusher, file: seq<Entry>)

  datatype Label =
    | Claim(call: Call)  // trace.c:152-155, the slot is reserved
    | StoreField         // trace.c:160-169, the next store into it
    | PostFlush          // trace.c:174-178
    | PostExit           // trace.c:120-125
    | Take               // trace.c:200-215, up to the wait or the unlock
    | SpuriousWake       // a return from pthread_cond_wait without a signal
    | Relock             // trace.c:213-216 after a wake-up, and back to the top of the loop
    | BeginFlush         // trace.c:222-250, up to the first write
    | CopyOne            // trace.c:236-238 and trace.c:254-255, one record
    | NextSegment        // trace.c:243-250
    | EndFlush           // trace.c:262-267
    | WriteError         // trace.c:240-241 and trace.c:257-258

  /** TRACE_MOD_ADD, and likewise the conversion of an int to uint16_t. */
  function Mod(x: nat, g: Geometry): (r: nat)
    requires Sized(g)
    ensures r < g.n
  {
    x % g.n
  }

  predicate WellFormed(g: Geometry, s: State) {
    && Sized(g)
    && |s.ti.buf| == g.n && s.ti.nextent < g.n && s.ti.lastflush < g.n && s.ti.nextflush < g.n
    && (s.prod.Filling? ==> s.prod.slot < g.n && s.prod.stage < STORES)
    && (s.prod.Posting? ==> s.prod.slot < g.n)
    && (s.fl.Taken? ==> s.fl.last < g.n && s.fl.next < g.n)
    && (s.fl.Copying? ==> s.fl.next < g.n && s.fl.tbp + s.fl.nflush <= g.n)
  }

  predicate Enabled(g: Geometry, s: State, l: Label) {
    && WellFormed(g, s)
    && match l
       case Claim(_) => s.prod.Idle?
       case StoreField => s.prod.Filling?
       case PostFlush => s.prod.Posting?
       case PostExit => s.prod.Idle?
       case Take => s.fl.Ready?
       case SpuriousWake => s.fl.Waiting?
       case Relock => s.fl.Woken?
       case BeginFlush => s.fl.Taken?
       case CopyOne => s.fl.Copying? && s.fl.nflush > 0
       case NextSegment => s.fl.Copying? && s.fl.nflush == 0 && s.fl.wrapped
       case EndFlush => s.fl.Copying? && s.fl.nflush == 0 && !s.fl.wrapped
       case WriteError => s.fl.Copying? && s.fl.nflush > 0
  }

  /** pthread_cond_signal wakes the flush thread only if it is waiting. */
  function Signalled(fl: Flusher): Flusher { if fl.Waiting? then Woken else fl }

  function Apply(g: Geometry, s: State, l: Label): State
    requires Enabled(g, s, l)
  {
    match l
    case Claim(call) =>
      s.(ti := s.ti.(nextent := Mod(s.ti.nextent + 1, g)), prod := Filling(s.ti.nextent, call, 0))
    case StoreField =>
      var p := s.prod;
      s.(ti := s.ti.(buf := s.ti.buf[p.slot := Store(s.ti.buf[p.slot], p.call, p.stage)]),
         prod := if p.stage + 1 < STORES then p.(stage := p.stage + 1)
                 else if s.ti.nextent % g.b == 0 then Posting(p.slot) else Idle)
    case PostFlush =>
      s.(ti := s.ti.(req := Flush, nextflush := s.prod.slot), fl := Signalled(s.fl), prod := Idle)
    case PostExit =>
      s.(ti := s.ti.(req := Exit, nextflush := Mod(s.ti.nextent + g.n - 1, g)), fl := Signalled(s.fl), prod := Joining)
    case Take =>
      s.(ti := s.ti.(req := NoRequest),
         fl := if s.ti.req.NoRequest? then Waiting else Taken(s.ti.req, s.ti.lastflush, s.ti.nextflush))
    case SpuriousWake => s.(fl := Woken)
    case Relock => s.(fl := Ready)
    case BeginFlush =>
      var first := Mod(s.fl.last + 1, g);
      var next := s.fl.next;
      var nflush := if first > next then Mod(g.n - first, g) else Mod(next - first + 1, g);
      s.(ti := s.ti.(lastflush := Mod(s.ti.lastflush + nflush, g)),
         fl := Copying(s.fl.req, next, first, nflush, first > next))
    case CopyOne =>
      s.(file := s.file + [s.ti.buf[s.fl.tbp]], fl := s.fl.(tbp := s.fl.tbp + 1, nflush := s.fl.nflush - 1))
    case NextSegment =>
      var nflush := Mod(s.fl.next + 1, g);
      s.(ti := s.ti.(lastflush := Mod(s.ti.lastflush + nflush, g)),
         fl := Copying(s.fl.req, s.fl.next, 0, nflush, false))
    case EndFlush => s.(fl := if s.fl.req.Exit? then Exited else Ready)
    case WriteError => s.(fl := Failed)
  }

  // ----- Runs -----

  /** What has happened: the records asked for, how many were covered by a request, how many were taken, and
      whether an EXIT was taken with nothing left to flush away from the seam of the ring. */
  datatype History = History(log: seq<Record>, requested: nat, taken: nat, stale: bool)

  datatype Config = Config(s: State, h: History)

  function Note(g: Geometry, c: Config, l: Label): History
    requires Enabled(g, c.s, l)
  {
    match l
    case StoreField =>
      if c.s.prod.stage + 1 == STORES then c.h.(log := c.h.log + [Asked(c.s.prod.call)]) else c.h
    case PostFlush => c.h.(requested := |c.h.log|)
    case PostExit => c.h.(requested := |c.h.log|)
    case Take =>
      c.h.(taken := c.h.requested,
           stale := c.s.ti.req.Exit? && c.h.taken == c.h.requested && c.h.requested % g.n != 0)
    case _ => c.h
  }

  /** The environment assumption: the backlog stays below n when a record is completed. */
  predicate Allowed(g: Geometry, c: Config, l: Label) {
    && Enabled(g, c.s, l)
    && (l.StoreField? && c.s.prod.stage + 1 == STORES ==> |c.h.log| + 1 < |c.s.file| + g.n)
  }

  function Next(g: Geometry, c: Config, l: Label): Config
    requires Enabled(g, c.s, l)
  {
    Config(Apply(g, c.s, l), Note(g, c, l))
  }

  /** trace_init over a ring of any contents. */
  function Init(g: Geometry, ring: seq<Entry>): Config
    requires Sized(g) && |ring| == g.n
  {
    Config(State(Ti(NoRequest, 0, g.n - 1, g.n - 1, ring), Idle, Ready, []), History([], 0, 0, false))
  }

  /** The configuration after a schedule, if every step of it was possible. */
  function Exec(g: Geometry, c: Config, run: seq<Label>): Option<Config>
  {
    if run == [] then Some(c)
    else
      var before := Exec(g, c, run[..|run| - 1]);
      if before.Some? && Allowed(g, before.value, run[|run| - 1]) then Some(Next(g, before.value, run[|run| - 1]))
      else None
  }

  ghost predicate Reaches(g: Geometry, ring: seq<Entry>, run: seq<Label>, c: Config) {
    Sized(g) && |ring| == g.n && Exec(g, Init(g, ring), run) == Some(c)
  }

  // ----- The invariant -----

  /** Records still to be copied by the request that is being served. */
  function Remaining(fl: Flusher): nat {
    if fl.Copying? then fl.nflush + if fl.wrapped then fl.next + 1 else 0 else 0
  }

  /** Where the file will end once everything taken has been copied. */
  function Target(g: Geometry, h: History): nat { h.taken + if h.stale then g.n else 0 }

  /** The last slot before position i. */
  function Before(i: nat, g: Geometry): nat
    requires Sized(g)
  {
    (i + g.n - 1) % g.n
  }

  function Serving(fl: Flusher): Request {
    if fl.Taken? || fl.Copying? then fl.req else NoRequest
  }

  ghost predicate ProducerInv(g: Geometry, c: Config)
    requires WellFormed(g, c.s)
  {
    var s, h, p := c.s, c.h, |c.h.log|;
    match s.prod
    case Idle => s.ti.nextent == p % g.n && p - h.requested == (p % g.n) % g.b
    case Filling(slot, call, stage) =>
      && slot == p % g.n && s.ti.nextent == (p + 1) % g.n && p - h.requested == (p % g.n) % g.b
      && StoredUpTo(s.ti.buf[slot], call, stage)
    case Posting(slot) =>
      h.requested < p && slot == (p - 1) % g.n && s.ti.nextent == p % g.n && s.ti.nextent % g.b == 0
    case Joining => h.requested == p
  }

  ghost predicate RequestInv(g: Geometry, c: Config)
    requires WellFormed(g, c.s)
  {
    var s, h := c.s, c.h;
    && h.taken <= h.requested <= |h.log| < |s.file| + g.n
    && s.ti.nextflush == Before(h.requested, g)
    && (s.ti.req.NoRequest? ==> h.taken == h.requested)
    && (s.ti.req.Flush? ==> h.taken < h.requested)
    && (s.ti.req.Exit? ==> s.prod.Joining? && h.taken + (|h.log| % g.n) % g.b <= |h.log|)
    && (Serving(s.fl).Exit? || s.fl.Exited? ==> s.prod.Joining? && s.ti.req.NoRequest?)
    && (s.prod.Joining? ==> s.ti.req.Exit? || Serving(s.fl).Exit? || s.fl.Exited? || s.fl.Failed?)
    && (h.stale ==> (Serving(s.fl).Exit? || s.fl.Exited? || s.fl.Failed?) && s.prod.Joining?
                     && s.ti.req.NoRequest? && h.taken % g.n != 0 && (h.taken % g.n) % g.b == 0)
    && (s.fl.Waiting? ==> s.ti.req.NoRequest?)
  }

  ghost predicate FlusherInv(g: Geometry, c: Config)
    requires WellFormed(g, c.s)
  {
    var s, h, f := c.s, c.h, |c.s.file|;
    && f <= Target(g, h)
    && match s.fl
       case Taken(req, last, next) =>
         && !req.NoRequest? && f <= h.taken
         && last == s.ti.lastflush == Before(f, g) && next == Before(h.taken, g)
         && (req.Flush? ==> f < h.taken)
         && (h.stale <==> f == h.taken && f % g.n != 0)
       case Copying(req, next, tbp, nflush, wrapped) =>
         && !req.NoRequest? && next == Before(h.taken, g)
         && f + Remaining(s.fl) == Target(g, h)
         && (nflush > 0 ==> tbp == f % g.n)
         && (wrapped ==> tbp + nflush == g.n && next + 1 < g.n)
         && (nflush == 0 && wrapped ==> f % g.n == 0)
         && s.ti.lastflush == if wrapped then g.n - 1 else next
       case Exited => f == Target(g, h)
       case Failed => true
       case _ => f == h.taken && !h.stale && s.ti.lastflush == Before(f, g)
  }

  /** The file is a prefix of the records asked for, every slot not copied yet holds its own record,
      and after a stale EXIT the file goes on with the ring. */
  ghost predicate ContentInv(g: Geometry, c: Config)
    requires WellFormed(g, c.s)
  {
    var s, h, f, p := c.s, c.h, |c.s.file|, |c.h.log|;
    && (forall i :: 0 <= i < f && i < p ==> Decode(s.file[i]) == h.log[i])
    && (forall i :: f <= i < p ==> Decode(s.ti.buf[i % g.n]) == h.log[i])
    && (forall i :: p <= i < f ==> s.file[i] == s.ti.buf[i % g.n])
  }

  ghost predicate Inv(g: Geometry, c: Config) {
    WellFormed(g, c.s) && ProducerInv(g, c) && RequestInv(g, c) && FlusherInv(g, c) && ContentInv(g, c)
  }

  lemma InvInit(g: Geometry, ring: seq<Entry>)
    requires Sized(g) && |ring| == g.n
    ensures Inv(g, Init(g, ring))
  {
    ModSmall(g.n - 1, g.n);
  }

  /** Slot arithmetic that the steps need: the slot before position i + 1 is that of position i. */
  lemma BeforeNext(i: nat, g: Geometry)
    requires Sized(g)
    ensures Before(i + 1, g) == i % g.n
    ensures Before(i, g) < g.n
    ensures (Before(i, g) + 1) % g.n == i % g.n
    ensures Before(i, g) == if i % g.n == 0 then g.n - 1 else i % g.n - 1
  {
    ModAddN(i, g.n);
    ModAdd(i, g.n - 1, g.n);
    ModStep(Before(i, g), g.n);
    ModSmall(Before(i, g), g.n);
  }

  lemma ClaimKeepsInv(g: Geometry, c: Config, call: Call)
    requires Inv(g, c) && Allowed(g, c, Claim(call))
    ensures Inv(g, Next(g, c, Claim(call)))
  {
    var p := |c.h.log|;
    ModStep(p, g.n);
    ModStep(p % g.n, g.n);
    ModSmall(p % g.n, g.n);
  }

  /** The store goes to the slot of the next position, which no position in the ring shares. */
  lemma StoreKeepsContent(g: Geometry, c: Config)
    requires Inv(g, c) && Allowed(g, c, StoreField)
    ensures WellFormed(g, Next(g, c, StoreField).s) && ContentInv(g, Next(g, c, StoreField))
  {
    var s, p, f := c.s, |c.h.log|, |c.s.file|;
    var s' := Apply(g, s, StoreField);
    forall i | f <= i < p ensures s'.ti.buf[i % g.n] == s.ti.buf[i % g.n] {
      SlotsDiffer(i, p, g.n);
    }
    StoreAdvances(s.ti.buf[s.prod.slot], s.prod.call, s.prod.stage);
    if s.prod.stage + 1 == STORES {
      StoredIsAsked(s'.ti.buf[s.prod.slot], s.prod.call);
    }
  }

  lemma TriggerStep(p: nat, g: Geometry)
    requires Sized(g)
    ensures ((p + 1) % g.n) % g.b == 0 || ((p + 1) % g.n) % g.b == (p % g.n) % g.b + 1
  {
    ModStep(p, g.n);
    ModStep(p % g.n, g.b);
    ModSmall(0, g.b);
  }

  lemma StoreKeepsInv(g: Geometry, c: Config)
    requires Inv(g, c) && Allowed(g, c, StoreField)
    ensures Inv(g, Next(g, c, StoreField))
  {
    StoreKeepsContent(g, c);
    StoreAdvances(c.s.ti.buf[c.s.prod.slot], c.s.prod.call, c.s.prod.stage);
    TriggerStep(|c.h.log|, g);
  }

  lemma PostKeepsInv(g: Geometry, c: Config, l: Label)
    requires l.PostFlush? || l.PostExit?
    requires Inv(g, c) && Allowed(g, c, l)
    ensures Inv(g, Next(g, c, l))
  {
    var p := |c.h.log|;
    if l.PostFlush? {
      BeforeNext(p - 1, g);
    } else {
      BeforeNext(p, g);
      BeforeNext(p % g.n, g);
      ModSmall(p % g.n, g.n);
    }
  }

  lemma TakeKeepsInv(g: Geometry, c: Config)
    requires Inv(g, c) && Allowed(g, c, Take)
    ensures Inv(g, Next(g, c, Take))
  {
  }

  /** The length of the first segment, or of both, is the number of records taken; with nothing taken it is
      zero at the seam of the ring and a whole ring elsewhere. */
  lemma CyclicLength(f: nat, t: nat, g: Geometry)
    requires Sized(g) && f <= t < f + g.n
    ensures var first, next := f % g.n, Before(t, g);
      if first > next then g.n - first + next + 1 == t - f + if f == t then g.n else 0
      else next - first + 1 == t - f + if f == t then g.n else 0
    ensures f == t && f % g.n != 0 ==> f % g.n > Before(t, g)
  {
    ModAdd(f, t - f, g.n);
    BeforeNext(t, g);
  }

  /** What BeginFlush computes from an aligned pair of markers. */
  lemma BeginSegments(g: Geometry, s: State, f: nat, t: nat)
    requires Enabled(g, s, BeginFlush) && f <= t < f + g.n
    requires s.fl.last == s.ti.lastflush == Before(f, g) && s.fl.next == Before(t, g)
    ensures var fl := Apply(g, s, BeginFlush).fl;
      && fl.tbp == f % g.n && fl.tbp + fl.nflush <= g.n
      && (fl.wrapped ==> fl.tbp + fl.nflush == g.n && fl.next + 1 < g.n && fl.nflush > 0)
      && Remaining(fl) == t - f + (if f == t && f % g.n != 0 then g.n else 0)
      && Apply(g, s, BeginFlush).ti.lastflush == if fl.wrapped then g.n - 1 else fl.next
  {
    CyclicLength(f, t, g);
    BeforeNext(f, g);
    BeforeNext(t, g);
    var first, next := f % g.n, Before(t, g);
    if first > next {
      ModSmall(g.n - first, g.n);
      ModAdd(Before(f, g), g.n - first, g.n);
    } else if next - first + 1 < g.n {
      ModSmall(next - first + 1, g.n);
      ModAdd(Before(f, g), next - first + 1, g.n);
    } else {
      ModUnique(g.n, g.n, 1, 0);
    }
    ModSmall(Before(f, g), g.n);
  }

  lemma BeginKeepsInv(g: Geometry, c: Config)
    requires Inv(g, c) && Allowed(g, c, BeginFlush)
    ensures Inv(g, Next(g, c, BeginFlush))
  {
    BeginSegments(g, c.s, |c.s.file|, c.h.taken);
  }

  lemma CopyKeepsContent(g: Geometry, c: Config)
    requires Inv(g, c) && Allowed(g, c, CopyOne)
    ensures WellFormed(g, Next(g, c, CopyOne).s) && ContentInv(g, Next(g, c, CopyOne))
  {
    assert c.s.fl.tbp == |c.s.file| % g.n;
  }

  lemma CopyKeepsFlusher(g: Geometry, c: Config)
    requires Inv(g, c) && Allowed(g, c, CopyOne)
    ensures WellFormed(g, Next(g, c, CopyOne).s) && FlusherInv(g, Next(g, c, CopyOne))
  {
    ModStep(|c.s.file|, g.n);
  }

  lemma CopyKeepsInv(g: Geometry, c: Config)
    requires Inv(g, c) && Allowed(g, c, CopyOne)
    ensures Inv(g, Next(g, c, CopyOne))
  {
    CopyKeepsContent(g, c);
    CopyKeepsFlusher(g, c);
  }

  lemma NextSegmentKeepsInv(g: Geometry, c: Config)
    requires Inv(g, c) && Allowed(g, c, NextSegment)
    ensures Inv(g, Next(g, c, NextSegment))
  {
    assert ContentInv(g, Next(g, c, NextSegment));
    hide ContentInv, Before;
    var next := c.s.fl.next;
    ModSmall(next + 1, g.n);
    ModAdd(g.n - 1, next + 1, g.n);
    ModSmall(g.n - 1, g.n);
  }

  /** Steps that only move the flush thread. */
  lemma MoveKeepsInv(g: Geometry, c: Config, l: Label)
    requires l.SpuriousWake? || l.Relock? || l.WriteError?
    requires Inv(g, c) && Allowed(g, c, l)
    ensures Inv(g, Next(g, c, l))
  {
  }

  lemma EndKeepsInv(g: Geometry, c: Config)
    requires Inv(g, c) && Allowed(g, c, EndFlush)
    ensures Inv(g, Next(g, c, EndFlush))
  {
  }

  lemma StepKeepsInv(g: Geometry, c: Config, l: Label)
    requires Inv(g, c) && Allowed(g, c, l)
    ensures Inv(g, Next(g, c, l))
  {
    hide Inv, Next, Allowed;
    match l
    case Claim(call) => ClaimKeepsInv(g, c, call);
    case StoreField => StoreKeepsInv(g, c);
    case PostFlush => PostKeepsInv(g, c, l);
    case PostExit => PostKeepsInv(g, c, l);
    case Take => TakeKeepsInv(g, c);
    case BeginFlush => BeginKeepsInv(g, c);
    case CopyOne => CopyKeepsInv(g, c);
    case NextSegment => NextSegmentKeepsInv(g, c);
    case SpuriousWake => MoveKeepsInv(g, c, l);
    case Relock => MoveKeepsInv(g, c, l);
    case EndFlush => EndKeepsInv(g, c);
    case WriteError => MoveKeepsInv(g, c, l);
  }

  lemma {:induction false} RunKeepsInv(g: Geometry, ring: seq<Entry>, run: seq<Label>, c: Config)
    requires Reaches(g, ring, run, c)
    ensures Inv(g, c)
  {
    if run == [] {
      InvInit(g, ring);
    } else {
      var k := |run| - 1;
      var before := Exec(g, Init(g, ring), run[..k]).value;
      RunKeepsInv(g, ring, run[..k], before);
      StepKeepsInv(g, before, run[k]);
    }
  }
}
