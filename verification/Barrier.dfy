/**
 * One round of the semaphore barrier for any number of processes, one step per semaphore operation
 * (utils/barrier.c).
 */
module Barrier {
  import opened Common
  import opened Arith

  /** Where a process is in barrier_wait. */
  datatype Pc = Arrive | Count | Release | Signal | Await | Notify | Through

  datatype Proc = Proc(pc: Pc, signal: bool)

  datatype State = State(num: nat, count: nat, mutex: nat, turnstile: nat, procs: seq<Proc>)

  predicate Can(s: State, i: nat) {
    && i < |s.procs|
    && match s.procs[i].pc
       case Arrive => s.mutex > 0
       case Await => s.turnstile > 0
       case Through => false
       case _ => true
  }

  function Step(s: State, i: nat): State
    requires Can(s, i)
  {
    var p := s.procs[i];
    match p.pc
    case Arrive => s.(mutex := s.mutex - 1, procs := s.procs[i := p.(pc := Count)])
    case Count =>
      var signal := s.count + 1 == s.num;
      s.(count := if signal then 0 else s.count + 1, procs := s.procs[i := Proc(Release, signal)])
    case Release => s.(mutex := s.mutex + 1, procs := s.procs[i := p.(pc := if p.signal then Signal else Await)])
    case Signal => s.(turnstile := s.turnstile + 1, procs := s.procs[i := p.(pc := Await)])
    case Await => s.(turnstile := s.turnstile - 1, procs := s.procs[i := p.(pc := Notify)])
    case Notify => s.(turnstile := s.turnstile + 1, procs := s.procs[i := p.(pc := Through)])
    case Through => s
  }

  /** n processes before barrier_wait; barrier_init leaves no token in the turnstile. */
  function Start(n: nat, tokens: nat): State {
    State(n, 0, 1, tokens, seq(n, _ => Proc(Arrive, false)))
  }

  function Exec(s: State, run: seq<nat>): Option<State> {
    if run == [] then Some(s)
    else
      var before := Exec(s, run[..|run| - 1]);
      if before.Some? && Can(before.value, run[|run| - 1]) then Some(Step(before.value, run[|run| - 1])) else None
  }

  // ----- What is counted over the processes -----

  function Arrived(p: Proc): nat { if p.pc.Arrive? || p.pc.Count? then 0 else 1 }

  function Holding(p: Proc): nat { if p.pc.Count? || p.pc.Release? then 1 else 0 }

  /** A token between wait and post, or a signal decided on and not yet posted. */
  function Token(p: Proc): nat {
    if p.pc.Notify? || p.pc.Signal? || (p.pc.Release? && p.signal) then 1 else 0
  }

  function Signaller(p: Proc): nat { if p.signal then 1 else 0 }

  function Left(p: Proc): nat {
    match p.pc
    case Arrive => 5
    case Count => 4
    case Release => if p.signal then 4 else 3
    case Signal => 3
    case Await => 2
    case Notify => 1
    case Through => 0
  }

  predicate Past(p: Proc) { p.pc.Notify? || p.pc.Through? }

  predicate AllArrived(s: State) { Tally(s.procs, Arrived) == s.num }

  ghost predicate Inv(s: State) {
    var full := if AllArrived(s) then 1 else 0;
    && |s.procs| == s.num
    && s.mutex + Tally(s.procs, Holding) == 1
    && s.count == (if AllArrived(s) then 0 else Tally(s.procs, Arrived))
    && s.turnstile + Tally(s.procs, Token) == full
    && Tally(s.procs, Signaller) == full
    && (forall i :: 0 <= i < |s.procs| ==>
          && (Past(s.procs[i]) ==> AllArrived(s))
          && (s.procs[i].signal ==> !s.procs[i].pc.Arrive? && !s.procs[i].pc.Count?)
          && (s.procs[i].pc.Signal? ==> s.procs[i].signal))
  }

  lemma StepTallies(s: State, i: nat)
    requires Can(s, i)
    ensures var p, p' := s.procs[i], Step(s, i).procs[i];
      && Tally(Step(s, i).procs, Arrived) + Arrived(p) == Tally(s.procs, Arrived) + Arrived(p')
      && Tally(Step(s, i).procs, Holding) + Holding(p) == Tally(s.procs, Holding) + Holding(p')
      && Tally(Step(s, i).procs, Token) + Token(p) == Tally(s.procs, Token) + Token(p')
      && Tally(Step(s, i).procs, Signaller) + Signaller(p) == Tally(s.procs, Signaller) + Signaller(p')
      && Tally(Step(s, i).procs, Left) + Left(p) == Tally(s.procs, Left) + Left(p')
      && Step(s, i).procs == s.procs[i := p']
  {
    var p' := Step(s, i).procs[i];
    TallyUpdate(s.procs, i, p', Arrived);
    TallyUpdate(s.procs, i, p', Holding);
    TallyUpdate(s.procs, i, p', Token);
    TallyUpdate(s.procs, i, p', Signaller);
    TallyUpdate(s.procs, i, p', Left);
  }

  lemma StepKeepsInv(s: State, i: nat)
    requires Inv(s) && Can(s, i)
    ensures Inv(Step(s, i))
  {
    hide Tally;
    StepTallies(s, i);
    TallyFull(s.procs, Arrived);
    TallyFull(Step(s, i).procs, Arrived);
    TallyAtLeast(s.procs, Token, i);
  }

  lemma InvStart(n: nat)
    requires 0 < n
    ensures Inv(Start(n, 0))
  {
    var procs := Start(n, 0).procs;
    TallyConst(procs, Arrived, 0);
    TallyConst(procs, Holding, 0);
    TallyConst(procs, Token, 0);
    TallyConst(procs, Signaller, 0);
  }

  /** All the operations of the round that are still to come. */
  function Measure(s: State): nat {
    Tally(s.procs, Left) + if AllArrived(s) then 0 else 1
  }

  /** Every schedule of the round keeps the invariant and uses up one operation at each step. */
  lemma {:induction false} RunKeepsInv(n: nat, run: seq<nat>, s: State)
    requires 0 < n && Exec(Start(n, 0), run) == Some(s)
    ensures Inv(s) && s.num == |s.procs| == n
    ensures |run| + Measure(s) == 5 * n + 1
  {
    if run == [] {
      InvStart(n);
      TallyConst(Start(n, 0).procs, Left, 5);
      TallyConst(Start(n, 0).procs, Arrived, 0);
    } else {
      hide Inv, Measure, Step;
      var k := |run| - 1;
      var before := Exec(Start(n, 0), run[..k]).value;
      RunKeepsInv(n, run[..k], before);
      StepKeepsInv(before, run[k]);
      StepUsesOne(before, run[k]);
      StepKeepsNum(before, run[k]);
    }
  }

  lemma StepKeepsNum(s: State, i: nat)
    requires Can(s, i)
    ensures Step(s, i).num == s.num
  {
  }

  lemma StepUsesOne(s: State, i: nat)
    requires Inv(s) && Can(s, i)
    ensures Measure(Step(s, i)) + 1 == Measure(s)
  {
    hide Tally;
    StepTallies(s, i);
    TallyFull(s.procs, Arrived);
  }

  /**
   * In every schedule: nobody is past the barrier semaphore before all have counted themselves, one process signals
   * and only then, and the turnstile's tokens number none before the last arrival and one after it.
   */
  lemma BarrierSafety(n: nat, run: seq<nat>, s: State)
    requires 0 < n && Exec(Start(n, 0), run) == Some(s)
    ensures |s.procs| == n
    ensures (exists i :: 0 <= i < n && Past(s.procs[i]))
            ==> forall j :: 0 <= j < n ==> !s.procs[j].pc.Arrive? && !s.procs[j].pc.Count?
    ensures Tally(s.procs, Signaller) ==
            if forall j :: 0 <= j < n ==> !s.procs[j].pc.Arrive? && !s.procs[j].pc.Count? then 1 else 0
    ensures s.turnstile + Tally(s.procs, Token) == Tally(s.procs, Signaller)
    ensures s.mutex + Tally(s.procs, Holding) == 1
  {
    RunKeepsInv(n, run, s);
    TallyFull(s.procs, Arrived);
    assert forall j :: 0 <= j < n ==> (Arrived(s.procs[j]) == 1 <==> !s.procs[j].pc.Arrive? && !s.procs[j].pc.Count?);
  }

  /** A configuration of the round in which nothing can move is the end of it. */
  lemma StuckIsFinal(s: State)
    requires Inv(s) && 0 < s.num
    requires forall i: nat :: !Can(s, i)
    ensures forall i :: 0 <= i < s.num ==> s.procs[i].pc.Through?
    ensures s.mutex == 1 && s.turnstile == 1 && s.count == 0
  {
    forall i | 0 <= i < s.num ensures s.procs[i].pc.Arrive? || s.procs[i].pc.Await? || s.procs[i].pc.Through? {
      assert !Can(s, i);
    }
    TallyConst(s.procs, Holding, 0);
    forall i | 0 <= i < s.num ensures !s.procs[i].pc.Arrive? {
      assert !Can(s, i);
    }
    TallyConst(s.procs, Arrived, 1);
    TallyConst(s.procs, Token, 0);
    forall i | 0 <= i < s.num ensures s.procs[i].pc.Through? {
      assert !Can(s, i);
    }
  }

  /** Progress: every maximal schedule has exactly 5n + 1 steps and lets all n processes through. */
  lemma BarrierProgress(n: nat, run: seq<nat>, s: State)
    requires 0 < n && Exec(Start(n, 0), run) == Some(s)
    ensures |run| <= 5 * n + 1
    ensures (forall i: nat :: !Can(s, i)) <==> |run| == 5 * n + 1
    ensures (forall i: nat :: !Can(s, i)) ==>
              && |s.procs| == n
              && (forall i :: 0 <= i < n ==> s.procs[i].pc.Through?)
              && s.count == 0 && s.mutex == 1 && s.turnstile == 1
  {
    RunKeepsInv(n, run, s);
    hide Inv;
    if forall i: nat :: !Can(s, i) {
      StuckIsFinal(s);
      assert forall i :: 0 <= i < |s.procs| ==> s.procs[i].pc.Through?;
      hide Can;
      NothingLeft(s);
    } else {
      var i: nat :| Can(s, i);
      SomethingLeft(s, i);
    }
  }

  lemma NothingLeft(s: State)
    requires |s.procs| == s.num && forall i :: 0 <= i < |s.procs| ==> s.procs[i].pc.Through?
    ensures Measure(s) == 0
  {
    TallyConst(s.procs, Left, 0);
    TallyConst(s.procs, Arrived, 1);
  }

  lemma SomethingLeft(s: State, i: nat)
    requires Can(s, i)
    ensures Measure(s) > 0
  {
    hide Tally;
    TallyAtLeast(s.procs, Left, i);
  }

  /** A process in one of these places holds the mutex. */
  predicate InSection(p: Proc) { p.pc.Count? || p.pc.Release? }

  /** A process that has, or is about to post, the token of the turnstile. */
  predicate Carries(p: Proc) { p.pc.Notify? || p.pc.Signal? || (p.pc.Release? && p.signal) }

  lemma {:induction false} TallyZero(procs: seq<Proc>, f: Proc -> nat)
    ensures Tally(procs, f) == 0 <==> forall i :: 0 <= i < |procs| ==> f(procs[i]) == 0
  {
    if forall i :: 0 <= i < |procs| ==> f(procs[i]) == 0 {
      TallyConst(procs, f, 0);
    } else {
      var i :| 0 <= i < |procs| && f(procs[i]) != 0;
      TallyAtLeast(procs, f, i);
    }
  }

  /**
   * Who can go on, in every reachable state: any process may arrive when nobody is inside the mutex, any may take the
   * turnstile when all have arrived and nobody else carries its token, and all others are free to move until through.
   */
  lemma WhoCanGo(n: nat, run: seq<nat>, s: State, i: nat)
    requires 0 < n && Exec(Start(n, 0), run) == Some(s)
    ensures |s.procs| == n
    ensures Exec(Start(n, 0), run + [i]).Some? <==>
              && i < n
              && match s.procs[i].pc
                 case Arrive => forall j :: 0 <= j < n ==> !InSection(s.procs[j])
                 case Await => forall j :: 0 <= j < n ==>
                     !s.procs[j].pc.Arrive? && !s.procs[j].pc.Count? && !Carries(s.procs[j])
                 case Through => false
                 case _ => true
  {
    RunKeepsInv(n, run, s);
    assert (run + [i])[..|run|] == run;
    assert Exec(Start(n, 0), run + [i]).Some? <==> Can(s, i);
    TallyZero(s.procs, Holding);
    TallyZero(s.procs, Token);
    TallyFull(s.procs, Arrived);
    hide Tally, Exec;
    assert forall j :: 0 <= j < n ==> (Arrived(s.procs[j]) == 1 <==> !s.procs[j].pc.Arrive? && !s.procs[j].pc.Count?);
  }

  // ----- The barrier is good for one round -----

  /** No schedule of a round that starts with this many tokens lets anybody past before all have arrived. */
  ghost predicate SafeRound(n: nat, tokens: nat) {
    forall run, s, i: nat, j: nat ::
      Exec(Start(n, tokens), run) == Some(s) && i < |s.procs| && j < |s.procs| && Past(s.procs[i])
      ==> !s.procs[j].pc.Arrive? && !s.procs[j].pc.Count?
  }

  /** A completed round leaves one token, so that a second round with two or more processes is not safe. */
  lemma SafeRoundIff(n: nat, tokens: nat)
    requires 0 < n
    ensures SafeRound(n, tokens) <==> tokens == 0 || n == 1
  {
    if tokens == 0 {
      forall run, s, i: nat, j: nat |
        Exec(Start(n, tokens), run) == Some(s) && i < |s.procs| && j < |s.procs| && Past(s.procs[i])
        ensures !s.procs[j].pc.Arrive? && !s.procs[j].pc.Count?
      {
        BarrierSafety(n, run, s);
      }
    } else if n == 1 {
      forall run, s, i: nat, j: nat |
        Exec(Start(n, tokens), run) == Some(s) && i < |s.procs| && j < |s.procs| && Past(s.procs[i])
        ensures !s.procs[j].pc.Arrive? && !s.procs[j].pc.Count?
      {
        OneProcess(tokens, run, s);
      }
    } else {
      EarlyPassage(n, tokens);
    }
  }

  lemma {:induction false} OneProcess(tokens: nat, run: seq<nat>, s: State)
    requires Exec(Start(1, tokens), run) == Some(s)
    ensures |s.procs| == 1
  {
    if run != [] {
      OneProcess(tokens, run[..|run| - 1], Exec(Start(1, tokens), run[..|run| - 1]).value);
    }
  }

  /** The first process walks through a turnstile that already holds a token. */
  lemma EarlyPassage(n: nat, tokens: nat)
    requires 1 < n && 0 < tokens
    ensures !SafeRound(n, tokens)
  {
    var s0 := Start(n, tokens);
    var r1, r2, r3, r4 := [0], [0, 0], [0, 0, 0], [0, 0, 0, 0];
    assert r1[..0] == [] && r2[..1] == r1 && r3[..2] == r2 && r4[..3] == r3;
    var s1 := Step(s0, 0);
    assert Exec(s0, r1) == Some(s1);
    var s2 := Step(s1, 0);
    assert Exec(s0, r2) == Some(s2);
    var s3 := Step(s2, 0);
    assert Exec(s0, r3) == Some(s3);
    var s4 := Step(s3, 0);
    assert Exec(s0, r4) == Some(s4);
    assert Past(s4.procs[0]) && s4.procs[1].pc.Arrive?;
  }

  // ----- The shared structure, updated in place -----

  class BarrierCell {
    var num: nat
    var count: nat
    var mutex: nat
    var turnstile: nat
    var procs: seq<Proc>  // each process's position in barrier_wait and its local variable

    function View(): State
      reads this
    {
      State(num, count, mutex, turnstile, procs)
    }

    /** barrier_init */
    constructor (n: nat)
      ensures View() == Start(n, 0)
    {
      num, count := n, 0;
      mutex, turnstile := 1, 0;
      procs := seq(n, _ => Proc(Arrive, false));
    }

    /** A round under a scheduler that lets any process go on that can: it ends, with all through. */
    method Round()
      requires 0 < num && View() == Start(num, 0)
      modifies this
      ensures num == |procs| == old(num) && forall i :: 0 <= i < num ==> procs[i].pc.Through?
      ensures count == 0 && mutex == 1 && turnstile == 1
    {
      hide Step, Measure;
      InvStart(num);
      while exists i :: 0 <= i < |procs| && Can(View(), i)
        invariant Inv(View()) && num == old(num)
        decreases Measure(View())
      {
        var i :| 0 <= i < |procs| && Can(View(), i);
        StepKeepsInv(View(), i);
        StepUsesOne(View(), i);
        StepKeepsNum(View(), i);
        Advance(i);
      }
      StuckIsFinal(View());
    }

    /** The next operation of process i in barrier_wait. */
    method Advance(i: nat)
      requires Can(View(), i)
      modifies this
      ensures View() == Step(old(View()), i)
    {
      var p := procs[i];
      match p.pc {
        case Arrive =>
          mutex := mutex - 1;
          procs := procs[i := Proc(Count, p.signal)];
        case Count =>
          count := count + 1;
          var signal := count == num;
          if signal {
            count := 0;
          }
          procs := procs[i := Proc(Release, signal)];
        case Release =>
          mutex := mutex + 1;
          if p.signal {
            procs := procs[i := Proc(Signal, true)];
          } else {
            procs := procs[i := Proc(Await, false)];
          }
        case Signal =>
          turnstile := turnstile + 1;
          procs := procs[i := Proc(Await, p.signal)];
        case Await =>
          turnstile := turnstile - 1;
          procs := procs[i := Proc(Notify, p.signal)];
        case Notify =>
          turnstile := turnstile + 1;
          procs := procs[i := Proc(Through, p.signal)];
      }
    }
  }
}
