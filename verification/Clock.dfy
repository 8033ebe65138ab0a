/** Time stamps and their differences (utils/time.c). */
module Clock {

  const NSEC_PER_SEC := 1_000_000_000

  /** A struct timespec as a value. */
  datatype Timespec = Timespec(sec: int, nsec: int) {
    function Total(): int { sec * NSEC_PER_SEC + nsec }

    predicate Normalised() { 0 <= nsec < NSEC_PER_SEC }
  }

  /** A struct timespec that is written through a pointer. */
  class TimespecCell {
    var sec: int
    var nsec: int

    function Value(): Timespec
      reads this
    {
      Timespec(sec, nsec)
    }
  }

  /** The value time_delta leaves: the difference, with seconds borrowed while the nanoseconds are negative. */
  function Delta(t1: Timespec, t2: Timespec): Timespec {
    Borrow(t2.sec - t1.sec, t2.nsec - t1.nsec)
  }

  function Borrow(sec: int, nsec: int): Timespec
    decreases -nsec
  {
    if nsec < 0 then Borrow(sec - 1, nsec + NSEC_PER_SEC) else Timespec(sec, nsec)
  }

  /** delta may be the same object as t1 or t2: each field is read before it is overwritten. */
  method TimeDelta(t1: TimespecCell, t2: TimespecCell, delta: TimespecCell)
    modifies delta
    ensures delta.Value() == Delta(old(t1.Value()), old(t2.Value()))
  {
    delta.sec := t2.sec - t1.sec;
    delta.nsec := t2.nsec - t1.nsec;
    while delta.nsec < 0
      invariant Borrow(delta.sec, delta.nsec) == Delta(old(t1.Value()), old(t2.Value()))
      decreases -delta.nsec
    {
      delta.sec := delta.sec - 1;
      delta.nsec := delta.nsec + NSEC_PER_SEC;
    }
  }

  /**
   * The borrow loop conserves the total for all inputs and always leaves non-negative nanoseconds;
   * the result is normalised exactly when the nanosecond difference was below a second,
   * and it is then the only normalised time stamp of that total.
   */
  lemma DeltaMeaning(t1: Timespec, t2: Timespec)
    ensures Delta(t1, t2).Total() == t2.Total() - t1.Total()
    ensures Delta(t1, t2).nsec >= 0
    ensures Delta(t1, t2).Normalised() <==> t2.nsec - t1.nsec < NSEC_PER_SEC
    ensures forall t: Timespec :: t.Normalised() && t.Total() == t2.Total() - t1.Total() && Delta(t1, t2).Normalised()
              ==> t == Delta(t1, t2)
  {
    BorrowMeaning(t2.sec - t1.sec, t2.nsec - t1.nsec);
  }

  lemma {:induction false} BorrowMeaning(sec: int, nsec: int)
    ensures Borrow(sec, nsec).Total() == sec * NSEC_PER_SEC + nsec
    ensures Borrow(sec, nsec).nsec >= 0
    ensures Borrow(sec, nsec).nsec < NSEC_PER_SEC <==> nsec < NSEC_PER_SEC
    decreases -nsec
  {
    if nsec < 0 {
      BorrowMeaning(sec - 1, nsec + NSEC_PER_SEC);
    }
  }

  /** One timed store operation: the clock read before and after it. */
  datatype Timed = Timed(start: Timespec, end: Timespec)

  /** The clock readings of a worker's operations never go back. */
  ghost predicate Monotone(begin: Timespec, ops: seq<Timed>) {
    && (forall i :: 0 <= i < |ops| ==> begin.Total() <= ops[i].start.Total() <= ops[i].end.Total())
    && (forall i :: 0 < i < |ops| ==> ops[i - 1].end.Total() <= ops[i].start.Total())
  }

  /** The time stamp and the duration that are traced for an operation. */
  function TracedStart(begin: Timespec, op: Timed): Timespec { Delta(begin, op.start) }

  function TracedDuration(op: Timed): Timespec { Delta(op.start, op.end) }

  /** Traced operations of one worker are ordered and do not overlap. */
  lemma {:induction false} TracedInOrder(begin: Timespec, ops: seq<Timed>, i: nat, j: nat)
    requires Monotone(begin, ops) && i < j < |ops|
    ensures TracedStart(begin, ops[i]).Total() + TracedDuration(ops[i]).Total() <= TracedStart(begin, ops[j]).Total()
    ensures TracedStart(begin, ops[i]).Total() >= 0 && TracedDuration(ops[i]).Total() >= 0
    decreases j
  {
    if i < j - 1 {
      TracedInOrder(begin, ops, i, j - 1);
    }
    DeltaMeaning(begin, ops[i].start);
    DeltaMeaning(ops[i].start, ops[i].end);
    DeltaMeaning(begin, ops[j - 1].start);
    DeltaMeaning(begin, ops[j].start);
    DeltaMeaning(ops[j - 1].start, ops[j - 1].end);
  }

  /** What is traced for an operation spans it exactly, whatever the two clock readings were. */
  lemma TracedSpan(begin: Timespec, op: Timed)
    ensures TracedStart(begin, op).Total() == op.start.Total() - begin.Total()
    ensures TracedStart(begin, op).Total() + TracedDuration(op).Total() == op.end.Total() - begin.Total()
  {
    DeltaMeaning(begin, op.start);
    DeltaMeaning(op.start, op.end);
  }
}
