/** Trace records and how trace() fills a ring slot field by field (include/utils.h, utils/trace.c). */
module TraceEntries {
  import opened Common
  import opened Clock

  datatype Op = ReadOp | WriteOp | MiscOp

  /** A C string without its terminator. */
  type CString = s: seq<Byte> | 0 !in s

  const TAG_SIZE := 7

  type Tag = t: seq<Byte> | |t| == TAG_SIZE witness [0, 0, 0, 0, 0, 0, 0]

  /** A slot of the ring, as raw memory. */
  datatype Entry = Entry(op: Op, tag: Tag, timestamp: Timespec, duration: Timespec)

  /** The arguments of one call of trace(). */
  datatype Call = Call(op: Op, timestamp: Timespec, duration: Timespec, tag: Option<CString>)

  /** What a reader of the trace file sees in a slot: the tag counts up to its first zero byte. */
  datatype Record = Record(op: Op, text: CString, timestamp: Timespec, duration: Timespec)

  function UpToZero(t: seq<Byte>): CString {
    if t == [] || t[0] == 0 then [] else [t[0]] + UpToZero(t[1..])
  }

  function Decode(e: Entry): Record {
    Record(e.op, UpToZero(e.tag), e.timestamp, e.duration)
  }

  /** What a call asks to be recorded: the first seven characters of its tag, or none. */
  function Asked(c: Call): Record {
    Record(c.op,
           if c.tag.None? then [] else if |c.tag.value| <= TAG_SIZE then c.tag.value else c.tag.value[..TAG_SIZE],
           c.timestamp, c.duration)
  }

  function Zeros(n: nat): seq<Byte> { seq(n, _ => 0) }

  /** strncpy of at most seven bytes: padded with zeros, not terminated when the source is longer. */
  function Strncpy(src: CString): Tag {
    if |src| >= TAG_SIZE then src[..TAG_SIZE] else src + Zeros(TAG_SIZE - |src|)
  }

  const STORES := 4

  /** The stores of trace() into the slot, in program order. Without a tag only the first tag byte is cleared. */
  function Store(e: Entry, c: Call, stage: nat): Entry {
    if stage == 0 then e.(op := c.op)
    else if stage == 1 then e.(timestamp := c.timestamp)
    else if stage == 2 then e.(duration := c.duration)
    else e.(tag := if c.tag.Some? then Strncpy(c.tag.value) else e.tag[0 := 0])
  }

  /** What the first stores have established, whatever the slot held before. */
  ghost predicate StoredUpTo(e: Entry, c: Call, stage: nat) {
    && (stage > 0 ==> e.op == c.op)
    && (stage > 1 ==> e.timestamp == c.timestamp)
    && (stage > 2 ==> e.duration == c.duration)
    && (stage > 3 ==> UpToZero(e.tag) == Asked(c).text)
  }

  lemma {:induction false} UpToZeroOfString(s: CString, rest: seq<Byte>)
    requires rest == [] || rest[0] == 0
    ensures UpToZero(s + rest) == s
  {
    if s == [] {
      assert s + rest == rest;
    } else {
      assert (s + rest)[1..] == s[1..] + rest;
      UpToZeroOfString(s[1..], rest);
    }
  }

  lemma StoreAdvances(e: Entry, c: Call, stage: nat)
    requires stage < STORES && StoredUpTo(e, c, stage)
    ensures StoredUpTo(Store(e, c, stage), c, stage + 1)
  {
    if stage == 3 && c.tag.Some? {
      var s := c.tag.value;
      if |s| >= TAG_SIZE {
        UpToZeroOfString(s[..TAG_SIZE], []);
        assert s[..TAG_SIZE] + [] == s[..TAG_SIZE];
      } else {
        UpToZeroOfString(s, Zeros(TAG_SIZE - |s|));
      }
    }
  }

  /** After the last store the slot reads back as what the call asked for, whatever stale bytes it held. */
  lemma StoredIsAsked(e: Entry, c: Call)
    requires StoredUpTo(e, c, STORES)
    ensures Decode(e) == Asked(c)
  {
  }

  function DecodeAll(es: seq<Entry>): seq<Record> {
    seq(|es|, i requires 0 <= i < |es| => Decode(es[i]))
  }

  function AskedAll(cs: seq<Call>): seq<Record> {
    seq(|cs|, i requires 0 <= i < |cs| => Asked(cs[i]))
  }

  // ----- A slot byte for byte -----

  /** The fields of a slot that a call leaves: the first seven characters of its tag, and a zero after a shorter one. */
  ghost predicate Holds(e: Entry, c: Call) {
    && e.op == c.op && e.timestamp == c.timestamp && e.duration == c.duration
    && match c.tag
       case None => e.tag[0] == 0
       case Some(t) => forall j :: 0 <= j < 7 && j <= |t| ==> e.tag[j] == if j < |t| then t[j] else 0
  }

  lemma {:induction false} UpToZeroEnds(t: seq<Byte>)
    ensures UpToZero(t) <= t
    ensures |UpToZero(t)| < |t| ==> t[|UpToZero(t)|] == 0
  {
    if t != [] && t[0] != 0 {
      UpToZeroEnds(t[1..]);
    }
  }

  /** A slot that reads back as a call's record holds it byte for byte. */
  lemma DecodedHolds(e: Entry, c: Call)
    requires Decode(e) == Asked(c)
    ensures Holds(e, c)
  {
    UpToZeroEnds(e.tag);
    if c.tag.Some? && |c.tag.value| > TAG_SIZE {
      assert UpToZero(e.tag) == c.tag.value[..TAG_SIZE];
    }
  }

  /** What is read back is what was passed: a tag of up to seven characters whole, a longer one as its first seven. */
  lemma ReadsBackAsPassed(e: Entry, c: Call, t: CString)
    requires Decode(e) == Asked(c) && c.tag == Some(t)
    ensures Decode(e).op == c.op && Decode(e).timestamp == c.timestamp && Decode(e).duration == c.duration
    ensures |t| <= 7 ==> Decode(e).text == t
    ensures |t| > 7 ==> |Decode(e).text| == 7 && Decode(e).text == t[..7]
  {
  }
}
