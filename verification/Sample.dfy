/** Sample objects: generated from a PRNG, stored as bytes, and checked against the PRNG (sample/sample_debug.c). */
module Sample {
  import opened Common
  import opened Prng

  const WORD_SIZE := 4
  const LEN_MAX := 1536  // SAMPLE_LEN_MAX, 384 words
  const LEN_MIN := 768

  /** The bytes of a word in memory, least significant first. */
  function BytesOf(w: Word): (b: Bytes)
    ensures |b| == WORD_SIZE
  {
    [w % 256, w / 256 % 256, w / 256 / 256 % 256, w / 256 / 256 / 256]
  }

  function WordOf(b: Bytes): Word
    requires |b| == WORD_SIZE
  {
    Push(b[0], Push(b[1], Push(b[2], b[3])))
  }

  function Push(low: Byte, high: nat): (r: nat)
    ensures r % 256 == low && r / 256 == high
  {
    low as int + 256 * high
  }

  lemma WordBytes(w: Word)
    ensures WordOf(BytesOf(w)) == w
  {
  }

  lemma BytesWord(b: Bytes)
    requires |b| == WORD_SIZE
    ensures BytesOf(WordOf(b)) == b
  {
  }

  /** Words laid out one after the other. */
  function Flat(ws: seq<Word>): (b: Bytes)
    ensures |b| == WORD_SIZE * |ws|
  {
    if ws == [] then [] else Flat(ws[..|ws| - 1]) + BytesOf(ws[|ws| - 1])
  }

  /** sample_debug_len_calc */
  function LenOf(w: Word): nat { w % (LEN_MAX - LEN_MIN) + LEN_MIN }

  function WordsFor(len: nat): nat { (len + WORD_SIZE - 1) / WORD_SIZE }

  /** The length a sample generated from this state gets, and the state its words are drawn from. */
  function LenFrom<S(!new)>(d: Driver<S>, s: S): nat { LenOf(d.next(s).1) }

  /** What the first k words of the sample look like in memory. */
  function Drawn<S(!new)>(d: Driver<S>, s: S, k: nat): (b: Bytes)
    ensures |b| == WORD_SIZE * k
  {
    Flat(Stream(d, d.next(s).0, k))
  }

  /** The content of the sample generated from this state. */
  function Content<S(!new)>(d: Driver<S>, s: S): Bytes {
    var len := LenFrom(d, s);
    Drawn(d, s, WordsFor(len))[..len]
  }

  /** The PRNG state after generating a sample. */
  function Beyond<S(!new)>(d: Driver<S>, s: S): S {
    After(d, d.next(s).0, WordsFor(LenFrom(d, s)))
  }

  lemma DrawnNext<S(!new)>(d: Driver<S>, s: S, k: nat)
    ensures Drawn(d, s, k + 1) == Drawn(d, s, k) + BytesOf(d.next(After(d, d.next(s).0, k)).1)
  {
    var ws := Stream(d, d.next(s).0, k + 1);
    assert ws[..k] == Stream(d, d.next(s).0, k);
  }

  lemma {:induction false} DrawnPrefix<S(!new)>(d: Driver<S>, s: S, j: nat, k: nat)
    requires j <= k
    ensures Drawn(d, s, k)[..WORD_SIZE * j] == Drawn(d, s, j)
  {
    if j < k {
      DrawnPrefix(d, s, j, k - 1);
      DrawnNext(d, s, k - 1);
    }
  }

  /** The whole words of a sample, and what is left after them. */
  lemma ContentWords<S(!new)>(d: Driver<S>, s: S)
    ensures var words, remain := LenFrom(d, s) / WORD_SIZE, LenFrom(d, s) % WORD_SIZE;
      && WordsFor(LenFrom(d, s)) == words + (if remain != 0 then 1 else 0)
      && |Content(d, s)| == LenFrom(d, s)
      && Content(d, s)[..WORD_SIZE * words] == Drawn(d, s, words)
  {
    hide Drawn, LenFrom;
    var len := LenFrom(d, s);
    DrawnPrefix(d, s, len / WORD_SIZE, WordsFor(len));
  }

  // ----- A sample byte for byte -----

  /** The bytes of a word stand for it, least significant first. */
  lemma BytesAddUp(w: Word)
    ensures var b := BytesOf(w);
      b[0] as int + 0x100 * b[1] as int + 0x1_0000 * b[2] as int + 0x100_0000 * b[3] as int == w as int
  {
  }

  /** Byte j of a word in memory. */
  function ByteOf(w: Word, j: nat): Byte {
    w / (if j == 0 then 1 else if j == 1 then 0x100 else if j == 2 then 0x1_0000 else 0x100_0000) % 0x100
  }

  lemma BytesAre(w: Word)
    ensures forall j :: 0 <= j < 4 ==> BytesOf(w)[j] == ByteOf(w, j)
  {
  }

  /** Word k of what is drawn from a state. */
  function Output<S(!new)>(d: Driver<S>, s: S, k: nat): Word { d.next(After(d, s, k)).1 }

  lemma {:induction false} DrawnBytes<S(!new)>(d: Driver<S>, s: S, k: nat, p: nat)
    requires p < 4 * k
    ensures Drawn(d, s, k)[p] == ByteOf(Output(d, s, 1 + p / 4), p % 4)
  {
    DrawnNext(d, s, k - 1);
    hide Drawn, BytesOf, ByteOf;
    if p < 4 * (k - 1) {
      DrawnBytes(d, s, k - 1, p);
    } else {
      StreamNext(d, s, k - 1);
      BytesAre(Output(d, s, k));
    }
  }

  /** The first output gives the length, and byte p of the content is a byte of output 1 + p / 4. */
  lemma ContentBytes<S(!new)>(d: Driver<S>, s: S)
    ensures |Content(d, s)| == d.next(s).1 % 768 + 768
    ensures forall p :: 0 <= p < |Content(d, s)| ==> Content(d, s)[p] == ByteOf(Output(d, s, 1 + p / 4), p % 4)
    ensures Beyond(d, s) == After(d, s, 1 + (|Content(d, s)| + 3) / 4)
  {
    var len := LenFrom(d, s);
    StreamNext(d, s, WordsFor(len));
    hide Drawn, ByteOf;
    forall p | 0 <= p < len ensures Content(d, s)[p] == ByteOf(Output(d, s, 1 + p / 4), p % 4) {
      DrawnBytes(d, s, WordsFor(len), p);
    }
  }

  /** With PRNG_DEBUG in state s: s % 768 + 768 bytes of the words s + 1, s + 2 and so on. */
  lemma DebugContent(s: Word)
    ensures |Content(DEBUG, s)| == s % 768 + 768
    ensures forall p :: 0 <= p < |Content(DEBUG, s)| ==>
              Content(DEBUG, s)[p] == ByteOf((s + 1 + p / 4) % 0x1_0000_0000, p % 4)
    ensures Beyond(DEBUG, s) == (s + 1 + (s % 768 + 771) / 4) % 0x1_0000_0000
  {
    ContentBytes(DEBUG, s);
    hide Content, Beyond, ByteOf;
    DebugAfter(s, 1 + (s % 768 + 771) / 4);
    forall k: nat ensures Output(DEBUG, s, k) == (s + k) % 0x1_0000_0000 {
      DebugAfter(s, k);
    }
  }

  class SampleCell {
    var len: nat
    const data: array<Byte>

    predicate Valid()
      reads this
    {
      data.Length == LEN_MAX && len <= LEN_MAX
    }

    function Held(): Bytes
      requires Valid()
      reads this, data
    {
      data[..len]
    }

    /** sample_debug_create: the buffer always has the largest size, and a first sample is generated. */
    constructor Create<S(!new)>(p: Prng<S>)
      modifies p
      ensures Valid() && fresh(data) && Held() == Content(p.d, old(p.state)) && p.state == Beyond(p.d, old(p.state))
    {
      data := new Byte[LEN_MAX](_ => 0);
      len := 0;
      new;
      Init(p);
    }

    method StoreWord(i: nat, w: Word)
      requires WORD_SIZE * i + WORD_SIZE <= data.Length
      modifies data
      ensures data[..] == old(data[..WORD_SIZE * i]) + BytesOf(w) + old(data[WORD_SIZE * i + WORD_SIZE..])
    {
      var b := BytesOf(w);
      hide BytesOf;
      for k := 0 to WORD_SIZE
        invariant data[..WORD_SIZE * i] == old(data[..WORD_SIZE * i])
        invariant data[WORD_SIZE * i..WORD_SIZE * i + k] == b[..k]
        invariant data[WORD_SIZE * i + k..] == old(data[WORD_SIZE * i + k..])
      {
        data[WORD_SIZE * i + k] := b[k];
      }
    }

    /** S->data[i] = prng_next( P ), as word i of the sample generated from s. */
    method FillWord<S(!new)>(p: Prng<S>, i: nat, ghost s: S)
      requires WORD_SIZE * i + WORD_SIZE <= data.Length
      requires data[..WORD_SIZE * i] == Drawn(p.d, s, i) && p.state == After(p.d, p.d.next(s).0, i)
      modifies data, p
      ensures data[..WORD_SIZE * (i + 1)] == Drawn(p.d, s, i + 1) && p.state == After(p.d, p.d.next(s).0, i + 1)
    {
      DrawnNext(p.d, s, i);
      var w := p.Draw();
      StoreWord(i, w);
      assert data[..WORD_SIZE * (i + 1)] == data[..][..WORD_SIZE * (i + 1)];
    }

    method FillWords<S(!new)>(p: Prng<S>, words: nat, ghost s: S)
      requires WORD_SIZE * words <= data.Length && p.state == p.d.next(s).0
      modifies data, p
      ensures data[..WORD_SIZE * words] == Drawn(p.d, s, words) && p.state == After(p.d, p.d.next(s).0, words)
    {
      for i := 0 to words
        invariant data[..WORD_SIZE * i] == Drawn(p.d, s, i) && p.state == After(p.d, p.d.next(s).0, i)
      {
        FillWord(p, i, s);
      }
    }

    /** sample_debug_init */
    method Init<S(!new)>(p: Prng<S>)
      requires Valid()
      modifies this`len, data, p
      ensures Valid() && Held() == Content(p.d, old(p.state)) && len == LenFrom(p.d, old(p.state))
      ensures p.state == Beyond(p.d, old(p.state))
      ensures forall i :: 0 <= i < len ==> Held()[i] == ByteOf(Output(p.d, old(p.state), 1 + i / 4), i % 4)
    {
      ghost var s := p.state;
      var first := p.Draw();
      len := LenOf(first);
      var words, remain := len / WORD_SIZE, len % WORD_SIZE;
      ContentWords(p.d, s);
      ContentBytes(p.d, s);
      hide Drawn, After, LenOf, WordsFor, ByteOf, Output;
      FillWords(p, words, s);
      if remain != 0 {
        FillWord(p, words, s);
      }
    }

    /** sample_debug_read */
    method Read(bytes: Bytes)
      requires Valid() && |bytes| <= LEN_MAX
      modifies this`len, data
      ensures Valid() && Held() == bytes
      ensures data[|bytes|..] == old(data[|bytes|..])
    {
      len := |bytes|;
      for k := 0 to |bytes|
        invariant len == |bytes| && data[..k] == bytes[..k] && data[|bytes|..] == old(data[|bytes|..])
      {
        data[k] := bytes[k];
      }
    }

    /** The comparison of word i with prng_next( P ). */
    method CheckWord<S(!new)>(p: Prng<S>, i: nat, ghost s: S) returns (ok: bool)
      requires WORD_SIZE * i + WORD_SIZE <= data.Length
      requires data[..WORD_SIZE * i] == Drawn(p.d, s, i) && p.state == After(p.d, p.d.next(s).0, i)
      modifies p
      ensures ok <==> data[..WORD_SIZE * (i + 1)] == Drawn(p.d, s, i + 1)
      ensures p.state == After(p.d, p.d.next(s).0, i + 1)
    {
      DrawnNext(p.d, s, i);
      var w := p.Draw();
      var bytes := data[WORD_SIZE * i..WORD_SIZE * i + WORD_SIZE];
      WordBytes(w);
      BytesWord(bytes);
      ok := w == WordOf(bytes);
      assert data[..WORD_SIZE * (i + 1)] == Drawn(p.d, s, i) + bytes;
      assert data[..WORD_SIZE * (i + 1)][WORD_SIZE * i..] == bytes;
      assert Drawn(p.d, s, i + 1)[WORD_SIZE * i..] == BytesOf(w);
    }

    /** The comparison of the whole words, up to the first that differs. */
    method CheckWords<S(!new)>(p: Prng<S>, words: nat, ghost s: S) returns (ok: bool)
      requires WORD_SIZE * words <= data.Length && p.state == p.d.next(s).0
      modifies p
      ensures ok <==> data[..WORD_SIZE * words] == Drawn(p.d, s, words)
      ensures ok ==> p.state == After(p.d, p.d.next(s).0, words)
    {
      for i := 0 to words
        invariant data[..WORD_SIZE * i] == Drawn(p.d, s, i) && p.state == After(p.d, p.d.next(s).0, i)
      {
        ok := CheckWord(p, i, s);
        if !ok {
          DrawnPrefix(p.d, s, i + 1, words);
          assert data[..WORD_SIZE * words][..WORD_SIZE * (i + 1)] == data[..WORD_SIZE * (i + 1)];
          return;
        }
      }
      ok := true;
    }

    /** memcmp of the bytes of prng_next( P ) with what is left after the whole words. */
    method CheckRemainder<S(!new)>(p: Prng<S>, i: nat, remain: nat, ghost s: S) returns (ok: bool)
      requires WORD_SIZE * i + remain <= data.Length && remain <= WORD_SIZE
      requires data[..WORD_SIZE * i] == Drawn(p.d, s, i) && p.state == After(p.d, p.d.next(s).0, i)
      modifies p
      ensures ok <==> data[..WORD_SIZE * i + remain] == Drawn(p.d, s, i + 1)[..WORD_SIZE * i + remain]
      ensures p.state == After(p.d, p.d.next(s).0, i + 1)
    {
      DrawnNext(p.d, s, i);
      var w := p.Draw();
      var bytes := data[WORD_SIZE * i..WORD_SIZE * i + remain];
      ok := BytesOf(w)[..remain] == bytes;
      assert data[..WORD_SIZE * i + remain] == Drawn(p.d, s, i) + bytes;
      assert data[..WORD_SIZE * i + remain][WORD_SIZE * i..] == bytes;
      assert Drawn(p.d, s, i + 1)[..WORD_SIZE * i + remain][WORD_SIZE * i..] == BytesOf(w)[..remain];
    }

    /**
     * sample_debug_valid: true exactly when the bytes held, and their number, are those the PRNG generates from its
     * state, whatever lies beyond them in the buffer; the PRNG then ends where generating would have left it.
     */
    method Check<S(!new)>(p: Prng<S>) returns (ok: bool)
      requires Valid()
      modifies p
      ensures ok <==> Held() == Content(p.d, old(p.state))
      ensures ok ==> p.state == Beyond(p.d, old(p.state))
    {
      ghost var s := p.state;
      var first := p.Draw();
      if len != LenOf(first) {
        return false;
      }
      var words, remain := len / WORD_SIZE, len % WORD_SIZE;
      ContentWords(p.d, s);
      hide Drawn, After, LenOf, WordsFor;
      assert Held()[..WORD_SIZE * words] == data[..WORD_SIZE * words];
      ok := CheckWords(p, words, s);
      if ok && remain != 0 {
        ok := CheckRemainder(p, words, remain, s);
      }
    }
  }
}
