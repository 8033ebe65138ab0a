/**
 * Object names: formatted with fixed-width hexadecimal and scanned back
 * (storage/storage_dirtree.c, storage/storage_debug.c).
 */
module Naming {
  import opened Common
  import opened Prng

  // ----- sprintf -----

  function HexDigit(d: nat, upper: bool): char
    requires d < 16
  {
    if d < 10 then '0' + d as char else if upper then 'A' + (d - 10) as char else 'a' + (d - 10) as char
  }

  /** "%0wX" or "%0wx": at least w digits. */
  function Hex(v: nat, w: nat, upper: bool): string
    decreases v + w
  {
    if v == 0 && w == 0 then ""
    else Hex(v / 16, if w > 0 then w - 1 else 0, upper) + [HexDigit(v % 16, upper)]
  }

  // ----- sscanf -----

  predicate IsDigit(c: char) { '0' <= c <= '9' || 'A' <= c <= 'F' || 'a' <= c <= 'f' }

  function DigitValue(c: char): nat
    requires IsDigit(c)
  {
    if c <= '9' then (c - '0') as nat else if c <= 'F' then 10 + (c - 'A') as nat else 10 + (c - 'a') as nat
  }

  predicate IsSpace(c: char) { c == ' ' || '\t' <= c <= '\r' }

  function SkipSpace(s: string): string {
    if s != "" && IsSpace(s[0]) then SkipSpace(s[1..]) else s
  }

  /** How many of the first w characters are digits before any that is not. */
  function DigitCount(s: string, w: nat): (k: nat)
    ensures k <= |s| && k <= w
    ensures forall i :: 0 <= i < k ==> IsDigit(s[i])
  {
    if w == 0 || s == "" || !IsDigit(s[0]) then 0 else 1 + DigitCount(s[1..], w - 1)
  }

  function Value(s: string): nat
    requires forall i :: 0 <= i < |s| ==> IsDigit(s[i])
  {
    if s == "" then 0 else 16 * Value(s[..|s| - 1]) + DigitValue(s[|s| - 1])
  }

  /** The digits of a number in a field of at most w characters, and what follows. */
  function ScanDigits(s: string, w: nat, negative: bool): Option<(Word, string)> {
    var k := DigitCount(s, w);
    if k == 0 then None
    else Some((Wrap((if negative then -1 else 1) * Value(s[..k])), s[k..]))
  }

  predicate HasPrefix(s: string, w: nat) { w >= 2 && |s| >= 2 && s[0] == '0' && (s[1] == 'x' || s[1] == 'X') }

  function ScanNumber(s: string, w: nat, negative: bool): Option<(Word, string)> {
    if HasPrefix(s, w) then ScanDigits(s[2..], w - 2, negative) else ScanDigits(s, w, negative)
  }

  /** A conversion "%08X" or "%08x": white space, an optional sign, an optional 0x and digits, eight characters
      at most. */
  function ScanField(s: string): Option<(Word, string)> {
    var t := SkipSpace(s);
    var signed := t != "" && (t[0] == '-' || t[0] == '+');
    var w := if signed then 7 else 8;
    var u := if signed then t[1..] else t;
    ScanNumber(u, w, signed && t[0] == '-')
  }

  /** sscanf( name, "%08X-%08X", .. ) when it converts both fields. */
  function ScanName(name: string): Option<(Word, Word)> {
    var first := ScanField(name);
    if first.None? || first.value.1 == "" || first.value.1[0] != '-' then None
    else
      var second := ScanField(first.value.1[1..]);
      if second.None? then None else Some((first.value.0, second.value.0))
  }

  // ----- Names -----

  datatype Key = Key(client: Word, obj: Word)

  type Path = seq<string>

  function ObjectName(k: Key, upper: bool): string { Hex(k.client, 8, upper) + "-" + Hex(k.obj, 8, upper) }

  /** storage_debug: "%08x-%08x" */
  function FlatName(k: Key): string { ObjectName(k, false) }

  function Low(x: Word): Word { x % 0x1_0000 }

  function High(x: Word): Word { x / 0x1_0000 }

  /** storage_dirtree_pathname: "%04X/%04X/%04X/%08X-%08X", one component an element. */
  function TreePath(k: Key): Path { Parents(k) + [ObjectName(k, true)] }

  /** The three directories of storage_dirtree_pathgen. */
  function Parents(k: Key): Path {
    [Hex(Low(k.client), 4, true), Hex(High(k.client), 4, true), Hex(High(k.obj), 4, true)]
  }

  // ----- Scanning recovers what was formatted -----

  function Power16(w: nat): nat { if w == 0 then 1 else 16 * Power16(w - 1) }

  /** A number below 16^w takes exactly w digits, and they stand for it. */
  lemma {:induction false} HexDigits(v: nat, w: nat, upper: bool)
    requires v < Power16(w)
    ensures |Hex(v, w, upper)| == w
    ensures forall i :: 0 <= i < w ==> IsDigit(Hex(v, w, upper)[i])
    ensures Value(Hex(v, w, upper)) == v
  {
    if w > 0 {
      HexDigits(v / 16, w - 1, upper);
      var s := Hex(v, w, upper);
      assert s[..|s| - 1] == Hex(v / 16, w - 1, upper);
    }
  }

  lemma {:induction false} CountDigits(s: string, w: nat)
    requires w <= |s| && forall i :: 0 <= i < w ==> IsDigit(s[i])
    ensures DigitCount(s, w) == w
  {
    if w > 0 {
      CountDigits(s[1..], w - 1);
    }
  }

  /** A digit is neither white space, nor a sign, nor the x of a prefix. */
  lemma ScanEightDigits(s: string)
    requires |s| >= 8 && forall i :: 0 <= i < 8 ==> IsDigit(s[i])
    ensures ScanField(s) == Some((Wrap(Value(s[..8])), s[8..]))
  {
    assert IsDigit(s[0]) && IsDigit(s[1]);
    CountDigits(s, 8);
  }

  lemma ScanFieldHex(v: Word, upper: bool, rest: string)
    ensures ScanField(Hex(v, 8, upper) + rest) == Some((v, rest))
  {
    hide ScanField;
    assert Power16(8) == WORD_LIMIT;
    HexDigits(v, 8, upper);
    var s := Hex(v, 8, upper) + rest;
    assert s[..8] == Hex(v, 8, upper) && s[8..] == rest;
    ScanEightDigits(s);
  }

  /** The scan in the cleanup accepts every name either driver makes, and recovers both identifiers. */
  lemma ScanObjectName(k: Key, upper: bool)
    ensures ScanName(ObjectName(k, upper)) == Some((k.client, k.obj))
  {
    hide Hex, ScanField;
    var second := Hex(k.obj, 8, upper);
    ScanFieldHex(k.client, upper, "-" + second);
    ScanFieldHex(k.obj, upper, "");
    assert ObjectName(k, upper) == Hex(k.client, 8, upper) + ("-" + second);
    assert ("-" + second)[1..] == second + "";
  }

  /** Different objects have different names and different paths; a path is never a directory's. */
  lemma NamesDiffer(j: Key, k: Key)
    ensures FlatName(j) == FlatName(k) ==> j == k
    ensures TreePath(j) == TreePath(k) ==> j == k
    ensures |TreePath(j)| == 4 && TreePath(j)[..3] == Parents(j)
  {
    hide ScanName, ObjectName;
    ScanObjectName(j, false);
    ScanObjectName(k, false);
    ScanObjectName(j, true);
    ScanObjectName(k, true);
    assert TreePath(j)[3] == ObjectName(j, true) && TreePath(k)[3] == ObjectName(k, true);
  }

  /** Each component of a path fits the buffers: four digits thrice and seventeen characters. */
  lemma NameLengths(k: Key)
    ensures |FlatName(k)| == 17
    ensures forall i :: 0 <= i < 3 ==> |TreePath(k)[i]| == 4
    ensures |TreePath(k)[3]| == 17
  {
    assert Power16(8) == WORD_LIMIT && Power16(4) == 0x1_0000;
    hide Hex, Value, IsDigit, Power16;
    HexDigits(k.client, 8, false);
    HexDigits(k.obj, 8, false);
    HexDigits(k.client, 8, true);
    HexDigits(k.obj, 8, true);
    HexDigits(Low(k.client), 4, true);
    HexDigits(High(k.client), 4, true);
    HexDigits(High(k.obj), 4, true);
  }

  // ----- The characters of names and paths -----

  const UPPER := "0123456789ABCDEF"
  const LOWER := "0123456789abcdef"

  /** The character of a number's digit that stands for 16^place. */
  function DigitAt(v: nat, place: nat, digits: string): char
    requires |digits| == 16
  {
    if place == 0 then digits[v % 16] else DigitAt(v / 16, place - 1, digits)
  }

  lemma {:induction false} HexCharacters(v: nat, w: nat, upper: bool)
    requires v < Power16(w)
    ensures |Hex(v, w, upper)| == w
    ensures forall i :: 0 <= i < w ==> Hex(v, w, upper)[i] == DigitAt(v, w - 1 - i, if upper then UPPER else LOWER)
  {
    if w > 0 {
      HexCharacters(v / 16, w - 1, upper);
    }
  }

  /** A field of so many characters that stands for v and has its digits from this table. */
  ghost predicate Shows(s: string, width: nat, digits: string, v: nat)
    requires |digits| == 16
  {
    && |s| == width
    && (forall i :: 0 <= i < width ==> IsDigit(s[i]) && s[i] == DigitAt(v, width - 1 - i, digits))
    && Value(s) == v
  }

  lemma HexShows(v: nat, w: nat, upper: bool)
    requires v < Power16(w)
    ensures Shows(Hex(v, w, upper), w, if upper then UPPER else LOWER, v)
  {
    hide Hex, Value, IsDigit, DigitAt;
    HexDigits(v, w, upper);
    HexCharacters(v, w, upper);
  }

  /** Two fields of eight digits, with a dash between them. */
  ghost predicate ShowsKey(s: string, digits: string, k: Key)
    requires |digits| == 16
  {
    |s| == 17 && Shows(s[..8], 8, digits, k.client) && s[8] == '-' && Shows(s[9..], 8, digits, k.obj)
  }

  lemma ObjectNameShows(k: Key, upper: bool)
    ensures ShowsKey(ObjectName(k, upper), if upper then UPPER else LOWER, k)
  {
    assert Power16(8) == 0x1_0000_0000;
    HexShows(k.client, 8, upper);
    HexShows(k.obj, 8, upper);
    hide Hex, Shows;
    var s := ObjectName(k, upper);
    assert s[..8] == Hex(k.client, 8, upper) && s[9..] == Hex(k.obj, 8, upper);
  }

  /** What a path says: the low and the high half of the client, the high half of the object, then both in full. */
  lemma PathShows(k: Key)
    ensures |TreePath(k)| == 4
    ensures Shows(TreePath(k)[0], 4, "0123456789ABCDEF", k.client % 65536)
    ensures Shows(TreePath(k)[1], 4, "0123456789ABCDEF", k.client / 65536)
    ensures Shows(TreePath(k)[2], 4, "0123456789ABCDEF", k.obj / 65536)
    ensures ShowsKey(TreePath(k)[3], "0123456789ABCDEF", k)
  {
    assert Power16(4) == 65536;
    hide Hex, Shows, ShowsKey, ObjectName, Power16;
    HexShows(Low(k.client), 4, true);
    HexShows(High(k.client), 4, true);
    HexShows(High(k.obj), 4, true);
    ObjectNameShows(k, true);
  }

  /** What a name in the flat store says. */
  lemma FlatNameShows(k: Key)
    ensures ShowsKey(FlatName(k), "0123456789abcdef", k)
  {
    ObjectNameShows(k, false);
  }
}
