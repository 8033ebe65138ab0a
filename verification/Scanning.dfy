/** Which file names the scan before a removal accepts (storage/storage_dirtree.c, storage/storage_debug.c). */
module Scanning {
  import opened Naming

  const HEX_CHARS := "0123456789abcdefABCDEF"
  const SPACE_CHARS := " \t\n\r\U{0B}\U{0C}"

  predicate AllIn(s: string, chars: string) { forall i :: 0 <= i < |s| ==> s[i] in chars }

  predicate StartsHexPrefix(s: string) { |s| >= 2 && s[0] == '0' && s[1] in "xX" }

  /** Digits, with or without 0x before them, in so many characters. */
  predicate IsNumber(s: string, width: nat) {
    && |s| <= width
    && if StartsHexPrefix(s) then |s| > 2 && AllIn(s[2..], HEX_CHARS) else s != "" && AllIn(s, HEX_CHARS)
  }

  function AfterSign(s: string): string { if s != "" && s[0] in "+-" then s[1..] else s }

  function SignWidth(s: string): nat { |s| - |AfterSign(s)| }

  /** A complete field: a sign or none, and a number, in at most eight characters. */
  predicate IsField(s: string) { IsNumber(AfterSign(s), 8 - SignWidth(s)) }

  /** The beginning of a field, whatever comes after it: a first digit, and one more after a 0x. */
  predicate BeginsField(s: string) {
    var u := AfterSign(s);
    u != "" && u[0] in HEX_CHARS && (StartsHexPrefix(u) ==> |u| > 2 && u[2] in HEX_CHARS)
  }

  lemma CharClasses(c: char)
    ensures IsDigit(c) <==> c in HEX_CHARS
    ensures IsSpace(c) <==> c in SPACE_CHARS
  {
    assert HEX_CHARS[0..] == HEX_CHARS;
  }

  /** The white space that is skipped, and nothing else. */
  lemma {:induction false} SkipsSpace(s: string) returns (i: nat)
    ensures i <= |s| && SkipSpace(s) == s[i..] && AllIn(s[..i], SPACE_CHARS)
    ensures i < |s| ==> !IsSpace(s[i])
  {
    i := 0;
    if s != "" && IsSpace(s[0]) {
      var n := SkipsSpace(s[1..]);
      i := n + 1;
      CharClasses(s[0]);
      assert s[..i] == [s[0]] + s[1..][..n];
    }
  }

  lemma {:induction false} SkipsTo(s: string, i: nat)
    requires i <= |s| && AllIn(s[..i], SPACE_CHARS) && (i < |s| ==> !IsSpace(s[i]))
    ensures SkipSpace(s) == s[i..]
  {
    if i > 0 {
      CharClasses(s[..i][0]);
      assert s[1..][..i - 1] == s[..i][1..];
      SkipsTo(s[1..], i - 1);
    }
  }

  lemma {:induction false} DigitsTo(s: string, w: nat, n: nat)
    requires n <= |s| && n <= w && AllIn(s[..n], HEX_CHARS) && (n == w || n == |s| || !IsDigit(s[n]))
    ensures DigitCount(s, w) == n
  {
    if n > 0 {
      CharClasses(s[..n][0]);
      assert s[1..][..n - 1] == s[..n][1..];
      DigitsTo(s[1..], w - 1, n - 1);
    }
  }

  lemma {:induction false} DigitsAreHex(s: string)
    requires forall i :: 0 <= i < |s| ==> IsDigit(s[i])
    ensures AllIn(s, HEX_CHARS)
  {
    forall i | 0 <= i < |s| ensures s[i] in HEX_CHARS {
      CharClasses(s[i]);
    }
  }

  lemma SignClasses(c: char)
    ensures c in "+-" <==> c == '+' || c == '-'
    ensures c in "xX" <==> c == 'x' || c == 'X'
    ensures c in "+-" || c in HEX_CHARS ==> !IsSpace(c)
    ensures c in "xX" ==> c !in HEX_CHARS
  {
    CharClasses(c);
  }

  /** A conversion succeeds exactly when a field begins after the white space. */
  lemma ScansIff(s: string)
    ensures ScanField(s).Some? <==> BeginsField(SkipSpace(s))
  {
    var t := SkipSpace(s);
    hide HEX_CHARS, SkipSpace, Value;
    if t != "" {
      SignClasses(t[0]);
      var u := AfterSign(t);
      if |u| > 0 {
        CharClasses(u[0]);
      }
      if |u| > 1 {
        SignClasses(u[1]);
      }
      if |u| > 2 {
        CharClasses(u[2]);
      }
    }
  }

  lemma ScanFieldParts(t: string, s: string)
    requires t == SkipSpace(s)
    ensures ScanField(s) == ScanNumber(AfterSign(t), 8 - SignWidth(t), SignWidth(t) == 1 && t[0] == '-')
    ensures SignWidth(t) <= 1
  {
    hide ScanNumber, SkipSpace, HEX_CHARS, SPACE_CHARS, IsSpace;
    if t != "" {
      SignClasses(t[0]);
    }
  }

  /** The number at the start of u that a conversion takes, with n characters. */
  lemma NumberTaken(u: string, w: nat, negative: bool) returns (n: nat)
    requires w == 7 || w == 8
    requires ScanNumber(u, w, negative).Some?
    ensures n <= |u| && IsNumber(u[..n], w) && ScanNumber(u, w, negative).value.1 == u[n..]
  {
    hide Value, IsDigit, HEX_CHARS;
    if |u| > 1 {
      SignClasses(u[1]);
    }
    if HasPrefix(u, w) {
      n := 2 + DigitCount(u[2..], w - 2);
      DigitsAreHex(u[2..][..n - 2]);
      assert u[..n][2..] == u[2..][..n - 2];
    } else {
      n := DigitCount(u, w);
      DigitsAreHex(u[..n]);
      if n > 1 {
        assert u[..n][1] in HEX_CHARS;
      }
    }
  }

  lemma AfterSignTakes(t: string, n: nat)
    requires n <= |AfterSign(t)| && (n > 0 || SignWidth(t) == 1)
    ensures AfterSign(t[..SignWidth(t) + n]) == AfterSign(t)[..n]
  {
    assert t[..SignWidth(t) + n][0] == t[0];
  }

  /** What a conversion has taken is white space and a complete field. */
  lemma FieldTaken(s: string) returns (i: nat, j: nat)
    requires ScanField(s).Some?
    ensures i <= j <= |s| && AllIn(s[..i], SPACE_CHARS) && IsField(s[i..j]) && ScanField(s).value.1 == s[j..]
  {
    hide ScanField, ScanNumber, IsNumber, HEX_CHARS, SPACE_CHARS, SkipSpace, IsSpace, AfterSign;
    i := SkipsSpace(s);
    var t := s[i..];
    ScanFieldParts(t, s);
    var n := NumberTaken(AfterSign(t), 8 - SignWidth(t), SignWidth(t) == 1 && t[0] == '-');
    NumberIsSome(AfterSign(t)[..n], 8 - SignWidth(t));
    AfterSignIs(t);
    AfterSignTakes(t, n);
    j := i + SignWidth(t) + n;
    assert s[i..j] == t[..SignWidth(t) + n];
    assert AfterSign(t)[n..] == s[j..];
  }

  lemma NumberIsSome(s: string, width: nat)
    requires IsNumber(s, width)
    ensures s != ""
  {
  }

  lemma AfterSignIs(t: string)
    ensures |AfterSign(t)| <= |t| && AfterSign(t) == t[SignWidth(t)..]
  {
  }

  lemma NumberTakes(u: string, w: nat, n: nat, negative: bool)
    requires (w == 7 || w == 8) && n < |u| && IsNumber(u[..n], w) && u[n] == '-'
    ensures ScanNumber(u, w, negative).Some? && ScanNumber(u, w, negative).value.1 == u[n..]
  {
    hide Value, HEX_CHARS;
    CharClasses('-');
    SignClasses('-');
    if |u| > 1 {
      SignClasses(u[1]);
    }
    if StartsHexPrefix(u[..n]) {
      assert u[2..][..n - 2] == u[..n][2..];
      DigitsTo(u[2..], w - 2, n - 2);
    } else {
      assert n > 1 ==> u[..n][1] in HEX_CHARS;
      DigitsTo(u, w, n);
    }
  }

  lemma FieldStarts(f: string)
    requires IsField(f)
    ensures f != "" && (f[0] in "+-" || f[0] in HEX_CHARS) && !IsSpace(f[0])
    ensures f[0] in "+-" <==> f[0] == '+' || f[0] == '-'
  {
    hide IsSpace;
    assert f != "";
    SignClasses(f[0]);
  }

  lemma FieldIsNoSpace(f: string)
    requires IsField(f)
    ensures f != "" && !IsSpace(f[0])
  {
    FieldStarts(f);
  }

  lemma AfterSignExtends(f: string, rest: string)
    requires f != ""
    ensures AfterSign(f + rest) == AfterSign(f) + rest && SignWidth(f + rest) == SignWidth(f)
  {
  }

  lemma FieldNumber(f: string, rest: string, negative: bool)
    requires IsField(f) && rest != "" && rest[0] == '-'
    ensures SignWidth(f) <= 1
    ensures ScanNumber(AfterSign(f) + rest, 8 - SignWidth(f), negative).Some?
    ensures ScanNumber(AfterSign(f) + rest, 8 - SignWidth(f), negative).value.1 == rest
  {
    hide ScanNumber, HEX_CHARS, IsNumber;
    var u, n := AfterSign(f) + rest, |AfterSign(f)|;
    assert u[..n] == AfterSign(f) && u[n..] == rest;
    NumberTakes(u, 8 - SignWidth(f), n, negative);
  }

  lemma FieldThenDash(s: string, f: string, rest: string)
    requires SkipSpace(s) == f + rest && IsField(f) && rest != "" && rest[0] == '-'
    ensures ScanField(s).Some? && ScanField(s).value.1 == rest
  {
    hide ScanField, ScanNumber, SkipSpace, HEX_CHARS, IsSpace, IsNumber;
    FieldIsNoSpace(f);
    hide IsField, AfterSign;
    ScanFieldParts(f + rest, s);
    AfterSignExtends(f, rest);
    FieldNumber(f, rest, SignWidth(f + rest) == 1 && (f + rest)[0] == '-');
  }

  lemma SpaceThenField(s: string, i: nat, f: string, rest: string)
    requires i <= |s| && s[i..] == f + rest && AllIn(s[..i], SPACE_CHARS) && IsField(f)
    ensures SkipSpace(s) == f + rest
  {
    hide IsField, SkipSpace, HEX_CHARS, SPACE_CHARS, IsSpace, AllIn;
    FieldIsNoSpace(f);
    assert s[i] == s[i..][0] == f[0];
    SkipsTo(s, i);
  }

  /** A complete field after white space, with a dash behind it, is taken whole. */
  lemma FieldTakes(s: string, i: nat, j: nat)
    requires i <= j < |s| && AllIn(s[..i], SPACE_CHARS) && IsField(s[i..j]) && s[j] == '-'
    ensures ScanField(s).Some? && ScanField(s).value.1 == s[j..]
  {
    hide *;
    assert s[i..] == s[i..j] + s[j..];
    SpaceThenField(s, i, s[i..j], s[j..]);
    FieldThenDash(s, s[i..j], s[j..]);
  }

  lemma BeginsAfterSpace(s: string, n: nat)
    requires n <= |s| && AllIn(s[..n], SPACE_CHARS) && BeginsField(s[n..])
    ensures ScanField(s).Some?
  {
    hide HEX_CHARS, SPACE_CHARS, SkipSpace, IsSpace, ScanField;
    SignClasses(s[n..][0]);
    SkipsTo(s, n);
    ScansIff(s);
  }

  /** A field, a dash at j, and the beginning of another field at k, with white space before either or none. */
  predicate Splits(name: string, i: nat, j: nat, k: nat) {
    && i <= j < k <= |name|
    && AllIn(name[..i], SPACE_CHARS) && IsField(name[i..j])
    && name[j] == '-'
    && AllIn(name[j + 1..k], SPACE_CHARS) && BeginsField(name[k..])
  }

  lemma AcceptedSplits(name: string) returns (i: nat, j: nat, k: nat)
    requires ScanName(name).Some?
    ensures Splits(name, i, j, k)
  {
    hide ScanField, IsField, BeginsField, SPACE_CHARS, SkipSpace, IsSpace;
    i, j := FieldTaken(name);
    var rest := name[j + 1..];
    assert name[j..][1..] == rest;
    ScansIff(rest);
    var n := SkipsSpace(rest);
    k := j + 1 + n;
    assert rest[..n] == name[j + 1..k] && rest[n..] == name[k..];
    assert rest[n..] != "" by {
      BeginsNothing();
    }
  }

  lemma BeginsNothing()
    ensures !BeginsField("")
  {
  }

  lemma SplitAccepted(name: string, i: nat, j: nat, k: nat)
    requires Splits(name, i, j, k)
    ensures ScanName(name).Some?
  {
    hide ScanField, IsField, BeginsField, SPACE_CHARS;
    FieldTakes(name, i, j);
    var rest := name[j + 1..];
    assert name[j..][1..] == rest;
    assert rest[..k - j - 1] == name[j + 1..k] && rest[k - j - 1..] == name[k..];
    BeginsAfterSpace(rest, k - j - 1);
  }

  /** The scan accepts exactly the names that split so; any other one makes the cleanup abort. */
  lemma AcceptedIff(name: string)
    ensures ScanName(name).Some? <==> exists i, j, k :: Splits(name, i, j, k)
  {
    hide ScanName, Splits;
    if ScanName(name).Some? {
      var i, j, k := AcceptedSplits(name);
    }
    if i, j, k :| Splits(name, i, j, k) {
      SplitAccepted(name, i, j, k);
    }
  }
}
