/** Facts about ring indices and about sums over a sequence of processes. */
module Arith {

  lemma Multiple(d: int, n: int)
    requires 0 <= n
    ensures d >= 1 ==> d * n >= n
    ensures d <= -1 ==> d * n <= -n
  {
  }

  /** The remainder is the only one of its kind. */
  lemma ModUnique(x: int, n: int, q: int, r: int)
    requires 0 <= r < n
    requires x == q * n + r
    ensures x % n == r
  {
    Multiple(x / n - q, n);
    assert (x / n - q) * n == r - x % n;
  }

  lemma ModStep(x: nat, n: nat)
    requires 0 < n
    ensures (x + 1) % n == if x % n == n - 1 then 0 else x % n + 1
  {
    var q := x / n;
    assert x == q * n + x % n;
    if x % n == n - 1 {
      assert x + 1 == (q + 1) * n + 0;
      ModUnique(x + 1, n, q + 1, 0);
    } else {
      ModUnique(x + 1, n, q, x % n + 1);
    }
  }

  lemma ModAddN(x: nat, n: nat)
    requires 0 < n
    ensures (x + n) % n == x % n
  {
    assert x + n == (x / n + 1) * n + x % n;
    ModUnique(x + n, n, x / n + 1, x % n);
  }

  lemma ModSmall(x: nat, n: nat)
    requires x < n
    ensures x % n == x
  {
    ModUnique(x, n, 0, x);
  }

  /** Positions less than one lap apart use different slots. */
  lemma SlotsDiffer(i: nat, j: nat, n: nat)
    requires i < j < i + n
    ensures i % n != j % n
  {
    Multiple(j / n - i / n, n);
    assert (j / n - i / n) * n == (j - j % n) - (i - i % n);
  }

  /** Adding less than one lap moves the slot forward, with at most one wrap. */
  lemma ModAdd(x: nat, k: nat, n: nat)
    requires k <= n && 0 < n
    ensures (x + k) % n == if x % n + k < n then x % n + k else x % n + k - n
  {
    var q := x / n;
    assert x == q * n + x % n;
    if x % n + k < n {
      ModUnique(x + k, n, q, x % n + k);
    } else if x % n + k < 2 * n {
      assert x + k == (q + 1) * n + (x % n + k - n);
      ModUnique(x + k, n, q + 1, x % n + k - n);
    }
  }

  /** Sum of f over a sequence. */
  function Tally<T>(s: seq<T>, f: T -> nat): nat
  {
    if s == [] then 0 else Tally(s[..|s| - 1], f) + f(s[|s| - 1])
  }

  lemma {:induction false} TallyUpdate<T>(s: seq<T>, i: nat, x: T, f: T -> nat)
    requires i < |s|
    ensures Tally(s[i := x], f) + f(s[i]) == Tally(s, f) + f(x)
  {
    var k := |s| - 1;
    if i == k {
      assert s[i := x][..k] == s[..k];
    } else {
      assert s[i := x][..k] == s[..k][i := x];
      TallyUpdate(s[..k], i, x, f);
    }
  }

  /** A constant summand. */
  lemma {:induction false} TallyConst<T>(s: seq<T>, f: T -> nat, c: nat)
    requires forall i :: 0 <= i < |s| ==> f(s[i]) == c
    ensures Tally(s, f) == c * |s|
  {
    if s != [] {
      TallyConst(s[..|s| - 1], f, c);
      assert c * |s| == c * (|s| - 1) + c;
    }
  }

  /** Summands of at most one reach |s| only when every one of them is one. */
  lemma {:induction false} TallyFull<T>(s: seq<T>, f: T -> nat)
    requires forall i :: 0 <= i < |s| ==> f(s[i]) <= 1
    ensures Tally(s, f) <= |s|
    ensures Tally(s, f) == |s| <==> forall i :: 0 <= i < |s| ==> f(s[i]) == 1
  {
    if s != [] {
      var k := |s| - 1;
      TallyFull(s[..k], f);
      assert forall i :: 0 <= i < k ==> s[..k][i] == s[i];
    }
  }

  /** One summand is a lower bound for the sum. */
  lemma {:induction false} TallyAtLeast<T>(s: seq<T>, f: T -> nat, i: nat)
    requires i < |s|
    ensures f(s[i]) <= Tally(s, f)
  {
    if i < |s| - 1 {
      TallyAtLeast(s[..|s| - 1], f, i);
    }
  }
}
