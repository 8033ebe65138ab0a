/** Injective maps on finite sets return to where they started. */
module Orbits {

  function Iterate<T>(f: T -> T, x: T, k: nat): T {
    if k == 0 then x else f(Iterate(f, x, k - 1))
  }

  ghost predicate Permutes<T(!new)>(f: T -> T, s: set<T>) {
    && (forall x :: x in s ==> f(x) in s)
    && (forall x, y :: x in s && y in s && f(x) == f(y) ==> x == y)
  }

  lemma {:induction false} IterateStays<T(!new)>(f: T -> T, s: set<T>, x: T, k: nat)
    requires Permutes(f, s) && x in s
    ensures Iterate(f, x, k) in s
  {
    if k > 0 {
      IterateStays(f, s, x, k - 1);
    }
  }

  /** Equal iterates stay equal when both are taken back the same number of steps. */
  lemma {:induction false} CancelSteps<T(!new)>(f: T -> T, s: set<T>, x: T, i: nat, j: nat)
    requires Permutes(f, s) && x in s && i <= j
    requires Iterate(f, x, i) == Iterate(f, x, j)
    ensures Iterate(f, x, j - i) == x
    decreases i
  {
    if i > 0 {
      IterateStays(f, s, x, i - 1);
      IterateStays(f, s, x, j - 1);
      CancelSteps(f, s, x, i - 1, j - 1);
    }
  }

  ghost predicate Visited<T(!new)>(f: T -> T, x: T, k: nat, z: T) {
    exists m: nat :: m < k && Iterate(f, x, m) == z
  }

  /** Among |s| + 1 iterates two agree. */
  lemma {:induction false} FirstRepetition<T(!new)>(f: T -> T, s: set<T>, x: T, seen: set<T>, k: nat)
    returns (i: nat, j: nat)
    requires Permutes(f, s) && x in s
    requires seen <= s && |seen| == k
    requires forall z :: z in seen ==> Visited(f, x, k, z)
    ensures i < j <= |s| && Iterate(f, x, i) == Iterate(f, x, j)
    decreases |s| - k
  {
    SubsetSize(seen, s);
    var y := Iterate(f, x, k);
    IterateStays(f, s, x, k);
    if y in seen {
      i :| i < k && Iterate(f, x, i) == y;
      j := k;
    } else {
      forall z | z in seen + {y} ensures Visited(f, x, k + 1, z) {
        if z in seen {
          var m: nat :| m < k && Iterate(f, x, m) == z;
        }
      }
      SubsetSize(seen + {y}, s);
      i, j := FirstRepetition(f, s, x, seen + {y}, k + 1);
    }
  }

  lemma {:induction false} SubsetSize<T>(a: set<T>, b: set<T>)
    requires a <= b
    ensures |a| <= |b|
  {
    if a != {} {
      var x :| x in a;
      SubsetSize(a - {x}, b - {x});
    }
  }

  lemma ReturnsToStart<T(!new)>(f: T -> T, s: set<T>, x: T) returns (k: nat)
    requires Permutes(f, s) && x in s
    ensures 0 < k <= |s| && Iterate(f, x, k) == x
  {
    var i, j := FirstRepetition(f, s, x, {}, 0);
    CancelSteps(f, s, x, i, j);
    k := j - i;
  }
}
