/** Counts and sums over a sequence, which do not depend on its order. */
module Totals {

  function CountIf<T>(s: seq<T>, p: T -> bool): (n: nat)
    ensures n <= |s|
  {
    if s == [] then 0 else CountIf(s[..|s| - 1], p) + if p(s[|s| - 1]) then 1 else 0
  }

  function SumOf<T>(s: seq<T>, f: T -> real): real {
    if s == [] then 0.0 else SumOf(s[..|s| - 1], f) + f(s[|s| - 1])
  }

  lemma {:induction false} SumAgrees<T>(s: seq<T>, f: T -> real, g: T -> real)
    requires forall x <- s :: f(x) == g(x)
    ensures SumOf(s, f) == SumOf(s, g)
  {
    if s != [] {
      assert s[|s| - 1] in s;
      SumAgrees(s[..|s| - 1], f, g);
    }
  }

  function Remove<T>(s: seq<T>, k: nat): (t: seq<T>)
    requires k < |s|
    ensures |t| == |s| - 1
  {
    s[..k] + s[k + 1..]
  }

  lemma RemoveEarlier<T>(s: seq<T>, k: nat)
    requires k < |s| - 1
    ensures Remove(s, k)[..|s| - 2] == Remove(s[..|s| - 1], k) && Remove(s, k)[|s| - 2] == s[|s| - 1]
  {
  }

  lemma RemoveLast<T>(s: seq<T>)
    requires s != []
    ensures Remove(s, |s| - 1) == s[..|s| - 1]
  {
  }

  lemma {:induction false} CountRemoved<T>(s: seq<T>, p: T -> bool, k: nat)
    requires k < |s|
    ensures CountIf(s, p) == CountIf(Remove(s, k), p) + if p(s[k]) then 1 else 0
  {
    if k == |s| - 1 {
      RemoveLast(s);
    } else {
      CountRemoved(s[..|s| - 1], p, k);
      RemoveEarlier(s, k);
    }
  }

  lemma {:induction false} SumRemoved<T>(s: seq<T>, f: T -> real, k: nat)
    requires k < |s|
    ensures SumOf(s, f) == SumOf(Remove(s, k), f) + f(s[k])
  {
    if k == |s| - 1 {
      RemoveLast(s);
    } else {
      SumRemoved(s[..|s| - 1], f, k);
      RemoveEarlier(s, k);
    }
  }

  lemma MultisetRemoved<T>(s: seq<T>, k: nat)
    requires k < |s|
    ensures multiset(s) == multiset(Remove(s, k)) + multiset{s[k]}
  {
    assert s == s[..k] + ([s[k]] + s[k + 1..]);
  }

  /** Where the last element of `a` is in its permutation `b`. */
  lemma FindLast<T>(a: seq<T>, b: seq<T>) returns (k: nat)
    requires a != [] && multiset(a) == multiset(b)
    ensures k < |b| && b[k] == a[|a| - 1] && multiset(a[..|a| - 1]) == multiset(Remove(b, k))
  {
    var n := |a| - 1;
    assert a[n] in multiset(b);
    k :| 0 <= k < |b| && b[k] == a[n];
    MultisetRemoved(b, k);
    MultisetRemoved(a, n);
    RemoveLast(a);
    assert multiset(Remove(b, k)) == multiset(b) - multiset{b[k]};
    assert multiset(a[..n]) == multiset(a) - multiset{a[n]};
  }

  lemma {:induction false} CountPermuted<T>(a: seq<T>, b: seq<T>, p: T -> bool)
    requires multiset(a) == multiset(b)
    ensures CountIf(a, p) == CountIf(b, p)
  {
    if a == [] {
      assert |b| == |multiset(b)| == 0;
    } else {
      var k := FindLast(a, b);
      CountPermuted(a[..|a| - 1], Remove(b, k), p);
      CountRemoved(b, p, k);
    }
  }

  lemma {:induction false} SumPermuted<T>(a: seq<T>, b: seq<T>, f: T -> real)
    requires multiset(a) == multiset(b)
    ensures SumOf(a, f) == SumOf(b, f)
  {
    if a == [] {
      assert |b| == |multiset(b)| == 0;
    } else {
      var k := FindLast(a, b);
      SumPermuted(a[..|a| - 1], Remove(b, k), f);
      SumRemoved(b, f, k);
    }
  }
}
