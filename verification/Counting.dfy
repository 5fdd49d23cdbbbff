/** Counting facts shared by the other modules. */
module Counting {
  function Pow2(n: nat): nat {
    if n == 0 then 1 else 2 * Pow2(n - 1)
  }

  ghost predicate Distinct<T>(s: seq<T>) {
    forall i, j :: 0 <= i < j < |s| ==> s[i] != s[j]
  }

  /** The `n` numbers from `a` on. */
  ghost function Between(a: int, n: nat): (r: set<int>)
    ensures |r| == n && forall i :: i in r <==> a <= i < a + n
  {
    if n == 0 then {} else Between(a, n - 1) + {a + n - 1}
  }

  /** Distinct elements drawn from a finite set are no more than the set has. */
  lemma {:induction false} Pigeonhole<T>(s: seq<T>, all: set<T>)
    requires Distinct(s) && forall i :: 0 <= i < |s| ==> s[i] in all
    ensures |s| <= |all|
  {
    if |s| > 0 {
      var last := s[|s| - 1];
      Pigeonhole(s[..|s| - 1], all - {last});
      assert |all - {last}| == |all| - 1;
    }
  }

  lemma {:induction false} Subset<T>(a: set<T>, b: set<T>)
    requires a <= b
    ensures |a| <= |b|
  {
    if a != {} {
      var x :| x in a;
      Subset(a - {x}, b - {x});
    }
  }

  lemma {:induction false} Injects<T, U>(a: set<T>, f: T -> U, b: set<U>)
    requires forall x :: x in a ==> f(x) in b
    requires forall x, y :: x in a && y in a && f(x) == f(y) ==> x == y
    ensures |a| <= |b|
  {
    if a != {} {
      var x :| x in a;
      Injects(a - {x}, f, b - {f(x)});
      assert |b - {f(x)}| == |b| - 1;
    }
  }

  /** Index of the first element with property `p`, `|s|` if there is none. */
  function First<T>(s: seq<T>, p: T -> bool): (k: nat)
    ensures k <= |s| && (k < |s| ==> p(s[k])) && forall i :: 0 <= i < k ==> !p(s[i])
  {
    if s == [] then 0
    else
      var k := First(s[..|s| - 1], p);
      if k < |s| - 1 || p(s[|s| - 1]) then k else |s|
  }

  lemma Without<T>(s: seq<T>, k: nat)
    requires k < |s|
    ensures multiset(s[..k] + s[k + 1..]) == multiset(s) - multiset{s[k]} && s[k] in multiset(s)
  {
    assert s == s[..k] + [s[k]] + s[k + 1..];
  }

  lemma Tails<T>(a: seq<T>, b: seq<T>)
    requires a != [] && b != [] && a[0] == b[0] && multiset(a) == multiset(b)
    ensures multiset(a[1..]) == multiset(b[1..])
  {
    assert a == [a[0]] + a[1..] && b == [b[0]] + b[1..];
    assert multiset(a[1..]) == multiset(a) - multiset{a[0]};
    assert multiset(b[1..]) == multiset(b) - multiset{b[0]};
  }

  /** The first element of `a` is in every reordering `b`, and the others are its other elements. */
  lemma TakeOut<T>(a: seq<T>, b: seq<T>) returns (k: nat)
    requires a != [] && multiset(a) == multiset(b)
    ensures k < |b| && b[k] == a[0] && multiset(a[1..]) == multiset(b[..k] + b[k + 1..])
  {
    assert a[0] in multiset(b);
    k :| 0 <= k < |b| && b[k] == a[0];
    Without(b, k);
    assert a == [a[0]] + a[1..];
  }

  /** Moving the last element over element `i` removes element `i`. */
  lemma RemoveAt<T>(s: seq<T>, i: nat)
    requires i < |s|
    ensures multiset(s[i := s[|s| - 1]][..|s| - 1]) == multiset(s) - multiset{s[i]}
  {
    var n := |s| - 1;
    var t := s[i := s[n]][..n];
    if i == n {
      assert s == t + [s[i]];
    } else {
      assert s == s[..i] + [s[i]] + s[i + 1..n] + [s[n]];
      assert t == s[..i] + [s[n]] + s[i + 1..n];
    }
  }
}
