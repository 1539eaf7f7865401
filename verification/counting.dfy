/** Pigeonhole facts about finite sets, sequences and maps. */
module Counting {

  function Least(a: nat, b: nat): nat { if a < b then a else b }

  function Sum(sizes: seq<nat>): nat {
    if sizes == [] then 0 else Sum(sizes[..|sizes| - 1]) + sizes[|sizes| - 1]
  }

  lemma SumNone(sizes: seq<nat>)
    ensures Sum(sizes[..0]) == 0
  {
  }

  lemma SumMore(sizes: seq<nat>, k: nat)
    requires k < |sizes|
    ensures Sum(sizes[..k + 1]) == Sum(sizes[..k]) + sizes[k]
  {
    assert sizes[..k + 1][..k] == sizes[..k];
  }

  lemma {:induction false} SumGrows(sizes: seq<nat>, k: nat)
    requires k <= |sizes|
    ensures Sum(sizes[..k]) <= Sum(sizes)
    decreases |sizes| - k
  {
    if k < |sizes| {
      SumMore(sizes, k);
      SumGrows(sizes, k + 1);
    } else {
      assert sizes[..k] == sizes;
    }
  }

  function Below(n: nat): (r: set<nat>)
    ensures forall x: nat :: x in r <==> x < n
  {
    if n == 0 then {} else Below(n - 1) + {n - 1}
  }

  lemma {:induction false} BelowSize(n: nat)
    ensures |Below(n)| == n
  {
    if n != 0 {
      assert Below(n) == Below(n - 1) + {n - 1};
      BelowSize(n - 1);
    } else {
      assert Below(0) == {};
    }
  }

  lemma {:induction false} SubsetSize<T>(a: set<T>, b: set<T>)
    requires a <= b
    ensures |a| <= |b|
  {
    if a != {} {
      var x :| x in a;
      SubsetSize(a - {x}, b - {x});
    }
  }

  /** What `x` and `y` add to `k`: what `x` adds, and what `y` adds to that. */
  lemma SplitSize<T>(k: set<T>, x: set<T>, y: set<T>)
    ensures k + x + y == k + (x + y) && |(x + y) - k| == |x - k| + |y - (k + x)|
  {
    assert (x + y) - k == (x - k) + (y - (k + x));
  }

  /** A set of naturals below `n` has at most `n` members. */
  lemma SetBound(s: set<nat>, n: nat)
    requires forall x :: x in s ==> x < n
    ensures |s| <= n
  {
    BelowSize(n);
    SubsetSize(s, Below(n));
  }

  lemma {:induction false} DistinctSize<T>(q: seq<T>)
    requires forall i, j :: 0 <= i < j < |q| ==> q[i] != q[j]
    ensures |set x | x in q| == |q|
  {
    if |q| != 0 {
      var init := q[..|q| - 1];
      DistinctSize(init);
      assert (set x | x in q) == (set x | x in init) + {q[|q| - 1]};
      assert q[|q| - 1] !in init;
    }
  }

  /** A set has as many members as a list of them without repetition. */
  lemma ListedSize<T>(s: set<T>, q: seq<T>)
    requires forall i, j :: 0 <= i < j < |q| ==> q[i] != q[j]
    requires forall x :: x in s <==> x in q
    ensures |s| == |q|
  {
    DistinctSize(q);
    assert s == set x | x in q;
  }

  /** Distinct positive numbers below `n` are fewer than `n`. */
  lemma DistinctBelow(q: seq<nat>, n: nat)
    requires n > 0
    requires forall i, j :: 0 <= i < j < |q| ==> q[i] != q[j]
    requires forall i :: 0 <= i < |q| ==> 0 < q[i] < n
    ensures |q| < n
  {
    var s := set x | x in q;
    DistinctSize(q);
    assert 0 !in s;
    SetBound(s + {0}, n);
  }

  lemma {:induction false} InjectiveSize<T>(keys: set<T>, f: T -> nat)
    requires forall x, y :: x in keys && y in keys && x != y ==> f(x) != f(y)
    ensures |set x | x in keys :: f(x)| == |keys|
  {
    if keys != {} {
      var k :| k in keys;
      var rest := keys - {k};
      InjectiveSize(rest, f);
      assert (set x | x in keys :: f(x)) == (set x | x in rest :: f(x)) + {f(k)};
    }
  }

  /** Keys with distinct images below `n` are at most `n`. */
  lemma InjectiveBound<T>(keys: set<T>, f: T -> nat, n: nat)
    requires forall x, y :: x in keys && y in keys && x != y ==> f(x) != f(y)
    requires forall x :: x in keys ==> f(x) < n
    ensures |keys| <= n
  {
    InjectiveSize(keys, f);
    SetBound(set x | x in keys :: f(x), n);
  }
}
