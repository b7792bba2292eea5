/** The rearrangement inequality: of all orders of some values, the descending one has the largest
    product sum with weights that do not rise. */
module Rearrangement {

  function Dot(values: seq<real>, weights: seq<real>): real
    requires |values| <= |weights|
  {
    if values == [] then 0.0 else values[0] * weights[0] + Dot(values[1..], weights[1..])
  }

  predicate Descending(s: seq<real>) {
    |s| <= 1 || (s[0] >= s[1] && Descending(s[1..]))
  }

  /** Weights that never rise or fall below zero. */
  predicate Falling(weights: seq<real>) {
    weights == [] ||
    (weights[0] >= 0.0 && (|weights| > 1 ==> weights[0] >= weights[1]) && Falling(weights[1..]))
  }

  function Without<T>(s: seq<T>, p: nat): seq<T>
    requires p < |s|
  {
    s[..p] + s[p + 1..]
  }

  lemma {:induction false} NonnegativeProduct(a: real, b: real)
    requires a >= 0.0 && b >= 0.0
    ensures a * b >= 0.0
    ensures a > 0.0 && b > 0.0 ==> a * b > 0.0
  {
  }

  lemma {:induction false} DotNonnegative(values: seq<real>, weights: seq<real>)
    requires |values| <= |weights| && Falling(weights)
    requires forall i :: 0 <= i < |values| ==> values[i] >= 0.0
    ensures Dot(values, weights) >= 0.0
    ensures values != [] && values[0] > 0.0 && weights[0] > 0.0 ==> Dot(values, weights) > 0.0
  {
    if values != [] {
      DotNonnegative(values[1..], weights[1..]);
      NonnegativeProduct(values[0], weights[0]);
    }
  }

  /** Exchanging two values so that the larger one takes the larger weight does not lose. */
  lemma {:induction false} Exchange(x: real, y: real, v: real, w: real)
    requires x <= y && v >= w
    ensures x * v + y * w <= y * v + x * w
  {
    NonnegativeProduct(y - x, v - w);
    assert (y - x) * (v - w) == y * v - y * w - x * v + x * w;
  }

  lemma {:induction false} DotCons(x: real, s: seq<real>, weights: seq<real>)
    requires |s| < |weights|
    ensures Dot([x] + s, weights) == x * weights[0] + Dot(s, weights[1..])
  {
    assert ([x] + s)[1..] == s;
  }

  /** Moving a largest value to the front does not lose. */
  lemma {:induction false} MoveToFront(a: seq<real>, weights: seq<real>, p: nat)
    requires p < |a| <= |weights| && Falling(weights)
    requires forall i :: 0 <= i < p ==> a[i] <= a[p]
    ensures Dot(a, weights) <= Dot([a[p]] + Without(a, p), weights)
    decreases p
  {
    if p == 0 {
      assert [a[0]] + Without(a, 0) == a;
    } else {
      var rest := a[1..];
      MoveToFront(rest, weights[1..], p - 1);
      var b := Without(rest, p - 1);
      assert Without(a, p) == [a[0]] + b;
      MoveOnce(a[0], a[p], b, weights);
      assert a == [a[0]] + rest;
      DotCons(a[0], rest, weights);
      DotCons(a[0], [a[p]] + b, weights);
    }
  }

  /** One step of that move: the largest value passes the one before it. */
  lemma {:induction false} MoveOnce(x: real, y: real, b: seq<real>, weights: seq<real>)
    requires x <= y && |b| + 2 <= |weights| && Falling(weights)
    ensures Dot([x] + ([y] + b), weights) <= Dot([y] + ([x] + b), weights)
  {
    DotCons(x, [y] + b, weights);
    DotCons(y, [x] + b, weights);
    DotCons(y, b, weights[1..]);
    DotCons(x, b, weights[1..]);
    Exchange(x, y, weights[0], weights[1..][0]);
  }

  lemma {:induction false} TailMultiset<T>(s: seq<T>)
    requires s != []
    ensures multiset(s) == multiset(s[1..]) + multiset{s[0]}
  {
    assert s == [s[0]] + s[1..];
  }

  lemma {:induction false} WithoutMultiset<T>(s: seq<T>, p: nat)
    requires p < |s|
    ensures multiset(s) == multiset(Without(s, p)) + multiset{s[p]}
  {
    assert s == s[..p] + [s[p]] + s[p + 1..];
  }

  lemma {:induction false} Cancel<T>(x: multiset<T>, y: multiset<T>, e: T)
    requires x + multiset{e} == y + multiset{e}
    ensures x == y
  {
    assert x == (x + multiset{e}) - multiset{e};
    assert y == (y + multiset{e}) - multiset{e};
  }

  lemma {:induction false} HeadIsLargest(s: seq<real>, x: real)
    requires Descending(s) && x in s
    ensures x <= s[0]
  {
    if x != s[0] {
      HeadIsLargest(s[1..], x);
    }
  }

  /** The head of the descending order occurs among the values as a largest one, and removing it
      from both leaves the same values. */
  lemma {:induction false} PickLargest(a: seq<real>, d: seq<real>) returns (p: nat)
    requires multiset(a) == multiset(d) && Descending(d) && d != []
    ensures p < |a| && a[p] == d[0]
    ensures forall i :: 0 <= i < p ==> a[i] <= a[p]
    ensures multiset(Without(a, p)) == multiset(d[1..])
  {
    assert d[0] in multiset(a);
    p :| 0 <= p < |a| && a[p] == d[0];
    forall i | 0 <= i < p ensures a[i] <= a[p] {
      assert a[i] in multiset(d);
      HeadIsLargest(d, a[i]);
    }
    WithoutMultiset(a, p);
    TailMultiset(d);
    Cancel(multiset(Without(a, p)), multiset(d[1..]), d[0]);
  }

  lemma {:induction false} SameHead(x: real, b: seq<real>, c: seq<real>, weights: seq<real>)
    requires |b| < |weights| && |c| < |weights| && Dot(b, weights[1..]) <= Dot(c, weights[1..])
    ensures Dot([x] + b, weights) <= Dot([x] + c, weights)
  {
    DotCons(x, b, weights);
    DotCons(x, c, weights);
  }

  lemma {:induction false} DescendingIsBest(a: seq<real>, d: seq<real>, weights: seq<real>)
    requires multiset(a) == multiset(d) && Descending(d)
    requires |a| == |d| <= |weights| && Falling(weights)
    ensures Dot(a, weights) <= Dot(d, weights)
    decreases |d|
  {
    if d != [] {
      var p := PickLargest(a, d);
      MoveToFront(a, weights, p);
      DescendingIsBest(Without(a, p), d[1..], weights[1..]);
      SameHead(d[0], Without(a, p), d[1..], weights);
      assert d == [d[0]] + d[1..];
    }
  }

  /** When `b` reorders `a`, and `x` and `y` give the same element the same image, `y` reorders
      `x`. */
  lemma {:induction false} ImagesPermute<A, B>(a: seq<A>, x: seq<B>, b: seq<A>, y: seq<B>)
    requires |a| == |x| && |b| == |y| && multiset(a) == multiset(b)
    requires forall i, j :: 0 <= i < |a| && 0 <= j < |b| && a[i] == b[j] ==> x[i] == y[j]
    ensures multiset(x) == multiset(y)
    decreases |a|
  {
    assert |multiset(a)| == |multiset(b)|;
    if a != [] {
      assert a[0] in multiset(b);
      var p :| 0 <= p < |b| && b[p] == a[0];
      assert multiset(a[1..]) == multiset(Without(b, p)) by {
        TailMultiset(a);
        WithoutMultiset(b, p);
        Cancel(multiset(a[1..]), multiset(Without(b, p)), a[0]);
      }
      forall i, j | 0 <= i < |a[1..]| && 0 <= j < |Without(b, p)| && a[1..][i] == Without(b, p)[j]
        ensures x[1..][i] == Without(y, p)[j]
      {
        var k := if j < p then j else j + 1;
        assert Without(b, p)[j] == b[k] && Without(y, p)[j] == y[k];
        assert a[i + 1] == b[k];
      }
      ImagesPermute(a[1..], x[1..], Without(b, p), Without(y, p));
      TailMultiset(x);
      WithoutMultiset(y, p);
    }
  }
}
