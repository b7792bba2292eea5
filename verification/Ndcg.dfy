/** `ndcg` and the shortlist membership check of the reranking benchmark. */
module Ndcg {
  import opened Rearrangement

  function Power2(n: nat): nat {
    if n == 0 then 1 else 2 * Power2(n - 1)
  }

  function Gain(grade: nat): real {
    (Power2(grade) - 1) as real
  }

  /** The gain of a grade is one less than two to its power. */
  lemma {:induction false} GainDoubles(grade: nat)
    ensures Gain(0) == 0.0 && Gain(grade + 1) == 2.0 * Gain(grade) + 1.0
  {
    assert Power2(grade + 1) == 2 * Power2(grade);
  }

  function Gains(grades: seq<nat>): (r: seq<real>)
    ensures |r| == |grades|
    ensures forall i :: 0 <= i < |r| ==> r[i] == Gain(grades[i])
  {
    seq(|grades|, i requires 0 <= i < |grades| => Gain(grades[i]))
  }

  /** Rank discounts: 1 / log2(rank + 2) in the program, here any positive sequence that does not
      increase. */
  ghost predicate Discount(weights: seq<real>) {
    && (forall i :: 0 <= i < |weights| ==> weights[i] > 0.0)
    && (forall i, j :: 0 <= i <= j < |weights| ==> weights[i] >= weights[j])
  }

  function Top(s: seq<nat>, k: nat): seq<nat> {
    if |s| <= k then s else s[..k]
  }

  function Dcg(grades: seq<nat>, k: nat, weights: seq<real>): real
    requires |grades| <= |weights|
  {
    Dot(Gains(Top(grades, k)), weights)
  }

  function InsertGrade(x: nat, s: seq<nat>): (r: seq<nat>)
    ensures |r| == |s| + 1
  {
    if s == [] || x >= s[0] then [x] + s else [s[0]] + InsertGrade(x, s[1..])
  }

  /** `sorted(ideal, reverse=True)`. */
  function SortGrades(s: seq<nat>): (r: seq<nat>)
    ensures |r| == |s|
  {
    if s == [] then [] else InsertGrade(s[0], SortGrades(s[1..]))
  }

  function Ndcg(grades: seq<nat>, ideal: seq<nat>, k: nat, weights: seq<real>): real
    requires |grades| <= |weights| && |ideal| <= |weights|
  {
    var denominator := Dcg(SortGrades(ideal), k, weights);
    if denominator == 0.0 then 0.0 else Dcg(grades, k, weights) / denominator
  }

  // -------------------------------------------------------------- sorting grades

  predicate FallingGrades(s: seq<nat>) {
    |s| <= 1 || (s[0] >= s[1] && FallingGrades(s[1..]))
  }

  lemma {:induction false} InsertSorts(x: nat, s: seq<nat>)
    requires FallingGrades(s)
    ensures FallingGrades(InsertGrade(x, s))
    ensures multiset(InsertGrade(x, s)) == multiset(s) + multiset{x}
  {
    if s == [] || x >= s[0] {
      assert ([x] + s)[1..] == s;
    } else {
      InsertSorts(x, s[1..]);
      var rest := InsertGrade(x, s[1..]);
      assert ([s[0]] + rest)[1..] == rest;
      TailMultiset(s);
    }
  }

  lemma {:induction false} SortSorts(s: seq<nat>)
    ensures FallingGrades(SortGrades(s)) && multiset(SortGrades(s)) == multiset(s)
  {
    if s != [] {
      SortSorts(s[1..]);
      InsertSorts(s[0], SortGrades(s[1..]));
      TailMultiset(s);
    }
  }

  lemma {:induction false} LargestGradeFirst(s: seq<nat>, g: nat)
    requires FallingGrades(s) && g in s
    ensures g <= s[0]
  {
    if g != s[0] {
      LargestGradeFirst(s[1..], g);
    }
  }

  // -------------------------------------------------------------- gains

  lemma {:induction false} PowerPositive(n: nat)
    ensures Power2(n) >= 1
    ensures n > 0 ==> Power2(n) >= 2
  {
    if n > 0 {
      PowerPositive(n - 1);
    }
  }

  lemma {:induction false} GainMonotone(a: nat, b: nat)
    requires a <= b
    ensures 0.0 <= Gain(a) <= Gain(b)
    ensures a > 0 ==> Gain(a) > 0.0
    decreases b
  {
    PowerPositive(a);
    PowerPositive(b);
    if a < b {
      GainMonotone(a, b - 1);
      PowerPositive(b - 1);
    }
  }

  lemma {:induction false} GainsDescend(s: seq<nat>)
    requires FallingGrades(s)
    ensures Descending(Gains(s))
  {
    if |s| > 1 {
      GainMonotone(s[1], s[0]);
      GainsDescend(s[1..]);
      assert Gains(s)[1..] == Gains(s[1..]);
    }
  }

  lemma {:induction false} GainsNonnegative(s: seq<nat>)
    ensures forall i :: 0 <= i < |s| ==> Gains(s)[i] >= 0.0
  {
    forall i | 0 <= i < |s| ensures Gains(s)[i] >= 0.0 {
      GainMonotone(s[i], s[i]);
    }
  }

  // -------------------------------------------------------------- the cutoff

  /** The first `k` discounts, and nothing after them. */
  function Cut(weights: seq<real>, k: nat): (r: seq<real>)
    ensures |r| == |weights|
    ensures forall i :: 0 <= i < |r| ==> r[i] == if i < k then weights[i] else 0.0
  {
    seq(|weights|, i requires 0 <= i < |weights| => if i < k then weights[i] else 0.0)
  }

  lemma {:induction false} CutFalls(weights: seq<real>, k: nat)
    requires Discount(weights)
    ensures Falling(Cut(weights, k))
    decreases |weights|
  {
    if weights != [] {
      var j := if k == 0 then 0 else k - 1;
      assert Cut(weights, k)[1..] == Cut(weights[1..], j);
      CutFalls(weights[1..], j);
    }
  }

  /** Truncating the list is the same as zeroing the weights past the cut. */
  lemma {:induction false} DcgIsCutDot(grades: seq<nat>, k: nat, weights: seq<real>)
    requires |grades| <= |weights|
    ensures Dcg(grades, k, weights) == Dot(Gains(grades), Cut(weights, k))
    decreases |grades|
  {
    if grades != [] {
      var j := if k == 0 then 0 else k - 1;
      assert Cut(weights, k)[1..] == Cut(weights[1..], j);
      assert Gains(grades)[1..] == Gains(grades[1..]);
      DcgIsCutDot(grades[1..], j, weights[1..]);
      if k > 0 {
        assert Gains(Top(grades, k))[1..] == Gains(Top(grades[1..], j));
      } else {
        assert Top(grades[1..], 0) == [] && Top(grades, 0) == [];
      }
    }
  }

  // -------------------------------------------------------------- the metric

  /** For every order of the labelled grades and every cutoff the metric lies between 0 and 1. */
  lemma {:induction false} NdcgWithinUnit(grades: seq<nat>, ideal: seq<nat>, k: nat, weights: seq<real>)
    requires multiset(grades) == multiset(ideal) && |grades| == |ideal| <= |weights| && Discount(weights)
    ensures 0.0 <= Ndcg(grades, ideal, k, weights) <= 1.0
  {
    var best := SortGrades(ideal);
    var actual, optimum := Dcg(grades, k, weights), Dcg(best, k, weights);
    assert 0.0 <= actual <= optimum by {
      SortSorts(ideal);
      ImagesPermute(grades, Gains(grades), best, Gains(best));
      GainsDescend(best);
      GainsNonnegative(grades);
      CutFalls(weights, k);
      DcgIsCutDot(grades, k, weights);
      DcgIsCutDot(best, k, weights);
      DescendingIsBest(Gains(grades), Gains(best), Cut(weights, k));
      DotNonnegative(Gains(grades), Cut(weights, k));
    }
    RatioWithinUnit(actual, optimum);
  }

  lemma {:induction false} RatioWithinUnit(a: real, b: real)
    requires 0.0 <= a <= b
    ensures b > 0.0 ==> 0.0 <= a / b <= 1.0
  {
    if b > 0.0 {
      assert a / b * b == a;
    }
  }

  /** The descending order scores exactly 1 when some grade is positive and the cutoff admits a
      rank. */
  lemma {:induction false} IdealOrderScoresOne(ideal: seq<nat>, k: nat, weights: seq<real>, g: nat)
    requires |ideal| <= |weights| && Discount(weights)
    requires k > 0 && g in ideal && g > 0
    ensures Ndcg(SortGrades(ideal), ideal, k, weights) == 1.0
  {
    var best := SortGrades(ideal);
    assert Dcg(best, k, weights) > 0.0 by {
      SortSorts(ideal);
      assert g in multiset(best);
      LargestGradeFirst(best, g);
      GainMonotone(best[0], best[0]);
      GainsNonnegative(best);
      CutFalls(weights, k);
      DotNonnegative(Gains(best), Cut(weights, k));
      DcgIsCutDot(best, k, weights);
    }
    RatioOfSelf(Dcg(best, k, weights));
  }

  lemma {:induction false} RatioOfSelf(a: real)
    requires a > 0.0
    ensures a / a == 1.0
  {
    assert a / a * a == a;
  }

  // -------------------------------------------------------------- shortlist membership

  predicate Distinct<T(==)>(s: seq<T>) {
    forall i, j :: 0 <= i < j < |s| ==> s[i] != s[j]
  }

  function Members(s: seq<nat>): set<nat> {
    set x | x in s
  }

  /** The benchmark's check that a reranker kept the shortlist: same length, same members. */
  predicate KeepsMembership(order: seq<nat>, candidates: seq<nat>) {
    |order| == |candidates| && Members(order) == Members(candidates)
  }

  function GradesOf(order: seq<nat>, labels: map<nat, nat>): (r: seq<nat>)
    requires forall i :: 0 <= i < |order| ==> order[i] in labels
    ensures |r| == |order|
    ensures forall i :: 0 <= i < |order| ==> r[i] == labels[order[i]]
  {
    seq(|order|, i requires 0 <= i < |order| => labels[order[i]])
  }

  lemma {:induction false} MembersCount(s: seq<nat>)
    ensures |Members(s)| <= |s|
    ensures Distinct(s) <==> |Members(s)| == |s|
  {
    if s != [] {
      MembersCount(s[1..]);
      assert Members(s) == Members(s[1..]) + {s[0]};
      if s[0] in s[1..] {
        var j :| 0 <= j < |s[1..]| && s[1..][j] == s[0];
        assert s[j + 1] == s[0];
        assert Members(s) == Members(s[1..]);
      } else {
        assert Distinct(s) <==> Distinct(s[1..]) by {
          assert forall i :: 0 <= i < |s[1..]| ==> s[1..][i] == s[i + 1] && s[1..][i] in s[1..];
          assert forall i :: 0 < i < |s| ==> s[i] == s[1..][i - 1];
        }
      }
    }
  }

  lemma {:induction false} DistinctMultiset(s: seq<nat>)
    requires Distinct(s)
    ensures multiset(s) == multiset(Members(s))
  {
    if s != [] {
      DistinctMultiset(s[1..]);
      TailMultiset(s);
      assert s[0] !in s[1..];
      assert Members(s) == Members(s[1..]) + {s[0]};
    }
  }

  /** The check accepts exactly the permutations when the candidates' labels are distinct. */
  lemma {:induction false} MembershipMeansPermutation(order: seq<nat>, candidates: seq<nat>)
    requires Distinct(candidates)
    ensures KeepsMembership(order, candidates) <==> multiset(order) == multiset(candidates)
  {
    if KeepsMembership(order, candidates) {
      MembersCount(order);
      MembersCount(candidates);
      DistinctMultiset(order);
      DistinctMultiset(candidates);
    }
    if multiset(order) == multiset(candidates) {
      assert |multiset(order)| == |multiset(candidates)|;
      forall x ensures x in order <==> x in candidates {
        assert x in order <==> x in multiset(order);
        assert x in candidates <==> x in multiset(candidates);
      }
    }
  }

  /** With distinct labels, every order that passes the check scores between 0 and 1. */
  lemma {:induction false} CheckedOrderWithinUnit(order: seq<nat>, candidates: seq<nat>, keys: seq<nat>,
                                                  labels: map<nat, nat>, k: nat, weights: seq<real>)
    requires Distinct(candidates) && KeepsMembership(order, candidates)
    requires Distinct(keys) && Members(keys) == labels.Keys == Members(candidates)
    requires |order| <= |weights| && |keys| <= |weights| && Discount(weights)
    ensures forall i :: 0 <= i < |order| ==> order[i] in labels
    ensures forall i :: 0 <= i < |keys| ==> keys[i] in labels
    ensures 0.0 <= Ndcg(GradesOf(order, labels), GradesOf(keys, labels), k, weights) <= 1.0
  {
    assert forall i :: 0 <= i < |order| ==> order[i] in Members(order);
    assert forall i :: 0 <= i < |keys| ==> keys[i] in Members(keys);
    MembershipMeansPermutation(order, candidates);
    DistinctMultiset(candidates);
    DistinctMultiset(keys);
    MembersCount(keys);
    MembersCount(candidates);
    ImagesPermute(order, GradesOf(order, labels), keys, GradesOf(keys, labels));
    NdcgWithinUnit(GradesOf(order, labels), GradesOf(keys, labels), k, weights);
  }

  // -------------------------------------------------------------- repeated labels

  function Repeat<T>(x: T, n: nat): (r: seq<T>)
    ensures |r| == n && forall i :: 0 <= i < n ==> r[i] == x
  {
    seq(n, _ => x)
  }

  /** Putting a value that is at least the first in front of a descending list never loses, and gains
      when the value is positive. */
  lemma {:induction false} FrontGains(b: real, t: seq<real>, weights: seq<real>)
    requires Descending([b] + t) && |t| < |weights| && b >= 0.0
    requires forall i :: 0 <= i < |t| ==> t[i] >= 0.0
    requires forall i :: 0 <= i < |weights| ==> weights[i] > 0.0
    ensures Dot([b] + t, weights) >= Dot(t, weights)
    ensures b > 0.0 ==> Dot([b] + t, weights) > Dot(t, weights)
    decreases |t|
  {
    DotCons(b, t, weights);
    NonnegativeProduct(b, weights[0]);
    if t == [] {
      Positive(b, weights[0]);
    } else {
      assert ([b] + t)[1..] == t && ([b] + t)[1] == t[0];
      assert [t[0]] + t[1..] == t;
      FrontGains(t[0], t[1..], weights[1..]);
      DotCons(t[0], t[1..], weights);
      LargerProduct(t[0], b, weights[0]);
    }
  }

  lemma {:induction false} Positive(a: real, w: real)
    requires w > 0.0
    ensures a > 0.0 ==> a * w > 0.0
  {
  }

  lemma {:induction false} LargerProduct(a: real, b: real, w: real)
    requires a <= b && w > 0.0
    ensures a * w <= b * w && (a < b ==> a * w < b * w)
  {
    NonnegativeProduct(b - a, w);
    Positive(b - a, w);
    assert (b - a) * w == b * w - a * w;
  }

  /** Repeating the largest positive value in front of a descending list gains. */
  lemma {:induction false} CopiesGain(b: real, n: nat, s: seq<real>, weights: seq<real>)
    requires s != [] && s[0] == b > 0.0 && Descending(s) && n + |s| <= |weights|
    requires forall i :: 0 <= i < |s| ==> s[i] >= 0.0
    requires forall i :: 0 <= i < |weights| ==> weights[i] > 0.0
    ensures Descending(Repeat(b, n) + s) && (Repeat(b, n) + s)[0] == b
    ensures Dot(Repeat(b, n) + s, weights) >= Dot(s, weights)
    ensures n > 0 ==> Dot(Repeat(b, n) + s, weights) > Dot(s, weights)
    decreases n
  {
    if n == 0 {
      assert Repeat(b, n) + s == s;
    } else {
      var rest := Repeat(b, n - 1) + s;
      CopiesGain(b, n - 1, s, weights);
      assert Repeat(b, n) + s == [b] + rest;
      assert ([b] + rest)[1..] == rest;
      FrontGains(b, rest, weights);
    }
  }

  function InsertLabel(x: nat, s: seq<nat>, labels: map<nat, nat>): (r: seq<nat>)
    requires x in labels && forall i :: 0 <= i < |s| ==> s[i] in labels
    ensures multiset(r) == multiset(s) + multiset{x}
    ensures forall i :: 0 <= i < |r| ==> r[i] in labels
  {
    if s == [] || labels[x] >= labels[s[0]] then [x] + s
    else
      TailMultiset(s);
      [s[0]] + InsertLabel(x, s[1..], labels)
  }

  lemma {:induction false} InsertLabelGrades(x: nat, s: seq<nat>, labels: map<nat, nat>)
    requires x in labels && forall i :: 0 <= i < |s| ==> s[i] in labels
    ensures GradesOf(InsertLabel(x, s, labels), labels) == InsertGrade(labels[x], GradesOf(s, labels))
    decreases |s|
  {
    if s == [] || labels[x] >= labels[s[0]] {
      assert GradesOf([x] + s, labels) == [labels[x]] + GradesOf(s, labels);
    } else {
      InsertLabelGrades(x, s[1..], labels);
      assert GradesOf(s, labels)[1..] == GradesOf(s[1..], labels);
    }
  }

  /** The labels can be put in the order of their sorted grades. */
  lemma {:induction false} SortLabels(keys: seq<nat>, labels: map<nat, nat>) returns (sorted: seq<nat>)
    requires forall i :: 0 <= i < |keys| ==> keys[i] in labels
    ensures multiset(sorted) == multiset(keys)
    ensures forall i :: 0 <= i < |sorted| ==> sorted[i] in labels
    ensures GradesOf(sorted, labels) == SortGrades(GradesOf(keys, labels))
    decreases |keys|
  {
    if keys == [] {
      sorted := [];
    } else {
      var rest := SortLabels(keys[1..], labels);
      sorted := InsertLabel(keys[0], rest, labels);
      InsertLabelGrades(keys[0], rest, labels);
      assert GradesOf(keys, labels)[1..] == GradesOf(keys[1..], labels);
      TailMultiset(keys);
    }
  }

  lemma {:induction false} DcgOfAll(grades: seq<nat>, k: nat, weights: seq<real>)
    requires |grades| <= k && |grades| <= |weights|
    ensures Dcg(grades, k, weights) == Dot(Gains(grades), weights)
  {
  }

  lemma {:induction false} AboveOne(a: real, b: real)
    requires a > b > 0.0
    ensures a / b > 1.0
  {
    assert a / b * b == a;
    if a / b <= 1.0 {
      LargerProduct(a / b, 1.0, b);
    }
  }

  /** The best label repeated in front of the sorted labels scores above 1 at full length. */
  lemma {:induction false} PaddedScoresAboveOne(padded: seq<nat>, ideal: seq<nat>, n: nat, weights: seq<real>)
    requires n > 0 && ideal != [] && FallingGrades(SortGrades(ideal)) && SortGrades(ideal)[0] > 0
    requires padded == Repeat(SortGrades(ideal)[0], n) + SortGrades(ideal)
    requires |padded| <= |weights| && Discount(weights)
    ensures Ndcg(padded, ideal, |padded|, weights) > 1.0
  {
    var best := SortGrades(ideal);
    GainsDescend(best);
    GainsNonnegative(best);
    GainMonotone(best[0], best[0]);
    assert Gains(padded) == Repeat(Gain(best[0]), n) + Gains(best);
    CopiesGain(Gain(best[0]), n, Gains(best), weights);
    DcgOfAll(padded, |padded|, weights);
    DcgOfAll(best, |padded|, weights);
    assert Dot(Gains(best), weights) > 0.0 by {
      assert [Gains(best)[0]] + Gains(best)[1..] == Gains(best);
      DotCons(Gains(best)[0], Gains(best)[1..], weights);
      Positive(Gains(best)[0], weights[0]);
      DotTailNonnegative(Gains(best)[1..], weights[1..]);
    }
    AboveOne(Dot(Gains(padded), weights), Dot(Gains(best), weights));
  }

  lemma {:induction false} DotTailNonnegative(values: seq<real>, weights: seq<real>)
    requires |values| <= |weights|
    requires forall i :: 0 <= i < |values| ==> values[i] >= 0.0
    requires forall i :: 0 <= i < |weights| ==> weights[i] > 0.0
    ensures Dot(values, weights) >= 0.0
    decreases |values|
  {
    if values != [] {
      assert [values[0]] + values[1..] == values;
      DotCons(values[0], values[1..], weights);
      NonnegativeProduct(values[0], weights[0]);
      DotTailNonnegative(values[1..], weights[1..]);
    }
  }

  // -------------------------------------------------------------- the exact condition

  /** One grade per label, and a label for every candidate. */
  ghost predicate Labelled(candidates: seq<nat>, keys: seq<nat>, labels: map<nat, nat>) {
    Distinct(keys) && Members(keys) == labels.Keys == Members(candidates)
  }

  lemma {:induction false} AllLabelled(s: seq<nat>, labels: map<nat, nat>)
    requires Members(s) == labels.Keys
    ensures forall i :: 0 <= i < |s| ==> s[i] in labels
  {
    assert forall i :: 0 <= i < |s| ==> s[i] in Members(s);
  }

  /** Every order the check accepts scores at most 1, at every cutoff. */
  ghost predicate AcceptedWithinOne(candidates: seq<nat>, keys: seq<nat>, labels: map<nat, nat>, weights: seq<real>)
    requires Labelled(candidates, keys, labels) && |candidates| <= |weights| && |keys| <= |weights|
  {
    forall order, k: nat :: KeepsMembership(order, candidates) ==>
      Score(order, keys, labels, k, weights) <= 1.0
  }

  /** What `ranking_metrics` reports for an order: its grades against one grade per label. */
  function Score(order: seq<nat>, keys: seq<nat>, labels: map<nat, nat>, k: nat, weights: seq<real>): real
    requires Members(order) == labels.Keys == Members(keys) && |order| <= |weights| && |keys| <= |weights|
  {
    AllLabelled(order, labels);
    AllLabelled(keys, labels);
    Ndcg(GradesOf(order, labels), GradesOf(keys, labels), k, weights)
  }

  ghost predicate AllZero(labels: map<nat, nat>) {
    forall x :: x in labels ==> labels[x] == 0
  }

  lemma {:induction false} ZeroGradesScoreZero(grades: seq<nat>, ideal: seq<nat>, k: nat, weights: seq<real>)
    requires |grades| <= |weights| && |ideal| <= |weights|
    requires forall i :: 0 <= i < |ideal| ==> ideal[i] == 0
    ensures Ndcg(grades, ideal, k, weights) == 0.0
  {
    var best := SortGrades(ideal);
    SortSorts(ideal);
    forall i | 0 <= i < |best|
      ensures best[i] == 0
    {
      assert best[i] in multiset(best);
      assert best[i] in ideal;
    }
    DotOfZeros(Gains(Top(best, k)), weights);
  }

  lemma {:induction false} DotOfZeros(values: seq<real>, weights: seq<real>)
    requires |values| <= |weights| && forall i :: 0 <= i < |values| ==> values[i] == 0.0
    ensures Dot(values, weights) == 0.0
    decreases |values|
  {
    if values != [] {
      DotOfZeros(values[1..], weights[1..]);
    }
  }

  lemma {:induction false} BestGradePositive(keys: seq<nat>, labels: map<nat, nat>)
    requires forall i :: 0 <= i < |keys| ==> keys[i] in labels
    requires Members(keys) == labels.Keys && !AllZero(labels)
    ensures var best := SortGrades(GradesOf(keys, labels));
            best != [] && FallingGrades(best) && best[0] > 0
  {
    var ideal := GradesOf(keys, labels);
    var x :| x in labels && labels[x] != 0;
    assert x in Members(keys);
    var p :| 0 <= p < |keys| && keys[p] == x;
    assert ideal[p] == labels[x];
    SortSorts(ideal);
    assert labels[x] in multiset(SortGrades(ideal));
    LargestGradeFirst(SortGrades(ideal), labels[x]);
  }

  lemma {:induction false} SameMembers(a: seq<nat>, b: seq<nat>)
    requires multiset(a) == multiset(b)
    ensures Members(a) == Members(b) && |a| == |b|
  {
    assert |multiset(a)| == |multiset(b)|;
    forall y
      ensures y in a <==> y in b
    {
      assert y in a <==> y in multiset(a);
      assert y in b <==> y in multiset(b);
    }
  }

  /** The labels from best to worst, after `n` more copies of the best one. */
  lemma {:induction false} PaddedOrder(keys: seq<nat>, labels: map<nat, nat>, n: nat) returns (order: seq<nat>)
    requires keys != [] && forall i :: 0 <= i < |keys| ==> keys[i] in labels
    ensures Members(order) == Members(keys) && |order| == n + |keys|
    ensures forall i :: 0 <= i < |order| ==> order[i] in labels
    ensures var best := SortGrades(GradesOf(keys, labels));
            GradesOf(order, labels) == Repeat(best[0], n) + best
  {
    var sorted := SortLabels(keys, labels);
    SameMembers(sorted, keys);
    order := Repeat(sorted[0], n) + sorted;
    PaddedLabels(order, sorted, n);
    forall i | 0 <= i < |order|
      ensures order[i] in labels
    {
      assert order[i] in Members(keys);
    }
  }

  /** The accepted order that breaks the bound. */
  lemma {:induction false} BreakingOrder(candidates: seq<nat>, keys: seq<nat>, labels: map<nat, nat>,
                                         weights: seq<real>)
    returns (order: seq<nat>)
    requires Labelled(candidates, keys, labels) && |candidates| <= |weights| && Discount(weights)
    requires !Distinct(candidates) && !AllZero(labels)
    ensures KeepsMembership(order, candidates) && |keys| <= |weights| && Members(order) == labels.Keys
    ensures Score(order, keys, labels, |order|, weights) > 1.0
  {
    AllLabelled(keys, labels);
    BestGradePositive(keys, labels);
    MembersCount(keys);
    MembersCount(candidates);
    var n := |candidates| - |keys|;
    order := PaddedOrder(keys, labels, n);
    PaddedScoresAboveOne(GradesOf(order, labels), GradesOf(keys, labels), n, weights);
  }

  lemma {:induction false} PaddedLabels(order: seq<nat>, sorted: seq<nat>, n: nat)
    requires sorted != [] && order == Repeat(sorted[0], n) + sorted
    ensures Members(order) == Members(sorted)
  {
    forall y
      ensures y in order <==> y in sorted
    {
      assert sorted[0] in sorted;
      if y in sorted {
        var p :| 0 <= p < |sorted| && sorted[p] == y;
        assert order[n + p] == y;
      }
    }
  }

  /** The bound holds for every accepted order exactly when no label is repeated or every grade is 0. */
  lemma {:induction false} BoundIff(candidates: seq<nat>, keys: seq<nat>, labels: map<nat, nat>, weights: seq<real>)
    requires Labelled(candidates, keys, labels) && |candidates| <= |weights| && |keys| <= |weights| && Discount(weights)
    ensures AcceptedWithinOne(candidates, keys, labels, weights) <==> Distinct(candidates) || AllZero(labels)
  {
    if Distinct(candidates) || AllZero(labels) {
      forall order, k: nat | KeepsMembership(order, candidates)
        ensures Score(order, keys, labels, k, weights) <= 1.0
      {
        AllLabelled(order, labels);
        AllLabelled(keys, labels);
        if Distinct(candidates) {
          CheckedOrderWithinUnit(order, candidates, keys, labels, k, weights);
        } else {
          ZeroGradesScoreZero(GradesOf(order, labels), GradesOf(keys, labels), k, weights);
        }
      }
    } else {
      var order := BreakingOrder(candidates, keys, labels, weights);
      assert KeepsMembership(order, candidates);
    }
  }

  /** The check means permutation for every order exactly when no label is repeated or there is only one. */
  ghost predicate ChecksPermutation(candidates: seq<nat>) {
    forall order: seq<nat> :: KeepsMembership(order, candidates) ==> multiset(order) == multiset(candidates)
  }

  ghost predicate OneLabel(candidates: seq<nat>) {
    forall x, y :: x in candidates && y in candidates ==> x == y
  }

  lemma {:induction false} OneLabelOnly(order: seq<nat>, candidates: seq<nat>, x: nat)
    requires KeepsMembership(order, candidates) && forall y :: y in candidates ==> y == x
    ensures order == candidates
  {
    forall i | 0 <= i < |order|
      ensures order[i] == candidates[i]
    {
      assert order[i] in Members(order) && candidates[i] in Members(candidates);
    }
  }

  lemma {:induction false} PermutationIff(candidates: seq<nat>)
    ensures ChecksPermutation(candidates) <==> Distinct(candidates) || OneLabel(candidates)
  {
    if Distinct(candidates) {
      forall order: seq<nat> | KeepsMembership(order, candidates)
        ensures multiset(order) == multiset(candidates)
      {
        MembershipMeansPermutation(order, candidates);
      }
    } else if OneLabel(candidates) {
      forall order: seq<nat> | KeepsMembership(order, candidates)
        ensures multiset(order) == multiset(candidates)
      {
        assert candidates[0] in candidates;
        OneLabelOnly(order, candidates, candidates[0]);
      }
    } else {
      var i, j :| 0 <= i < j < |candidates| && candidates[i] == candidates[j];
      var x, y :| x in candidates && y in candidates && x != y;
      OtherLabelAccepted(candidates, i, j, if x == candidates[i] then y else x);
    }
  }

  /** One of two equal labels can be swapped for a label that occurs elsewhere. */
  lemma {:induction false} OtherLabelAccepted(candidates: seq<nat>, i: nat, j: nat, y: nat)
    requires i < j < |candidates| && candidates[i] == candidates[j] != y && y in candidates
    ensures KeepsMembership(candidates[i := y], candidates)
    ensures multiset(candidates[i := y]) != multiset(candidates)
  {
    var order := candidates[i := y];
    forall z
      ensures z in order <==> z in candidates
    {
      if z in candidates && z != candidates[i] {
        var p :| 0 <= p < |candidates| && candidates[p] == z;
        assert order[p] == z;
      }
      assert order[j] == candidates[i] && order[i] == y;
    }
    assert multiset(order) == multiset(candidates) - multiset{candidates[i]} + multiset{y};
    assert multiset(order)[y] == multiset(candidates)[y] + 1;
  }
}
