/** Ranking metrics and score normalisation (`utils/scoring.py`). */
module Scoring {
  import opened Wrappers

  function ToSet(s: seq<string>): set<string> { set x | x in s }

  /** The ratio of a subset's size to its superset's size lies in [0,1] and is
      1 exactly when the two sets are equal. */
  function Fraction(part: set<string>, whole: set<string>): (r: real)
    requires part <= whole && whole != {}
    ensures r == (|part| as real) / (|whole| as real)
    ensures 0.0 <= r <= 1.0
    ensures r == 1.0 <==> part == whole
  {
    SubsetCardinality(part, whole);
    (|part| as real) / (|whole| as real)
  }

  lemma SubsetCardinality(part: set<string>, whole: set<string>)
    requires part <= whole
    ensures |part| <= |whole|
    ensures |part| == |whole| ==> part == whole
  {
    assert whole == part + (whole - part);
    if part != whole {
      var x :| x in whole - part;
      assert |whole - part| >= 1;
    }
  }

  /** `compute_recall`: the share of the distinct relevant ids that were
      retrieved. */
  function Recall(retrieved: seq<string>, relevant: seq<string>): (r: real)
    ensures 0.0 <= r <= 1.0
    ensures relevant == [] ==> r == 0.0
    ensures relevant != [] ==>
              r == (|ToSet(retrieved) * ToSet(relevant)| as real) / (|ToSet(relevant)| as real)
    ensures relevant != [] ==> (r == 1.0 <==> ToSet(relevant) <= ToSet(retrieved))
  {
    if relevant == [] then 0.0
    else
      assert relevant[0] in ToSet(relevant);
      Fraction(ToSet(retrieved) * ToSet(relevant), ToSet(relevant))
  }

  /** `compute_precision`: the share of the distinct retrieved ids that are
      relevant. */
  function Precision(retrieved: seq<string>, relevant: seq<string>): (r: real)
    ensures 0.0 <= r <= 1.0
    ensures retrieved == [] ==> r == 0.0
    ensures retrieved != [] ==>
              r == (|ToSet(retrieved) * ToSet(relevant)| as real) / (|ToSet(retrieved)| as real)
    ensures retrieved != [] ==> (r == 1.0 <==> ToSet(retrieved) <= ToSet(relevant))
  {
    if retrieved == [] then 0.0
    else
      assert retrieved[0] in ToSet(retrieved);
      Fraction(ToSet(retrieved) * ToSet(relevant), ToSet(retrieved))
  }

  /** Precision is recall with the roles of the two lists swapped. */
  lemma PrecisionIsSwappedRecall(retrieved: seq<string>, relevant: seq<string>)
    ensures Precision(retrieved, relevant) == Recall(relevant, retrieved)
  {
    assert ToSet(retrieved) * ToSet(relevant) == ToSet(relevant) * ToSet(retrieved);
  }

  /** Retrieving more ids never lowers recall. */
  lemma RecallMonotone(retrieved: seq<string>, more: seq<string>, relevant: seq<string>)
    ensures Recall(retrieved, relevant) <= Recall(retrieved + more, relevant)
  {
    if relevant != [] {
      var rel := ToSet(relevant);
      var a := ToSet(retrieved) * rel;
      var b := ToSet(retrieved + more) * rel;
      assert a <= b;
      SubsetCardinality(a, b);
      assert relevant[0] in rel;
      DivMonotone(|a| as real, |b| as real, |rel| as real);
    }
  }

  function Min2(a: real, b: real): real { if a <= b then a else b }

  function Max2(a: real, b: real): real { if a <= b then b else a }

  /** The harmonic mean of two values in [0,1] lies between them, and is 1 only
      when both are 1. */
  lemma HarmonicMeanBounds(p: real, c: real)
    requires 0.0 <= p <= 1.0 && 0.0 <= c <= 1.0 && p + c > 0.0
    ensures var h := 2.0 * (p * c) / (p + c);
      h * (p + c) == 2.0 * (p * c)
      && Min2(p, c) <= h <= Max2(p, c) && (h == 1.0 <==> p == 1.0 && c == 1.0)
  {
    var s := p + c;
    var h := 2.0 * (p * c) / s;
    assert h * s == 2.0 * (p * c);
    assert (h - p) * s == p * (c - p);
    assert (h - c) * s == c * (p - c);
    if p <= c {
      MulSign(p, c - p);
      MulSign(c, c - p);
      SignFromProduct(h - p, s);
      SignFromProduct(c - h, s);
    } else {
      MulSign(p, p - c);
      MulSign(c, p - c);
      SignFromProduct(p - h, s);
      SignFromProduct(h - c, s);
    }
    if h == 1.0 && c == 1.0 {
      assert 2.0 * p == p + 1.0;
    }
  }

  lemma MulSign(a: real, b: real)
    requires a >= 0.0 && b >= 0.0
    ensures a * b >= 0.0
  {
  }

  lemma SignFromProduct(x: real, s: real)
    requires s > 0.0 && x * s >= 0.0
    ensures x >= 0.0
  {
  }

  lemma MulDivCancel(x: real, w: real)
    requires w != 0.0
    ensures (x * w) / w == x
  {
  }

  lemma DivSelf(d: real)
    requires d > 0.0
    ensures d / d == 1.0
  {
  }

  /** The mean of values in [0,1] lies in [0,1] and is 1 only when every value
      is 1. */
  lemma MeanOfUnitValues(xs: seq<real>)
    requires |xs| > 0
    requires forall i :: 0 <= i < |xs| ==> 0.0 <= xs[i] <= 1.0
    ensures 0.0 <= Sum(xs) / (|xs| as real) <= 1.0
    ensures Sum(xs) / (|xs| as real) == 1.0 <==> forall i :: 0 <= i < |xs| ==> xs[i] == 1.0
  {
    SumOfUnitValues(xs);
    var n := |xs| as real;
    DivMonotone(0.0, Sum(xs), n);
    DivMonotone(Sum(xs), n, n);
    DivSelf(n);
    if Sum(xs) / n == 1.0 {
      assert Sum(xs) == (Sum(xs) / n) * n;
    }
  }

  /** `compute_f1`: 0 when precision and recall are both 0, otherwise their
      harmonic mean 2pc / (p + c). */
  function F1(retrieved: seq<string>, relevant: seq<string>): (r: real)
    ensures var p := Precision(retrieved, relevant);
            var c := Recall(retrieved, relevant);
            && 0.0 <= r <= 1.0
            && (p + c == 0.0 ==> r == 0.0)
            && (p + c > 0.0 ==> r == HarmonicMean(p, c))
            && (p + c > 0.0 ==> Min2(p, c) <= r <= Max2(p, c))
            && (r == 1.0 <==> p == 1.0 && c == 1.0)
  {
    var p := Precision(retrieved, relevant);
    var c := Recall(retrieved, relevant);
    if p + c == 0.0 then 0.0
    else
      HarmonicMean(p, c)
  }

  /** 2pc / (p + c) for values in [0,1] that are not both 0. */
  function HarmonicMean(p: real, c: real): (h: real)
    requires 0.0 <= p <= 1.0 && 0.0 <= c <= 1.0 && p + c > 0.0
    ensures h * (p + c) == 2.0 * (p * c)
    ensures Min2(p, c) <= h <= Max2(p, c) && (h == 1.0 <==> p == 1.0 && c == 1.0)
  {
    HarmonicMeanBounds(p, c);
    2.0 * (p * c) / (p + c)
  }

  /** In counts: F1 is twice the number of distinct relevant ids retrieved,
      over the number of distinct retrieved ids plus the number of distinct
      relevant ids. */
  lemma F1FromCounts(retrieved: seq<string>, relevant: seq<string>)
    ensures var h := |ToSet(retrieved) * ToSet(relevant)| as real;
            var n := (|ToSet(retrieved)| + |ToSet(relevant)|) as real;
            F1(retrieved, relevant) == if n == 0.0 then 0.0 else 2.0 * h / n
  {
    var both := ToSet(retrieved) * ToSet(relevant);
    var h := |both| as real;
    var nr := |ToSet(retrieved)| as real;
    var ns := |ToSet(relevant)| as real;
    var p := Precision(retrieved, relevant);
    var c := Recall(retrieved, relevant);
    SubsetCardinality(both, ToSet(retrieved));
    SubsetCardinality(both, ToSet(relevant));
    if retrieved != [] {
      assert retrieved[0] in ToSet(retrieved);
    }
    if relevant != [] {
      assert relevant[0] in ToSet(relevant);
    }
    if h == 0.0 {
      assert p == 0.0 && c == 0.0;
    } else {
      assert retrieved != [] && relevant != [];
      HarmonicOfRatios(h, nr, ns, p, c, F1(retrieved, relevant));
    }
  }

  /** With p = h/a and c = h/b, the harmonic mean of p and c is 2h/(a + b). */
  lemma HarmonicOfRatios(h: real, a: real, b: real, p: real, c: real, r: real)
    requires h > 0.0 && a > 0.0 && b > 0.0
    requires p == h / a && c == h / b && p + c > 0.0
    requires r * (p + c) == 2.0 * (p * c)
    ensures r == 2.0 * h / (a + b)
  {
    assert p * a == h && c * b == h;
    assert (p + c) * (a * b) == h * (a + b) by {
      assert (p + c) * (a * b) == (p * a) * b + (c * b) * a;
    }
    assert 2.0 * (p * c) * (a * b) == 2.0 * h * h by {
      assert (p * c) * (a * b) == (p * a) * (c * b);
    }
    assert r * h * (a + b) == 2.0 * h * h by {
      calc {
        r * h * (a + b);
        r * ((p + c) * (a * b));
        (r * (p + c)) * (a * b);
        2.0 * (p * c) * (a * b);
      }
    }
    assert r * (a + b) == 2.0 * h by {
      CancelFactor(r * (a + b), 2.0 * h, h);
    }
  }

  lemma CancelFactor(x: real, y: real, h: real)
    requires h != 0.0 && x * h == y * h
    ensures x == y
  {
    assert (x - y) * h == 0.0;
  }

  /** Index of the first ranked item that is relevant, or -1. */
  function FirstHit(ranking: seq<string>, relevant: set<string>): (r: int)
    ensures -1 <= r < |ranking|
    ensures r >= 0 ==> ranking[r] in relevant
    ensures forall j :: 0 <= j < |ranking| && (r < 0 || j < r) ==> ranking[j] !in relevant
    decreases |ranking|
  {
    if |ranking| == 0 then -1
    else if ranking[0] in relevant then 0
    else
      var h := FirstHit(ranking[1..], relevant);
      if h < 0 then -1 else h + 1
  }

  /** Reciprocal of the 1-based rank of the first relevant item; 0 when the
      ranking holds none. */
  function ReciprocalRank(ranking: seq<string>, relevant: set<string>): (r: real)
    ensures FirstHit(ranking, relevant) >= 0 ==> r == 1.0 / ((FirstHit(ranking, relevant) + 1) as real)
    ensures 0.0 <= r <= 1.0
    ensures r == 0.0 <==> forall j :: 0 <= j < |ranking| ==> ranking[j] !in relevant
    ensures r == 1.0 <==> |ranking| > 0 && ranking[0] in relevant
  {
    var h := FirstHit(ranking, relevant);
    if h < 0 then 0.0 else 1.0 / ((h + 1) as real)
  }

  function Sum(xs: seq<real>): real
    decreases |xs|
  {
    if |xs| == 0 then 0.0 else xs[0] + Sum(xs[1..])
  }

  /** A sum of values in [0,1] lies in [0, n] and reaches n only when every
      value is 1. */
  lemma {:induction false} SumOfUnitValues(xs: seq<real>)
    requires forall i :: 0 <= i < |xs| ==> 0.0 <= xs[i] <= 1.0
    ensures 0.0 <= Sum(xs) <= |xs| as real
    ensures Sum(xs) == |xs| as real <==> forall i :: 0 <= i < |xs| ==> xs[i] == 1.0
    decreases |xs|
  {
    if |xs| > 0 {
      SumOfUnitValues(xs[1..]);
      if Sum(xs) == |xs| as real {
        forall i | 0 <= i < |xs| ensures xs[i] == 1.0 {
          if i > 0 { assert xs[1..][i - 1] == xs[i]; }
        }
      }
      if forall i :: 0 <= i < |xs| ==> xs[i] == 1.0 {
        assert forall i :: 0 <= i < |xs[1..]| ==> xs[1..][i] == 1.0 by {
          forall i | 0 <= i < |xs[1..]| ensures xs[1..][i] == 1.0 { assert xs[1..][i] == xs[i + 1]; }
        }
      }
    }
  }

  /** `compute_mrr`: the mean reciprocal rank over all rankings. */
  function Mrr(rankings: seq<seq<string>>, relevantItems: seq<string>): (r: real)
    ensures 0.0 <= r <= 1.0
    ensures rankings == [] ==> r == 0.0
    ensures rankings != [] ==>
              r == Sum(ReciprocalRanks(rankings, ToSet(relevantItems))) / (|rankings| as real)
    ensures rankings != [] ==>
              (r == 1.0 <==> forall k :: 0 <= k < |rankings| ==>
                                |rankings[k]| > 0 && rankings[k][0] in ToSet(relevantItems))
  {
    var rel := ToSet(relevantItems);
    var rrs := ReciprocalRanks(rankings, rel);
    if |rrs| == 0 then 0.0
    else
      MeanOfUnitValues(rrs);
      assert forall k :: 0 <= k < |rrs| ==>
               (rrs[k] == 1.0 <==> |rankings[k]| > 0 && rankings[k][0] in rel);
      Sum(rrs) / (|rrs| as real)
  }

  /** The reciprocal rank of every ranking, in order. */
  function ReciprocalRanks(rankings: seq<seq<string>>, relevant: set<string>): (r: seq<real>)
    ensures |r| == |rankings|
    ensures forall k :: 0 <= k < |r| ==> r[k] == ReciprocalRank(rankings[k], relevant)
  {
    seq(|rankings|, k requires 0 <= k < |rankings| => ReciprocalRank(rankings[k], relevant))
  }

  /** With a single ranking, MRR is that ranking's reciprocal rank. */
  lemma MrrSingle(ranking: seq<string>, relevantItems: seq<string>)
    ensures Mrr([ranking], relevantItems) == ReciprocalRank(ranking, ToSet(relevantItems))
  {
    var rrs := ReciprocalRanks([ranking], ToSet(relevantItems));
    assert Sum(rrs) == rrs[0] + Sum(rrs[1..]);
    assert rrs[1..] == [];
  }

  /** A relevant item at 1-based rank k, with no relevant item before it,
      gives reciprocal rank 1/k. */
  lemma ReciprocalRankAt(ranking: seq<string>, relevant: set<string>, k: nat)
    requires k < |ranking| && ranking[k] in relevant
    requires forall j :: 0 <= j < k ==> ranking[j] !in relevant
    ensures ReciprocalRank(ranking, relevant) == 1.0 / ((k + 1) as real)
  {
    var h := FirstHit(ranking, relevant);
    assert h == k;
  }

  function Min(s: seq<real>): (m: real)
    requires |s| > 0
    ensures m in s && forall i :: 0 <= i < |s| ==> m <= s[i]
    decreases |s|
  {
    if |s| == 1 then s[0]
    else
      var m := Min(s[1..]);
      assert forall i :: 1 <= i < |s| ==> s[i] == s[1..][i - 1];
      if s[0] <= m then s[0] else m
  }

  function Max(s: seq<real>): (m: real)
    requires |s| > 0
    ensures m in s && forall i :: 0 <= i < |s| ==> s[i] <= m
    decreases |s|
  {
    if |s| == 1 then s[0]
    else
      var m := Max(s[1..]);
      assert forall i :: 1 <= i < |s| ==> s[i] == s[1..][i - 1];
      if m <= s[0] then s[0] else m
  }

  lemma DivMonotone(a: real, b: real, d: real)
    requires a <= b && d > 0.0
    ensures a / d <= b / d
  {
    assert b / d - a / d == (b - a) / d;
  }

  /** Min-max scaling of one score onto [0,1]. */
  function ScaleOne(x: real, lo: real, hi: real): (r: real)
    requires lo <= x <= hi && lo < hi
    ensures r * (hi - lo) == x - lo
    ensures 0.0 <= r <= 1.0
    ensures x == lo ==> r == 0.0
    ensures x == hi ==> r == 1.0
  {
    DivMonotone(0.0, x - lo, hi - lo);
    DivMonotone(x - lo, hi - lo, hi - lo);
    DivSelf(hi - lo);
    (x - lo) / (hi - lo)
  }

  lemma ScaleOneMonotone(x: real, y: real, lo: real, hi: real)
    requires lo <= x <= y <= hi && lo < hi
    ensures ScaleOne(x, lo, hi) <= ScaleOne(y, lo, hi)
  {
    DivMonotone(x - lo, y - lo, hi - lo);
  }

  /** Min-max scaling onto [0,1] for a strictly positive spread. */
  function Scale(scores: seq<real>, lo: real, hi: real): (r: seq<real>)
    requires lo < hi
    requires forall i :: 0 <= i < |scores| ==> lo <= scores[i] <= hi
    ensures |r| == |scores|
    ensures forall i :: 0 <= i < |r| ==> r[i] == ScaleOne(scores[i], lo, hi)
    ensures forall i, j :: 0 <= i < |r| && 0 <= j < |r| && scores[i] <= scores[j] ==> r[i] <= r[j]
  {
    var r := seq(|scores|, i requires 0 <= i < |scores| => ScaleOne(scores[i], lo, hi));
    assert forall i, j :: 0 <= i < |r| && 0 <= j < |r| && scores[i] <= scores[j] ==> r[i] <= r[j] by {
      forall i, j | 0 <= i < |r| && 0 <= j < |r| && scores[i] <= scores[j] ensures r[i] <= r[j] {
        ScaleOneMonotone(scores[i], scores[j], lo, hi);
      }
    }
    r
  }

  /** `normalize_scores`: min-max normalisation, or all 1.0 for constant
      scores. */
  function NormalizeScores(scores: seq<real>): (r: seq<real>)
    ensures |r| == |scores|
    ensures forall i :: 0 <= i < |r| ==> 0.0 <= r[i] <= 1.0
    ensures |scores| > 0 && Min(scores) == Max(scores) ==> forall i :: 0 <= i < |r| ==> r[i] == 1.0
    ensures |scores| > 0 && Min(scores) < Max(scores) ==>
              forall i :: 0 <= i < |r| ==>
                (scores[i] == Min(scores) ==> r[i] == 0.0) && (scores[i] == Max(scores) ==> r[i] == 1.0)
    ensures |scores| > 0 && Min(scores) < Max(scores) ==>
              forall i :: 0 <= i < |r| ==> r[i] == ScaleOne(scores[i], Min(scores), Max(scores))
    ensures forall i, j :: 0 <= i < |r| && 0 <= j < |r| && scores[i] <= scores[j] ==> r[i] <= r[j]
  {
    if |scores| == 0 then []
    else
      var lo := Min(scores);
      var hi := Max(scores);
      if hi == lo then seq(|scores|, i requires 0 <= i < |scores| => 1.0)
      else
        Scale(scores, lo, hi)
  }

  /** The exceptions `combine_scores` can raise. */
  datatype CombineError =
    | CountMismatch   // the ValueError raised on purpose
    | IndexOutOfRange // a score list shorter than the first one
    | ZeroDivision    // the weights sum to 0

  /** Σ_{j<k} normalized[j][i] * weights[j] */
  function WeightedSum(normalized: seq<seq<real>>, weights: seq<real>, i: nat, k: nat): real
    requires k <= |normalized| && k <= |weights|
    requires forall j :: 0 <= j < k ==> i < |normalized[j]|
    decreases k
  {
    if k == 0 then 0.0
    else WeightedSum(normalized, weights, i, k - 1) + normalized[k - 1][i] * weights[k - 1]
  }

  function SumPrefix(xs: seq<real>, k: nat): real
    requires k <= |xs|
    decreases k
  {
    if k == 0 then 0.0 else SumPrefix(xs, k - 1) + xs[k - 1]
  }

  /** Every score list normalised on its own. */
  function NormalizeAll(scoresList: seq<seq<real>>): (r: seq<seq<real>>)
    ensures |r| == |scoresList|
    ensures forall j :: 0 <= j < |r| ==> r[j] == NormalizeScores(scoresList[j])
  {
    seq(|scoresList|, j requires 0 <= j < |scoresList| => NormalizeScores(scoresList[j]))
  }

  /** Item `i` of the result is the weighted sum of item `i` of every list,
      divided by the weight total. */
  function Combine(normalized: seq<seq<real>>, weights: seq<real>, n: nat, total: real): (r: seq<real>)
    requires |normalized| == |weights| && total != 0.0
    requires forall j :: 0 <= j < |normalized| ==> n <= |normalized[j]|
    ensures |r| == n
    ensures forall i :: 0 <= i < n ==> r[i] == WeightedSum(normalized, weights, i, |weights|) / total
  {
    seq(n, i requires 0 <= i < n => WeightedSum(normalized, weights, i, |weights|) / total)
  }

  /** `combine_scores`: the weighted average of the min-max normalised score
      lists, item by item, or the exception the source raises. */
  function CombineScores(scoresList: seq<seq<real>>, weights: seq<real>): (r: Result<seq<real>, CombineError>)
    ensures scoresList == [] || weights == [] ==> r == Ok([])
    ensures scoresList != [] && weights != [] && |scoresList| != |weights| ==> r == Err(CountMismatch)
    ensures 0 < |scoresList| == |weights| && |scoresList[0]| == 0 ==> r == Ok([])
    ensures r.Ok? && scoresList != [] && weights != [] ==> |r.value| == |scoresList[0]|
    ensures r.Ok? ==> forall i :: 0 <= i < |r.value| ==>
              && |scoresList| == |weights|
              && (forall j :: 0 <= j < |scoresList| ==> i < |scoresList[j]|)
              && SumPrefix(weights, |weights|) != 0.0
              && r.value[i] == WeightedSum(NormalizeAll(scoresList), weights, i, |weights|)
                               / SumPrefix(weights, |weights|)
    ensures r.Err? && r.error == IndexOutOfRange ==>
              exists j :: 0 <= j < |scoresList| && |scoresList[j]| < |scoresList[0]|
    ensures r.Err? && r.error == ZeroDivision ==> SumPrefix(weights, |weights|) == 0.0
    // Item 0 is computed first: an empty list fails its lookup before the
    // division by the weight total is reached.
    ensures 0 < |scoresList| == |weights| && |scoresList[0]| > 0 ==>
              ((exists j :: 0 <= j < |scoresList| && |scoresList[j]| == 0) ==> r == Err(IndexOutOfRange))
    ensures 0 < |scoresList| == |weights| && |scoresList[0]| > 0 ==>
              ((forall j :: 0 <= j < |scoresList| ==> |scoresList[j]| > 0) && SumPrefix(weights, |weights|) == 0.0
               ==> r == Err(ZeroDivision))
    ensures 0 < |scoresList| == |weights| && SumPrefix(weights, |weights|) != 0.0 ==>
              ((exists j :: 0 <= j < |scoresList| && |scoresList[j]| < |scoresList[0]|) ==> r == Err(IndexOutOfRange))
    ensures 0 < |scoresList| == |weights| && SumPrefix(weights, |weights|) != 0.0 ==>
              ((forall j :: 0 <= j < |scoresList| ==> |scoresList[0]| <= |scoresList[j]|) ==> r.Ok?)
  {
    if |scoresList| == 0 || |weights| == 0 then Ok([])
    else if |scoresList| != |weights| then Err(CountMismatch)
    else
      var n := |scoresList[0]|;
      var total := SumPrefix(weights, |weights|);
      if n == 0 then Ok([])
      else if exists j :: 0 <= j < |scoresList| && |scoresList[j]| == 0 then Err(IndexOutOfRange)
      else if total == 0.0 then Err(ZeroDivision)
      else if exists j :: 0 <= j < |scoresList| && |scoresList[j]| < n then Err(IndexOutOfRange)
      else Ok(Combine(NormalizeAll(scoresList), weights, n, total))
  }

  /** With non-negative weights, a weighted sum of values in [0,1] lies
      between 0 and the sum of the weights. */
  lemma {:induction false} WeightedSumBounds(normalized: seq<seq<real>>, weights: seq<real>, i: nat, k: nat)
    requires k <= |normalized| && k <= |weights|
    requires forall j :: 0 <= j < k ==> i < |normalized[j]| && 0.0 <= normalized[j][i] <= 1.0
    requires forall j :: 0 <= j < k ==> weights[j] >= 0.0
    ensures 0.0 <= WeightedSum(normalized, weights, i, k) <= SumPrefix(weights, k)
    decreases k
  {
    if k > 0 {
      WeightedSumBounds(normalized, weights, i, k - 1);
      var v := normalized[k - 1][i];
      var w := weights[k - 1];
      ScaledWithin(v, w);
      assert WeightedSum(normalized, weights, i, k) == WeightedSum(normalized, weights, i, k - 1) + v * w;
      assert SumPrefix(weights, k) == SumPrefix(weights, k - 1) + w;
    }
  }

  lemma ScaledWithin(v: real, w: real)
    requires 0.0 <= v <= 1.0 && w >= 0.0
    ensures 0.0 <= v * w <= w
  {
    assert w - v * w == (1.0 - v) * w;
  }

  lemma CombineInUnitRange(normalized: seq<seq<real>>, weights: seq<real>, n: nat)
    requires |normalized| == |weights| && SumPrefix(weights, |weights|) > 0.0
    requires forall j :: 0 <= j < |weights| ==> weights[j] >= 0.0
    requires forall j :: 0 <= j < |normalized| ==> n <= |normalized[j]|
    requires forall j, i :: 0 <= j < |normalized| && 0 <= i < |normalized[j]| ==> 0.0 <= normalized[j][i] <= 1.0
    ensures var r := Combine(normalized, weights, n, SumPrefix(weights, |weights|));
            forall i :: 0 <= i < |r| ==> 0.0 <= r[i] <= 1.0
  {
    var total := SumPrefix(weights, |weights|);
    var r := Combine(normalized, weights, n, total);
    forall i | 0 <= i < |r| ensures 0.0 <= r[i] <= 1.0 {
      WeightedSumBounds(normalized, weights, i, |weights|);
      var ws := WeightedSum(normalized, weights, i, |weights|);
      DivMonotone(0.0, ws, total);
      DivMonotone(ws, total, total);
      DivSelf(total);
    }
  }

  /** With non-negative weights, every combined score is a convex combination
      of normalised scores, hence lies in [0,1]. */
  lemma CombinedScoresInUnitRange(scoresList: seq<seq<real>>, weights: seq<real>)
    requires forall j :: 0 <= j < |weights| ==> weights[j] >= 0.0
    requires CombineScores(scoresList, weights).Ok?
    ensures forall i :: 0 <= i < |CombineScores(scoresList, weights).value| ==>
              0.0 <= CombineScores(scoresList, weights).value[i] <= 1.0
  {
    if |scoresList| > 0 && |weights| > 0 && |scoresList[0]| > 0 {
      var normalized := NormalizeAll(scoresList);
      var total := SumPrefix(weights, |weights|);
      WeightedSumBounds(normalized, weights, 0, 0);
      assert total >= 0.0 by {
        assert forall j :: 0 <= j < |normalized| ==> 0 < |normalized[j]|;
        assert forall j :: 0 <= j < |normalized| ==> 0.0 <= normalized[j][0] <= 1.0;
        WeightedSumBounds(normalized, weights, 0, |weights|);
      }
      CombineInUnitRange(normalized, weights, |scoresList[0]|);
    }
  }

  lemma CombineOneList(normalized: seq<seq<real>>, w: real)
    requires |normalized| == 1 && w != 0.0
    ensures Combine(normalized, [w], |normalized[0]|, w) == normalized[0]
  {
    var n := |normalized[0]|;
    var r := Combine(normalized, [w], n, w);
    forall i | 0 <= i < n ensures r[i] == normalized[0][i] {
      assert WeightedSum(normalized, [w], i, 1) == normalized[0][i] * w;
      MulDivCancel(normalized[0][i], w);
    }
  }

  /** A single score list with a non-zero weight combines to its own
      normalisation. */
  lemma CombineSingleList(scores: seq<real>, w: real)
    requires w != 0.0 && |scores| > 0
    ensures CombineScores([scores], [w]) == Ok(NormalizeScores(scores))
  {
    var normalized := NormalizeAll([scores]);
    assert SumPrefix([w], 1) == w;
    assert |normalized| == 1 && |normalized[0]| == |scores|;
    assert !(exists j :: 0 <= j < 1 && |[scores][j]| == 0);
    assert !(exists j :: 0 <= j < 1 && |[scores][j]| < |scores|);
    assert CombineScores([scores], [w]) == Ok(Combine(normalized, [w], |scores|, w));
    CombineOneList(normalized, w);
  }
}
