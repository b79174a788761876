/** Scoring an answer's simple names against the expected set
    (bench/grade.py, `grade_set_match`).  Floats become exact reals; the name
    extraction itself is a parameter: both name sets are arbitrary. */
module SetMatch {

  datatype Detail = Detail(precision: real, recall: real, f1: real, f2: real)

  function GradeSetMatch<T(==)>(extracted: set<T>, truth: set<T>): Detail {
    Measures(|extracted * truth|, |extracted|, |truth|)
  }

  function Measures(tp: nat, predicted: nat, expected: nat): Detail {
    var precision := if predicted != 0 then tp as real / predicted as real else 0.0;
    var recall := if expected != 0 then tp as real / expected as real else 0.0;
    var denom := precision + recall;
    var f1 := if denom != 0.0 then (2.0 * precision * recall) / denom else 0.0;
    var f2Denom := 4.0 * precision + recall;
    var f2 := if f2Denom != 0.0 then (5.0 * precision * recall) / f2Denom else 0.0;
    Detail(precision, recall, f1, f2)
  }

  // The harmonic mean of p = tp/e and r = tp/t.
  lemma PlainMean(tp: nat, e: nat, t: nat, p: real, r: real)
    requires 0 < tp && 0 < e && 0 < t && p == tp as real / e as real && r == tp as real / t as real
    ensures p + r > 0.0
    ensures (2.0 * p * r) / (p + r) == (2.0 * tp as real) / (t + e) as real
  {
    var k, er, tr := tp as real, e as real, t as real;
    assert p > 0.0 && r > 0.0 && p * er == k && r * tr == k;
    Positive(er, tr);
    assert (p + r) * (er * tr) == k * (tr + er) by {
      assert p * (er * tr) == (p * er) * tr;
      assert r * (er * tr) == (r * tr) * er;
    }
    assert (2.0 * p * r) * (er * tr) == (2.0 * k) * k by {
      assert (2.0 * p * r) * (er * tr) == 2.0 * ((p * er) * (r * tr));
    }
    Ratio(2.0 * p * r, p + r, 2.0 * k, (t + e) as real, er * tr, k);
  }

  // The same mean with recall weighted four to one.
  lemma RecallMean(tp: nat, e: nat, t: nat, p: real, r: real)
    requires 0 < tp && 0 < e && 0 < t && p == tp as real / e as real && r == tp as real / t as real
    ensures 4.0 * p + r > 0.0
    ensures (5.0 * p * r) / (4.0 * p + r) == (5.0 * tp as real) / (4 * t + e) as real
  {
    var k, er, tr := tp as real, e as real, t as real;
    assert p > 0.0 && r > 0.0 && p * er == k && r * tr == k;
    Positive(er, tr);
    assert (4.0 * p + r) * (er * tr) == k * (4.0 * tr + er) by {
      assert (4.0 * p) * (er * tr) == 4.0 * (p * er) * tr;
      assert r * (er * tr) == (r * tr) * er;
    }
    assert (5.0 * p * r) * (er * tr) == (5.0 * k) * k by {
      assert (5.0 * p * r) * (er * tr) == 5.0 * ((p * er) * (r * tr));
    }
    Ratio(5.0 * p * r, 4.0 * p + r, 5.0 * k, (4 * t + e) as real, er * tr, k);
  }

  lemma Positive(x: real, y: real)
    requires x > 0.0 && y > 0.0
    ensures x * y > 0.0
  {
  }

  lemma Ratio(a: real, b: real, c: real, d: real, m: real, k: real)
    requires b > 0.0 && d > 0.0 && m > 0.0 && k > 0.0
    requires a * m == c * k && b * m == k * d
    ensures a / b == c / d
  {
    var q := c / d;
    assert q * d == c;
    assert (q * b) * m == q * (k * d) == (q * d) * k == a * m;
    assert (q * b - a) * m == 0.0;
    assert q * b == a;
  }

  ghost function TruePositives<T>(extracted: set<T>, truth: set<T>): nat {
    |extracted * truth|
  }

  lemma Sizes<T>(extracted: set<T>, truth: set<T>)
    ensures TruePositives(extracted, truth) <= |extracted|
    ensures TruePositives(extracted, truth) <= |truth|
    ensures TruePositives(extracted, truth) == |extracted| <==> extracted <= truth
    ensures TruePositives(extracted, truth) == |truth| <==> truth <= extracted
  {
    var both := extracted * truth;
    assert extracted == both + (extracted - truth) && truth == both + (truth - extracted);
    assert |extracted| == |both| + |extracted - truth|;
    assert |truth| == |both| + |truth - extracted|;
    assert extracted - truth == {} <==> extracted <= truth;
    assert truth - extracted == {} <==> truth <= extracted;
  }

  lemma MeasuresOf(tp: nat, e: nat, t: nat, p: real, r: real)
    requires 0 < e && 0 < t && p == tp as real / e as real && r == tp as real / t as real
    requires p + r > 0.0 && 4.0 * p + r > 0.0
    ensures Measures(tp, e, t) == Detail(p, r, (2.0 * p * r) / (p + r), (5.0 * p * r) / (4.0 * p + r))
  {
  }

  lemma MeasuresClosedForm(tp: nat, e: nat, t: nat)
    requires tp <= e && tp <= t
    ensures tp == 0 ==> Measures(tp, e, t).f1 == 0.0 && Measures(tp, e, t).f2 == 0.0
    ensures tp > 0 ==> Measures(tp, e, t).f1 == (2.0 * tp as real) / (t + e) as real
    ensures tp > 0 ==> Measures(tp, e, t).f2 == (5.0 * tp as real) / (4 * t + e) as real
  {
    if tp > 0 {
      var p, r := tp as real / e as real, tp as real / t as real;
      PlainMean(tp, e, t, p, r);
      RecallMean(tp, e, t, p, r);
      MeasuresOf(tp, e, t, p, r);
      hide Measures;
    } else {
      NoMeasure(e, t);
    }
  }

  lemma NoMeasure(e: nat, t: nat)
    ensures Measures(0, e, t) == Detail(0.0, 0.0, 0.0, 0.0)
  {
    assert e != 0 ==> 0.0 / e as real == 0.0;
    assert t != 0 ==> 0.0 / t as real == 0.0;
  }

  // Precision is the part of the named symbols that was expected, recall the part
  // of the expected ones that was named; each is 0 when it is no ratio.
  lemma RatiosExactly<T>(extracted: set<T>, truth: set<T>)
    ensures var (tp, d) := (TruePositives(extracted, truth) as real, GradeSetMatch(extracted, truth));
            && d.precision * |extracted| as real == tp && d.recall * |truth| as real == tp
            && (extracted == {} ==> d.precision == 0.0) && (truth == {} ==> d.recall == 0.0)
  {
    Sizes(extracted, truth);
    Cancels(TruePositives(extracted, truth), |extracted|);
    Cancels(TruePositives(extracted, truth), |truth|);
  }

  lemma Cancels(k: nat, n: nat)
    requires k <= n
    ensures n != 0 ==> k as real / n as real * n as real == k as real
  {
  }

  // F2 is a ratio of counts: recall weighs four times what precision does.
  lemma F2ClosedForm<T>(extracted: set<T>, truth: set<T>)
    ensures var tp, f2 := TruePositives(extracted, truth), GradeSetMatch(extracted, truth).f2;
            f2 == if tp == 0 then 0.0
                  else (5 * tp) as real / (4 * |truth| + |extracted|) as real
  {
    Sizes(extracted, truth);
    MeasuresClosedForm(TruePositives(extracted, truth), |extracted|, |truth|);
  }

  lemma F1ClosedForm<T>(extracted: set<T>, truth: set<T>)
    ensures var tp, f1 := TruePositives(extracted, truth), GradeSetMatch(extracted, truth).f1;
            f1 == if tp == 0 then 0.0
                  else (2 * tp) as real / (|truth| + |extracted|) as real
  {
    Sizes(extracted, truth);
    MeasuresClosedForm(TruePositives(extracted, truth), |extracted|, |truth|);
  }

  // a/b <= c/d decided by cross products.
  lemma CrossMultiply(a: nat, b: nat, c: nat, d: nat)
    requires 0 < b && 0 < d
    ensures a as real / b as real <= c as real / d as real <==> a * d <= c * b
    ensures a as real / b as real < c as real / d as real <==> a * d < c * b
  {
    var x, y, br, dr := a as real / b as real, c as real / d as real, b as real, d as real;
    assert x * br == a as real && y * dr == c as real;
    Positive(br, dr);
    assert x * (br * dr) == (a * d) as real by { assert x * (br * dr) == (x * br) * dr; }
    assert y * (br * dr) == (c * b) as real by { assert y * (br * dr) == (y * dr) * br; }
    Order(x, y, br * dr);
  }

  lemma Order(x: real, y: real, m: real)
    requires m > 0.0
    ensures x <= y <==> x * m <= y * m
    ensures x < y <==> x * m < y * m
  {
    assert (y - x) * m == y * m - x * m;
    if x < y { Positive(y - x, m); }
    if y < x { Positive(x - y, m); assert (x - y) * m == x * m - y * m; }
  }

  lemma Grow(c: nat, x: nat, y: nat)
    requires x <= y
    ensures c * x <= c * y
  {
  }

  // F2 never leaves the interval spanned by precision and recall.
  lemma F2BetweenPrecisionAndRecall<T>(extracted: set<T>, truth: set<T>)
    ensures var d := GradeSetMatch(extracted, truth);
            || d.precision <= d.f2 <= d.recall
            || d.recall <= d.f2 <= d.precision
  {
    var tp, e, t := TruePositives(extracted, truth), |extracted|, |truth|;
    Sizes(extracted, truth);
    F2ClosedForm(extracted, truth);
    if tp > 0 {
      Between(tp, e, t);
    }
  }

  lemma Between(tp: nat, e: nat, t: nat)
    requires 0 < tp && 0 < e && 0 < t
    ensures var p, f, r := tp as real / e as real, (5 * tp) as real / (4 * t + e) as real, tp as real / t as real;
            if t <= e then p <= f <= r else r <= f <= p
  {
    var f, m := 5 * tp, 4 * t + e;
    assert f * e == tp * (4 * e + e) && f * t == tp * (4 * t + t);
    if t <= e {
      Grow(tp, m, 5 * e);
      Grow(tp, 5 * t, m);
      CrossMultiply(tp, e, f, m);
      CrossMultiply(f, m, tp, t);
    } else {
      Grow(tp, 5 * e, m);
      Grow(tp, m, 5 * t);
      CrossMultiply(f, m, tp, e);
      CrossMultiply(tp, t, f, m);
    }
  }

  lemma F2PerfectExactly<T>(extracted: set<T>, truth: set<T>)
    ensures 0.0 <= GradeSetMatch(extracted, truth).f2 <= 1.0
    ensures GradeSetMatch(extracted, truth).f2 == 1.0 <==> extracted == truth && truth != {}
  {
    var tp, e, t := TruePositives(extracted, truth), |extracted|, |truth|;
    Sizes(extracted, truth);
    F2ClosedForm(extracted, truth);
    if tp > 0 {
      CrossMultiply(0, 1, 5 * tp, 4 * t + e);
      CrossMultiply(5 * tp, 4 * t + e, 1, 1);
      CrossMultiply(1, 1, 5 * tp, 4 * t + e);
    } else if extracted == truth {
      assert extracted * truth == truth;
    }
  }

  // Naming one more expected symbol always pays.
  lemma F2RisesOnHit<T>(extracted: set<T>, truth: set<T>, x: T)
    requires x in truth && x !in extracted
    ensures GradeSetMatch(extracted, truth).f2 < GradeSetMatch(extracted + {x}, truth).f2
  {
    var more := extracted + {x};
    var tp, e, t := TruePositives(extracted, truth), |extracted|, |truth|;
    assert more * truth == (extracted * truth) + {x};
    assert TruePositives(more, truth) == tp + 1 && |more| == e + 1;
    Sizes(extracted, truth);
    F2ClosedForm(extracted, truth);
    F2ClosedForm(more, truth);
    if tp > 0 {
      RatioMoves(tp, 4 * t + e);
    } else {
      CrossMultiply(0, 1, 5, 4 * t + (e + 1));
    }
  }

  lemma RatioMoves(tp: nat, m: nat)
    requires 0 < tp < m
    ensures (5 * tp) as real / m as real < (5 * (tp + 1)) as real / (m + 1) as real
    ensures (5 * tp) as real / (m + 1) as real < (5 * tp) as real / m as real
  {
    CrossMultiply(5 * tp, m, 5 * (tp + 1), m + 1);
    CrossMultiply(5 * tp, m + 1, 5 * tp, m);
    assert (5 * tp) * (m + 1) == (5 * tp) * m + 5 * tp;
    assert (5 * (tp + 1)) * m == (5 * tp) * m + 5 * m;
  }

  // Naming one more spurious symbol always costs, once anything was right.
  lemma F2FallsOnMiss<T>(extracted: set<T>, truth: set<T>, x: T)
    requires x !in truth && x !in extracted
    ensures TruePositives(extracted, truth) > 0 ==>
              GradeSetMatch(extracted + {x}, truth).f2 < GradeSetMatch(extracted, truth).f2
    ensures TruePositives(extracted, truth) == 0 ==>
              GradeSetMatch(extracted + {x}, truth).f2 == GradeSetMatch(extracted, truth).f2
  {
    var more := extracted + {x};
    var tp, e, t := TruePositives(extracted, truth), |extracted|, |truth|;
    assert more * truth == extracted * truth;
    assert |more| == e + 1;
    Sizes(extracted, truth);
    F2ClosedForm(extracted, truth);
    F2ClosedForm(more, truth);
    if tp > 0 {
      RatioMoves(tp, 4 * t + e);
    }
  }
}
