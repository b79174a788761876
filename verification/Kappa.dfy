/** Cohen's kappa over two raters' label lists (bench/grade.py, `cohen_kappa`).

    Floats become exact reals.  The reference value `Kappa` is written over
    integers only: n items, a agreements, and the number of cross pairs
    (i, i') whose labels coincide, which is what the sum over labels of the
    two counts' products counts. */
module Kappa {

  import opened Common

  datatype Outcome = Score(kappa: real) | LengthMismatch | EmptyLists

  // list.count
  function Count<T(==)>(s: seq<T>, k: T): (c: nat)
    ensures c <= |s|
  {
    if s == [] then 0
    else Count(s[..|s| - 1], k) + if s[|s| - 1] == k then 1 else 0
  }

  // Positions at which the two lists carry the same label.
  function Agreements<T(==)>(j: seq<T>, h: seq<T>): (a: nat)
    requires |j| == |h|
    ensures a <= |j|
  {
    if j == [] then 0
    else Agreements(j[..|j| - 1], h[..|h| - 1]) + if j[|j| - 1] == h[|h| - 1] then 1 else 0
  }

  // Every item of both lists carries one and the same label.
  ghost predicate Constant<T>(j: seq<T>, h: seq<T>) {
    exists k | k in j :: (forall i :: 0 <= i < |j| ==> j[i] == k) && (forall i :: 0 <= i < |h| ==> h[i] == k)
  }

  // Index pairs (i, i') with j[i] == h[i'].
  ghost function CrossPairs<T>(j: seq<T>, h: seq<T>): nat {
    if j == [] then 0 else CrossPairs(j[..|j| - 1], h) + Count(h, j[|j| - 1])
  }

  ghost function Kappa<T>(j: seq<T>, h: seq<T>): real
    requires |j| == |h| > 0
  {
    var n, a, s := |j|, Agreements(j, h), CrossPairs(j, h);
    if s == n * n then 0.0 else (n * a - s) as real / (n * n - s) as real
  }

  // ---- Label sums ----

  ghost function LabelSum<T>(ls: seq<T>, j: seq<T>, h: seq<T>): nat {
    if ls == [] then 0
    else LabelSum(ls[..|ls| - 1], j, h) + Count(j, ls[|ls| - 1]) * Count(h, ls[|ls| - 1])
  }

  // How often the labels of `ls` occur in `s`, each weighted once.
  ghost function CountSum<T>(ls: seq<T>, s: seq<T>): nat {
    if ls == [] then 0 else CountSum(ls[..|ls| - 1], s) + Count(s, ls[|ls| - 1])
  }

  lemma {:induction false} LabelSumGrows<T>(ls: seq<T>, j: seq<T>, x: T, h: seq<T>)
    requires Distinct(ls)
    ensures LabelSum(ls, j + [x], h) == LabelSum(ls, j, h) + if x in ls then Count(h, x) else 0
  {
    if ls == [] {
    } else {
      var front, k := ls[..|ls| - 1], ls[|ls| - 1];
      LabelSumGrows(front, j, x, h);
      assert (j + [x])[..|j|] == j;
      assert ls == front + [k];
      assert k == x ==> x !in front;
      Distribute(Count(h, k), Count(j, k), if k == x then 1 else 0);
    }
  }

  lemma Distribute(c: int, x: int, y: int)
    ensures c * (x + y) == c * x + c * y
    ensures (x + y) * c == x * c + y * c
  {
  }

  // Any enumeration of the labels, in any order, yields the cross-pair count.
  lemma {:induction false} LabelSumIsCrossPairs<T>(ls: seq<T>, j: seq<T>, h: seq<T>)
    requires Distinct(ls)
    requires forall x :: x in j ==> x in ls
    ensures LabelSum(ls, j, h) == CrossPairs(j, h)
  {
    if j == [] {
      LabelSumOfNothing(ls, h);
    } else {
      var front := j[..|j| - 1];
      assert j == front + [j[|j| - 1]];
      LabelSumIsCrossPairs(ls, front, h);
      LabelSumGrows(ls, front, j[|j| - 1], h);
    }
  }

  lemma LabelSumOfNothing<T>(ls: seq<T>, h: seq<T>)
    ensures LabelSum(ls, [], h) == 0
  {
  }

  lemma {:induction false} LabelSumSymmetric<T>(ls: seq<T>, j: seq<T>, h: seq<T>)
    ensures LabelSum(ls, j, h) == LabelSum(ls, h, j)
  {
    if ls != [] {
      LabelSumSymmetric(ls[..|ls| - 1], j, h);
    }
  }

  lemma {:induction false} CountSumGrows<T>(ls: seq<T>, s: seq<T>, x: T)
    requires Distinct(ls)
    ensures CountSum(ls, s + [x]) == CountSum(ls, s) + if x in ls then 1 else 0
  {
    if ls != [] {
      var front, k := ls[..|ls| - 1], ls[|ls| - 1];
      CountSumGrows(front, s, x);
      assert (s + [x])[..|s|] == s;
      assert ls == front + [k];
    }
  }

  lemma {:induction false} CountSumTotal<T>(ls: seq<T>, s: seq<T>)
    requires Distinct(ls)
    requires forall x :: x in s ==> x in ls
    ensures CountSum(ls, s) == |s|
  {
    if s == [] {
      CountSumOfNothing(ls);
    } else {
      var front := s[..|s| - 1];
      assert s == front + [s[|s| - 1]];
      CountSumTotal(ls, front);
      CountSumGrows(ls, front, s[|s| - 1]);
    }
  }

  lemma CountSumOfNothing<T>(ls: seq<T>)
    ensures CountSum(ls, []) == 0
  {
  }

  function Enumerate<T(==)>(s: seq<T>): (ls: seq<T>)
    ensures Distinct(ls)
    ensures forall x :: x in s ==> x in ls
    ensures forall x :: x in ls ==> x in s
  {
    if s == [] then []
    else
      var front := Enumerate(s[..|s| - 1]);
      assert s == s[..|s| - 1] + [s[|s| - 1]];
      if s[|s| - 1] in front then front else front + [s[|s| - 1]]
  }

  // ---- The two inequalities ----

  // The labels on which both raters agree, in order.
  function Agreed<T(==)>(j: seq<T>, h: seq<T>): (g: seq<T>)
    requires |j| == |h|
    ensures |g| == Agreements(j, h)
    ensures forall x :: x in g ==> x in j && x in h
  {
    if j == [] then []
    else
      var last := |j| - 1;
      assert j == j[..last] + [j[last]] && h == h[..last] + [h[last]];
      Agreed(j[..last], h[..last]) + if j[last] == h[last] then [j[last]] else []
  }

  // Inclusion-exclusion on the positions carrying one label.
  lemma {:induction false} InclusionExclusion<T>(j: seq<T>, h: seq<T>, k: T)
    requires |j| == |h|
    ensures Count(j, k) + Count(h, k) <= |j| + Count(Agreed(j, h), k)
  {
    if j != [] {
      var last := |j| - 1;
      InclusionExclusion(j[..last], h[..last], k);
      var front := Agreed(j[..last], h[..last]);
      if j[last] == h[last] {
        assert (front + [j[last]])[..|front|] == front;
      } else {
        assert front + [] == front;
      }
    }
  }

  lemma LabelTerm(x: nat, y: nat, n: nat, g: nat)
    requires x <= n && y <= n && x + y <= n + g
    ensures 4 * (x * y) <= n * (x + y) + 2 * n * g
  {
    assert (x + y) * (x + y) - 4 * (x * y) == (x - y) * (x - y);
    assert (x - y) * (x - y) >= 0;
    assert (x + y) * (x + y) <= (x + y) * (n + g) by { Monotone(x + y, x + y, n + g); }
    assert (x + y) * (n + g) == n * (x + y) + (x + y) * g;
    assert (x + y) * g <= (2 * n) * g by { Monotone(g, x + y, 2 * n); }
  }

  lemma Monotone(c: nat, x: int, y: int)
    requires x <= y
    ensures c * x <= c * y && x * c <= y * c
  {
  }

  lemma SumStep(n: nat, sum: nat, u: nat, v: nat, x: nat, y: nat, g: nat)
    requires 4 * sum <= n * u + 2 * n * v
    requires x <= n && y <= n && x + y <= n + g
    ensures 4 * (sum + x * y) <= n * (u + (x + y)) + 2 * n * (v + g)
  {
    LabelTerm(x, y, n, g);
    Distribute(n, u, x + y);
    Distribute(2 * n, v, g);
  }

  lemma StrictlyMonotone(c: nat, x: int, y: int)
    requires 0 < c
    ensures x < y ==> c * x < c * y
  {
  }

  lemma {:induction false} SumTerms<T>(ls: seq<T>, j: seq<T>, h: seq<T>)
    requires |j| == |h|
    ensures 4 * LabelSum(ls, j, h)
            <= |j| * (CountSum(ls, j) + CountSum(ls, h)) + 2 * |j| * CountSum(ls, Agreed(j, h))
  {
    if ls != [] {
      var front, k, n := ls[..|ls| - 1], ls[|ls| - 1], |j|;
      SumTerms(front, j, h);
      InclusionExclusion(j, h, k);
      var x, y, g := Count(j, k), Count(h, k), Count(Agreed(j, h), k);
      LabelTerm(x, y, n, g);
      SumStep(n, LabelSum(front, j, h), CountSum(front, j) + CountSum(front, h), CountSum(front, Agreed(j, h)), x, y, g);
      assert CountSum(ls, j) + CountSum(ls, h) == CountSum(front, j) + CountSum(front, h) + (x + y);
      assert CountSum(ls, Agreed(j, h)) == CountSum(front, Agreed(j, h)) + g;
    }
  }

  // Chance agreement is at most halfway between full and observed agreement.
  lemma ChanceAgreementBound<T>(j: seq<T>, h: seq<T>)
    requires |j| == |h|
    ensures 2 * CrossPairs(j, h) <= |j| * |j| + |j| * Agreements(j, h)
  {
    var ls := Enumerate(j + h);
    LabelSumIsCrossPairs(ls, j, h);
    CountSumTotal(ls, j);
    CountSumTotal(ls, h);
    CountSumTotal(ls, Agreed(j, h));
    SumTerms(ls, j, h);
    HalfOf(|j|, CrossPairs(j, h), Agreements(j, h));
  }

  lemma HalfOf(n: nat, s: nat, a: nat)
    requires 4 * s <= n * (n + n) + 2 * n * a
    ensures 2 * s <= n * n + n * a
  {
    Distribute(n, n, n);
    assert 2 * n * a == 2 * (n * a);
  }

  lemma {:induction false} CountFull<T>(s: seq<T>, k: T)
    ensures Count(s, k) == |s| <==> forall i :: 0 <= i < |s| ==> s[i] == k
  {
    if s != [] {
      CountFull(s[..|s| - 1], k);
      assert forall i :: 0 <= i < |s| - 1 ==> s[..|s| - 1][i] == s[i];
    }
  }

  lemma {:induction false} CrossPairsFull<T>(j: seq<T>, h: seq<T>)
    ensures CrossPairs(j, h) <= |j| * |h|
    ensures CrossPairs(j, h) == |j| * |h| <==>
            forall a, b :: 0 <= a < |j| && 0 <= b < |h| ==> j[a] == h[b]
  {
    if j != [] {
      var last := |j| - 1;
      var front := j[..last];
      CrossPairsFull(front, h);
      CountFull(h, j[last]);
      Distribute(|h|, last, 1);
      assert forall a :: 0 <= a < last ==> front[a] == j[a];
    }
  }

  // The zero-divisor guard fires exactly on two lists constant on one label.
  lemma GuardIsConstant<T>(j: seq<T>, h: seq<T>)
    requires |j| == |h| > 0
    ensures CrossPairs(j, h) <= |j| * |j|
    ensures CrossPairs(j, h) == |j| * |j| <==> Constant(j, h)
  {
    CrossPairsFull(j, h);
    if CrossPairs(j, h) == |j| * |j| {
      assert j[0] in j && j[0] == h[0];
      assert forall i :: 0 <= i < |j| ==> j[i] == h[0];
      assert forall i :: 0 <= i < |h| ==> j[0] == h[i];
      assert Constant(j, h);
    }
  }

  lemma {:induction false} AgreementsFull<T>(j: seq<T>, h: seq<T>)
    requires |j| == |h|
    ensures Agreements(j, h) == |j| <==> j == h
  {
    if j != [] {
      var last := |j| - 1;
      AgreementsFull(j[..last], h[..last]);
      assert j == j[..last] + [j[last]] && h == h[..last] + [h[last]];
    }
  }

  lemma {:induction false} AgreementsSymmetric<T>(j: seq<T>, h: seq<T>)
    requires |j| == |h|
    ensures Agreements(j, h) == Agreements(h, j)
  {
    if j != [] {
      AgreementsSymmetric(j[..|j| - 1], h[..|h| - 1]);
    }
  }

  // ---- What the documentation promises about the score ----

  lemma DivisionBounds(p: int, q: int)
    requires q > 0
    ensures p <= q <==> p as real / q as real <= 1.0
    ensures p == q <==> p as real / q as real == 1.0
    ensures -q <= p <==> -1.0 <= p as real / q as real
  {
    var r := p as real / q as real;
    assert r * q as real == p as real;
    if r <= 1.0 { assert r * q as real <= q as real; } else { assert r * q as real > q as real; }
    if -1.0 <= r { assert r * q as real >= -(q as real); } else { assert r * q as real < -(q as real); }
  }

  lemma KappaInRange<T>(j: seq<T>, h: seq<T>)
    requires |j| == |h| > 0
    ensures -1.0 <= Kappa(j, h) <= 1.0
  {
    var n, a, s := |j|, Agreements(j, h), CrossPairs(j, h);
    GuardIsConstant(j, h);
    ChanceAgreementBound(j, h);
    if s != n * n {
      Monotone(n, a, n);
      DivisionBounds(n * a - s, n * n - s);
    }
  }

  lemma KappaIsOne<T>(j: seq<T>, h: seq<T>)
    requires |j| == |h| > 0
    ensures Kappa(j, h) == 1.0 <==> j == h && !Constant(j, h)
  {
    var n, a, s := |j|, Agreements(j, h), CrossPairs(j, h);
    GuardIsConstant(j, h);
    AgreementsFull(j, h);
    if s != n * n {
      DivisionBounds(n * a - s, n * n - s);
      StrictlyMonotone(n, a, n);
    }
  }

  lemma KappaSymmetric<T>(j: seq<T>, h: seq<T>)
    requires |j| == |h| > 0
    ensures Kappa(j, h) == Kappa(h, j)
  {
    var ls := Enumerate(j + h);
    LabelSumIsCrossPairs(ls, j, h);
    LabelSumIsCrossPairs(ls, h, j);
    LabelSumSymmetric(ls, j, h);
    AgreementsSymmetric(j, h);
  }

  // ---- The computation ----

  // `x` is s over nn.
  ghost predicate Scaled(x: real, nn: nat, s: nat) {
    x * nn as real == s as real
  }

  lemma SameScore(n: nat, a: nat, s: nat, po: real, pe: real)
    requires 0 < n && s <= n * n
    requires po == a as real / n as real
    requires Scaled(pe, n * n, s)
    ensures pe == 1.0 <==> s == n * n
    ensures s != n * n ==> (po - pe) / (1.0 - pe) == (n * a - s) as real / (n * n - s) as real
  {
    ObservedScaled(n, a, po);
    StrictlyMonotone(n, 0, n);
    Rescale(po, pe, n * n, n * a, s);
  }

  lemma ObservedScaled(n: nat, a: nat, po: real)
    requires 0 < n && po == a as real / n as real
    ensures Scaled(po, n * n, n * a)
  {
    var nr := n as real;
    assert po * nr == a as real;
    assert (n * n) as real == nr * nr;
    assert po * (nr * nr) == (po * nr) * nr;
  }

  lemma Rescale(po: real, pe: real, nn: nat, na: nat, s: nat)
    requires 0 < nn && Scaled(po, nn, na) && Scaled(pe, nn, s)
    ensures pe == 1.0 <==> s == nn
    ensures s != nn ==> pe != 1.0 && (po - pe) / (1.0 - pe) == (na - s) as real / (nn - s) as real
  {
    var m := nn as real;
    IsOne(pe, m, s as real);
    if s != nn {
      Quotient(po, pe, m, na as real, s as real);
    }
  }

  lemma IsOne(x: real, m: real, s: real)
    requires m > 0.0 && x * m == s
    ensures x == 1.0 <==> s == m
  {
    assert x == s / m;
  }

  lemma Quotient(x: real, y: real, m: real, a: real, s: real)
    requires m > 0.0 && x * m == a && y * m == s && y != 1.0
    ensures (x - y) / (1.0 - y) == (a - s) / (m - s)
  {
    assert (x - y) * m == a - s;
    assert (1.0 - y) * m == m - s;
    assert m - s != 0.0 by { IsOne(y, m, s); }
    Cancel(x - y, 1.0 - y, m);
  }

  lemma Cancel(x: real, y: real, c: real)
    requires y != 0.0 && c != 0.0 && y * c != 0.0
    ensures x / y == (x * c) / (y * c)
  {
    var q := x / y;
    assert q * y == x;
    assert q * (y * c) == (q * y) * c;
  }

  lemma ChanceStep(n: nat, cj: nat, ch: nat, pe: real, s: nat, pe': real)
    requires 0 < n
    requires Scaled(pe, n * n, s)
    requires pe' == pe + (cj as real / n as real) * (ch as real / n as real)
    ensures Scaled(pe', n * n, s + cj * ch)
  {
    var nr, x, y := n as real, cj as real / n as real, ch as real / n as real;
    assert x * nr == cj as real && y * nr == ch as real;
    assert (n * n) as real == nr * nr;
    assert (x * y) * (nr * nr) == (x * nr) * (y * nr);
    assert (x * nr) * (y * nr) == cj as real * ch as real == (cj * ch) as real;
  }

  // One label's chance of being given by both raters independently.
  function Chance<T(==)>(k: T, j: seq<T>, h: seq<T>, n: nat): real
    requires n > 0
  {
    (Count(j, k) as real / n as real) * (Count(h, k) as real / n as real)
  }

  // The sum the program accumulates, in the order `ls`.
  ghost function ChanceSum<T>(ls: seq<T>, j: seq<T>, h: seq<T>, n: nat): real
    requires n > 0
  {
    if ls == [] then 0.0
    else ChanceSum(ls[..|ls| - 1], j, h, n) + Chance(ls[|ls| - 1], j, h, n)
  }

  lemma {:induction false} ChanceSumScaled<T>(ls: seq<T>, j: seq<T>, h: seq<T>, n: nat)
    requires n > 0
    ensures Scaled(ChanceSum(ls, j, h, n), n * n, LabelSum(ls, j, h))
  {
    if ls != [] {
      var front, k := ls[..|ls| - 1], ls[|ls| - 1];
      ChanceSumScaled(front, j, h, n);
      ChanceStep(n, Count(j, k), Count(h, k), ChanceSum(front, j, h, n), LabelSum(front, j, h), ChanceSum(ls, j, h, n));
    }
  }

  // `seen` lists the labels no longer to do, each once.
  ghost predicate Visited<T>(labels: set<T>, todo: set<T>, seen: seq<T>) {
    && Distinct(seen)
    && (forall x :: x in labels ==> x in todo || x in seen)
    && (forall x :: x in seen ==> x !in todo)
  }

  lemma VisitNext<T>(labels: set<T>, todo: set<T>, seen: seq<T>, k: T)
    requires Visited(labels, todo, seen) && k in todo
    ensures Visited(labels, todo - {k}, seen + [k])
  {
  }

  // The loop over the label set, visited in any order.
  method ChanceAgreement<T(==)>(judge: seq<T>, human: seq<T>) returns (pe: real)
    requires |judge| == |human| > 0
    ensures Scaled(pe, |judge| * |judge|, CrossPairs(judge, human))
  {
    hide Chance, Scaled, CrossPairs, LabelSum;
    var n := |judge|;
    var labels := (set x | x in judge) + (set x | x in human);
    var todo := labels;
    pe := 0.0;
    ghost var seen: seq<T> := [];
    while todo != {}
      invariant Visited(labels, todo, seen)
      invariant pe == ChanceSum(seen, judge, human, n)
    {
      var k :| k in todo;
      pe := pe + Chance(k, judge, human, n);
      assert (seen + [k])[..|seen|] == seen;
      VisitNext(labels, todo, seen, k);
      seen := seen + [k];
      todo := todo - {k};
    }
    assert forall x :: x in judge ==> x in labels;
    LabelSumIsCrossPairs(seen, judge, human);
    ChanceSumScaled(seen, judge, human, n);
  }

  lemma FormulaIsKappa<T>(j: seq<T>, h: seq<T>, agree: nat, pe: real)
    requires |j| == |h| > 0 && agree == Agreements(j, h)
    requires Scaled(pe, |j| * |j|, CrossPairs(j, h))
    ensures Kappa(j, h) == if pe == 1.0 then 0.0 else (agree as real / |j| as real - pe) / (1.0 - pe)
  {
    GuardIsConstant(j, h);
    SameScore(|j|, agree, CrossPairs(j, h), agree as real / |j| as real, pe);
  }

  method CohenKappa<T(==)>(judge: seq<T>, human: seq<T>) returns (r: Outcome)
    ensures |judge| != |human| ==> r == LengthMismatch
    ensures |judge| == |human| == 0 ==> r == EmptyLists
    ensures |judge| == |human| > 0 ==> r == Score(Kappa(judge, human))
  {
    if |judge| != |human| {
      return LengthMismatch;
    }
    var n := |judge|;
    if n == 0 {
      return EmptyLists;
    }
    var agree := 0;
    for i := 0 to n
      invariant agree == Agreements(judge[..i], human[..i])
    {
      assert judge[..i + 1][..i] == judge[..i] && human[..i + 1][..i] == human[..i];
      if judge[i] == human[i] {
        agree := agree + 1;
      }
    }
    assert judge[..n] == judge && human[..n] == human;
    var po := agree as real / n as real;
    var pe := ChanceAgreement(judge, human);
    FormulaIsKappa(judge, human, agree, pe);
    if pe == 1.0 {
      return Score(0.0);
    }
    return Score((po - pe) / (1.0 - pe));
  }
}
