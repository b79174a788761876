/** The calibration gate (bench/oracle/calibration.py, `_calibrate_from_expected`).

    Question ids, categories and payloads are arbitrary values; payload equality
    is a given total comparison.  Ratios are exact reals and the threshold is any
    real. */
module Calibration {

  import opened Common

  datatype Question<I, C> = Question(id: I, category: C)

  datatype Agreement = Agreement(matches: nat, total: nat) {
    // `ratio`, as derived when the record is built.
    function Ratio(): real {
      if total != 0 then matches as real / total as real else 1.0
    }
  }

  datatype Report<C> = Report(perCategory: map<C, Agreement>, overall: Agreement, threshold: real, passed: bool) {
    function FailingCategories(): set<C> {
      set c | c in perCategory && perCategory[c].Ratio() < threshold
    }
  }

  datatype Answers<I, !P> = Answers(mechanical: map<I, P>, manual: map<I, P>, equal: (P, P) -> bool) {
    // Only questions both sources answer count.
    predicate Covers<C>(q: Question<I, C>) {
      q.id in mechanical && q.id in manual
    }

    predicate Agree<C>(q: Question<I, C>)
      requires Covers(q)
    {
      equal(mechanical[q.id], manual[q.id])
    }
  }

  datatype Scope<C> = Overall | Within(category: C)

  // Covered questions in scope; only the agreeing ones when `agreeing`.
  ghost function Tally<I, C, P>(qs: seq<Question<I, C>>, a: Answers<I, P>, scope: Scope<C>, agreeing: bool): (n: nat)
    ensures n <= |qs|
  {
    if qs == [] then 0
    else
      var q := qs[|qs| - 1];
      Tally(qs[..|qs| - 1], a, scope, agreeing) +
      if a.Covers(q) && (scope.Within? ==> scope.category == q.category) && (agreeing ==> a.Agree(q)) then 1 else 0
  }

  // The report's tallies for a category.
  ghost function CategoryAgreement<I, C, P>(qs: seq<Question<I, C>>, a: Answers<I, P>, scope: Scope<C>): Agreement {
    Agreement(Tally(qs, a, scope, true), Tally(qs, a, scope, false))
  }

  ghost predicate BothAgreeAt<I, C, P>(qs: seq<Question<I, C>>, a: Answers<I, P>, scope: Scope<C>, i: int) {
    && 0 <= i < |qs| && qs[i].id in a.mechanical && qs[i].id in a.manual
    && (scope == Overall || scope == Within(qs[i].category))
    && a.equal(a.mechanical[qs[i].id], a.manual[qs[i].id])
  }

  ghost function AgreedPositions<I, C, P>(qs: seq<Question<I, C>>, a: Answers<I, P>, scope: Scope<C>): set<int> {
    set i | 0 <= i < |qs| && BothAgreeAt(qs, a, scope, i)
  }

  lemma AgreedStep<I, C, P>(qs: seq<Question<I, C>>, a: Answers<I, P>, scope: Scope<C>)
    requires qs != []
    ensures var n := |qs| - 1;
            && n !in AgreedPositions(qs[..n], a, scope)
            && AgreedPositions(qs, a, scope) == AgreedPositions(qs[..n], a, scope) + if BothAgreeAt(qs, a, scope, n) then {n} else {}
  {
    var n := |qs| - 1;
    forall i | 0 <= i < n ensures BothAgreeAt(qs[..n], a, scope, i) <==> BothAgreeAt(qs, a, scope, i) {
      assert qs[..n][i] == qs[i];
    }
    hide BothAgreeAt;
  }

  // The matches are the questions in scope that both sources answer alike.
  lemma {:induction false} MatchesExactly<I, C, P>(qs: seq<Question<I, C>>, a: Answers<I, P>, scope: Scope<C>)
    ensures Tally(qs, a, scope, true) == |AgreedPositions(qs, a, scope)|
  {
    if qs != [] {
      hide AgreedPositions;
      MatchesExactly(qs[..|qs| - 1], a, scope);
      AgreedStep(qs, a, scope);
    }
  }

  ghost predicate Compared<I, C, P>(qs: seq<Question<I, C>>, a: Answers<I, P>, c: C) {
    exists i :: 0 <= i < |qs| && a.Covers(qs[i]) && qs[i].category == c
  }

  // ---- Categories partition the comparison ----

  ghost function CategorySum<I, C, P>(cs: seq<C>, qs: seq<Question<I, C>>, a: Answers<I, P>, agreeing: bool): nat {
    if cs == [] then 0
    else CategorySum(cs[..|cs| - 1], qs, a, agreeing) + Tally(qs, a, Within(cs[|cs| - 1]), agreeing)
  }

  lemma {:induction false} CategorySumStep<I, C, P>(cs: seq<C>, qs: seq<Question<I, C>>, q: Question<I, C>, a: Answers<I, P>, agreeing: bool)
    requires Distinct(cs)
    ensures CategorySum(cs, qs + [q], a, agreeing) == CategorySum(cs, qs, a, agreeing) +
            if q.category in cs && a.Covers(q) && (agreeing ==> a.Agree(q)) then 1 else 0
  {
    if cs != [] {
      var front, c := cs[..|cs| - 1], cs[|cs| - 1];
      CategorySumStep(front, qs, q, a, agreeing);
      assert (qs + [q])[..|qs|] == qs;
      assert cs == front + [c];
    }
  }

  lemma {:induction false} CategoriesSumToOverall<I, C, P>(cs: seq<C>, qs: seq<Question<I, C>>, a: Answers<I, P>, agreeing: bool)
    requires Distinct(cs)
    requires forall c :: Compared(qs, a, c) ==> c in cs
    ensures CategorySum(cs, qs, a, agreeing) == Tally(qs, a, Overall, agreeing)
  {
    if qs == [] {
      NothingToSum(cs, a, agreeing);
    } else {
      var front, q := qs[..|qs| - 1], qs[|qs| - 1];
      assert qs == front + [q];
      forall c | Compared(front, a, c) ensures c in cs {
        var i :| 0 <= i < |front| && a.Covers(front[i]) && front[i].category == c;
        assert qs[i] == front[i];
        assert Compared(qs, a, c);
      }
      CategoriesSumToOverall(cs, front, a, agreeing);
      CategorySumStep(cs, front, q, a, agreeing);
      if a.Covers(q) {
        assert qs[|qs| - 1].category == q.category;
        assert Compared(qs, a, q.category);
      }
    }
  }

  lemma NothingToSum<I, C, P>(cs: seq<C>, a: Answers<I, P>, agreeing: bool)
    ensures CategorySum(cs, [], a, agreeing) == 0
  {
  }

  // ---- The mediant inequality behind the gate ----

  // `Ratio() >= t` without the division.
  ghost predicate Meets(g: Agreement, t: real) {
    g.matches as real >= t * g.total as real
  }

  lemma MeetsThreshold(g: Agreement, t: real)
    requires g.total > 0
    ensures g.Ratio() >= t <==> Meets(g, t)
  {
    var r, n := g.Ratio(), g.total as real;
    assert r * n == g.matches as real;
    assert (r - t) * n == r * n - t * n;
    assert r - t >= 0.0 <==> (r - t) * n >= 0.0;
  }

  lemma {:induction false} TallyPositive<I, C, P>(qs: seq<Question<I, C>>, a: Answers<I, P>, c: C)
    ensures Tally(qs, a, Within(c), false) > 0 <==> Compared(qs, a, c)
  {
    if qs != [] {
      var front := qs[..|qs| - 1];
      TallyPositive(front, a, c);
      if Compared(front, a, c) {
        var i :| 0 <= i < |front| && a.Covers(front[i]) && front[i].category == c;
        assert qs[i] == front[i];
      }
      if Compared(qs, a, c) {
        var i :| 0 <= i < |qs| && a.Covers(qs[i]) && qs[i].category == c;
        assert i < |front| ==> front[i] == qs[i];
      }
    }
  }

  ghost function SumAgreement<I, C, P>(cs: seq<C>, qs: seq<Question<I, C>>, a: Answers<I, P>): Agreement {
    Agreement(CategorySum(cs, qs, a, true), CategorySum(cs, qs, a, false))
  }

  lemma {:induction false} Mediant<I, C, P>(cs: seq<C>, qs: seq<Question<I, C>>, a: Answers<I, P>, t: real)
    requires forall c :: c in cs ==> Meets(CategoryAgreement(qs, a, Within(c)), t)
    ensures Meets(SumAgreement(cs, qs, a), t)
  {
    if cs == [] {
      assert t * 0.0 == 0.0;
    } else {
      var front, c := cs[..|cs| - 1], cs[|cs| - 1];
      Mediant(front, qs, a, t);
      Combine(t, SumAgreement(front, qs, a), CategoryAgreement(qs, a, Within(c)), SumAgreement(cs, qs, a));
    }
  }

  lemma Combine(t: real, g: Agreement, g': Agreement, sum: Agreement)
    requires Meets(g, t) && Meets(g', t)
    requires sum == Agreement(g.matches + g'.matches, g.total + g'.total)
    ensures Meets(sum, t)
  {
    var x, y := g.total as real, g'.total as real;
    assert sum.total as real == x + y;
    assert t * (x + y) == t * x + t * y;
  }

  ghost function Enumeration<C>(s: set<C>): (cs: seq<C>)
    ensures Distinct(cs)
    ensures forall c :: c in s ==> c in cs
    ensures forall c :: c in cs ==> c in s
  {
    if s == {} then []
    else
      var c :| c in s;
      Enumeration(s - {c}) + [c]
  }

  // If every compared category meets the threshold, so does the whole.
  lemma CategoriesDecide<I, C, P>(cs: set<C>, qs: seq<Question<I, C>>, a: Answers<I, P>, t: real)
    requires cs != {}
    requires forall c :: c in cs <==> Compared(qs, a, c)
    requires forall c :: c in cs ==> CategoryAgreement(qs, a, Within(c)).Ratio() >= t
    ensures CategoryAgreement(qs, a, Overall).Ratio() >= t
  {
    var all := Enumeration(cs);
    CategoriesSumToOverall(all, qs, a, true);
    CategoriesSumToOverall(all, qs, a, false);
    forall c | c in all ensures Meets(CategoryAgreement(qs, a, Within(c)), t) {
      TallyPositive(qs, a, c);
      MeetsThreshold(CategoryAgreement(qs, a, Within(c)), t);
    }
    Mediant(all, qs, a, t);
    var c :| c in cs;
    TallyPositive(qs, a, c);
    TallyWithin(qs, a, c);
    MeetsThreshold(CategoryAgreement(qs, a, Overall), t);
  }

  lemma {:induction false} TallyWithin<I, C, P>(qs: seq<Question<I, C>>, a: Answers<I, P>, c: C)
    ensures Tally(qs, a, Within(c), false) <= Tally(qs, a, Overall, false)
  {
    if qs != [] {
      TallyWithin(qs[..|qs| - 1], a, c);
    }
  }

  // The counters after the questions `qs`.
  ghost predicate Tallied<I, C(!new), P>(qs: seq<Question<I, C>>, a: Answers<I, P>, matches: map<C, nat>, totals: map<C, nat>) {
    && (forall c :: c in totals <==> Compared(qs, a, c))
    && (forall c :: c in totals ==> totals[c] == Tally(qs, a, Within(c), false))
    && (forall c :: Get(matches, c) == Tally(qs, a, Within(c), true))
  }

  function Get<C>(m: map<C, nat>, c: C): nat {
    if c in m then m[c] else 0
  }

  lemma ComparedStep<I, C, P>(qs: seq<Question<I, C>>, q: Question<I, C>, a: Answers<I, P>, c: C)
    ensures Compared(qs + [q], a, c) <==> Compared(qs, a, c) || (a.Covers(q) && q.category == c)
  {
    TallyPositive(qs, a, c);
    TallyPositive(qs + [q], a, c);
    assert (qs + [q])[..|qs|] == qs;
  }

  lemma TalliedStep<I, C(!new), P>(qs: seq<Question<I, C>>, q: Question<I, C>, a: Answers<I, P>, matches: map<C, nat>, totals: map<C, nat>)
    requires Tallied(qs, a, matches, totals)
    ensures var c, more := q.category, qs + [q];
            var totals', matches' := totals[c := Get(totals, c) + 1], matches[c := Get(matches, c) + 1];
            if !a.Covers(q) then Tallied(more, a, matches, totals)
            else if a.Agree(q) then Tallied(more, a, matches', totals')
            else Tallied(more, a, matches, totals')
  {
    assert (qs + [q])[..|qs|] == qs;
    TallyPositive(qs, a, q.category);
    forall c ensures Compared(qs + [q], a, c) <==> Compared(qs, a, c) || (a.Covers(q) && q.category == c) {
      ComparedStep(qs, q, a, c);
    }
  }

  ghost predicate AllReach<C(!new)>(r: Report<C>) {
    forall c :: c in r.perCategory ==> r.perCategory[c].Ratio() >= r.threshold
  }

  ghost predicate ReportsCategories<I, C(!new), P>(r: Report<C>, qs: seq<Question<I, C>>, a: Answers<I, P>) {
    && (forall c :: c in r.perCategory <==> Compared(qs, a, c))
    && forall c :: c in r.perCategory ==> r.perCategory[c] == CategoryAgreement(qs, a, Within(c))
  }

  lemma NoneFails<C(!new)>(r: Report<C>)
    ensures AllReach(r) <==> r.FailingCategories() == {}
  {
    hide Agreement.Ratio;
    if r.FailingCategories() == {} {
      forall c | c in r.perCategory ensures r.perCategory[c].Ratio() >= r.threshold {
        assert c !in r.FailingCategories();
      }
    }
  }

  lemma ReachIsMeeting<I, C(!new), P>(r: Report<C>, qs: seq<Question<I, C>>, a: Answers<I, P>)
    requires ReportsCategories(r, qs, a)
    ensures AllReach(r) <==> forall c :: c in r.perCategory ==> Meets(r.perCategory[c], r.threshold)
  {
    forall c | c in r.perCategory ensures r.perCategory[c].Ratio() >= r.threshold <==> Meets(r.perCategory[c], r.threshold) {
      TallyPositive(qs, a, c);
      MeetsThreshold(r.perCategory[c], r.threshold);
    }
    hide Agreement.Ratio, Meets;
  }

  // The overall ratio adds nothing to what the categories say.
  lemma OverallFollows<I, C(!new), P>(r: Report<C>, qs: seq<Question<I, C>>, a: Answers<I, P>)
    requires ReportsCategories(r, qs, a) && r.perCategory.Keys != {} && AllReach(r)
    ensures CategoryAgreement(qs, a, Overall).Ratio() >= r.threshold
  {
    hide Agreement.Ratio, Compared, Tally, CategoryAgreement;
    CategoriesDecide(r.perCategory.Keys, qs, a, r.threshold);
  }

  // The gate consults the overall ratio too, yet the categories alone decide it.
  method CalibrateFromExpected<I(==), C(==,!new), P>(questions: seq<Question<I, C>>, a: Answers<I, P>, threshold: real)
    returns (r: Report<C>)
    ensures r.threshold == threshold
    ensures forall c :: c in r.perCategory <==> Compared(questions, a, c)
    ensures forall c :: c in r.perCategory ==> r.perCategory[c] == CategoryAgreement(questions, a, Within(c))
    ensures r.overall == CategoryAgreement(questions, a, Overall)
    ensures r.passed <==> r.perCategory.Keys != {} && r.FailingCategories() == {}
    ensures r.passed <==> r.perCategory.Keys != {} && forall c :: c in r.perCategory ==> Meets(r.perCategory[c], threshold)
  {
    hide Agreement.Ratio, Meets;
    var perCatMatch: map<C, nat>, perCatTotal: map<C, nat> := map[], map[];
    var overallMatch, overallTotal := 0, 0;
    for i := 0 to |questions|
      invariant Tallied(questions[..i], a, perCatMatch, perCatTotal)
      invariant overallMatch == Tally(questions[..i], a, Overall, true)
      invariant overallTotal == Tally(questions[..i], a, Overall, false)
    {
      var q := questions[i];
      assert questions[..i + 1] == questions[..i] + [q] && questions[..i + 1][..i] == questions[..i];
      TalliedStep(questions[..i], q, a, perCatMatch, perCatTotal);
      if a.Covers(q) {
        overallTotal := overallTotal + 1;
        perCatTotal := perCatTotal[q.category := Get(perCatTotal, q.category) + 1];
        if a.Agree(q) {
          overallMatch := overallMatch + 1;
          perCatMatch := perCatMatch[q.category := Get(perCatMatch, q.category) + 1];
        }
      }
    }
    assert questions[..|questions|] == questions;
    var perCategory := map c | c in perCatTotal :: Agreement(Get(perCatMatch, c), perCatTotal[c]);
    var overall := Agreement(overallMatch, overallTotal);
    var passed := perCategory.Keys != {} && (forall c | c in perCategory :: perCategory[c].Ratio() >= threshold)
                  && overall.Ratio() >= threshold;
    r := Report(perCategory, overall, threshold, passed);
    assert ReportsCategories(r, questions, a);
    NoneFails(r);
    ReachIsMeeting(r, questions, a);
    if perCategory.Keys != {} && AllReach(r) { OverallFollows(r, questions, a); }
  }
}
