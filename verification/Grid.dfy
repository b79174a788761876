/** Benchmark grid expansion and cell identifiers
    (bench/run_bench.py, `expand_grid`; bench/claude_runner.py, `run_id`). */
module Grid {

  import opened Common
  import opened Decimals

  datatype Question = Question(id: string, corpus: string)
  datatype Condition = Condition(id: string)
  datatype Corpus = Corpus(name: string, checkout: string)
  datatype Cell = Cell(question: Question, condition: Condition, corpus: Corpus, model: string, seed: int)

  datatype Expansion = Cells(cells: seq<Cell>) | UnknownCorpus(question: Question)

  // A later record of the same name wins, as in a dict comprehension.
  function ByName(corpora: seq<Corpus>): map<string, Corpus> {
    if corpora == [] then map[]
    else ByName(corpora[..|corpora| - 1])[corpora[|corpora| - 1].name := corpora[|corpora| - 1]]
  }

  lemma {:induction false} LastRecordWins(corpora: seq<Corpus>, name: string)
    ensures name in ByName(corpora) <==> exists i :: 0 <= i < |corpora| && corpora[i].name == name
    ensures name in ByName(corpora) ==>
              exists i :: 0 <= i < |corpora| && corpora[i].name == name && ByName(corpora)[name] == corpora[i]
                          && forall j :: i < j < |corpora| ==> corpora[j].name != name
  {
    if corpora != [] {
      var last := |corpora| - 1;
      LastRecordWins(corpora[..last], name);
      if corpora[last].name == name {
        assert ByName(corpora)[name] == corpora[last];
      } else if name in ByName(corpora) {
        var i :| 0 <= i < last && corpora[..last][i].name == name && ByName(corpora[..last])[name] == corpora[..last][i]
                 && forall j :: i < j < last ==> corpora[..last][j].name != name;
        assert corpora[i].name == name && ByName(corpora)[name] == corpora[i];
        assert forall j :: i < j < last ==> corpora[j] == corpora[..last][j];
      } else {
        forall i | 0 <= i < |corpora| ensures corpora[i].name != name {
          assert i < last ==> corpora[..last][i] == corpora[i];
        }
      }
    }
  }

  // ---- Concatenated rows of equal length ----

  ghost function Rows<T>(n: nat, row: nat -> seq<T>): seq<T> {
    if n == 0 then [] else Rows(n - 1, row) + row(n - 1)
  }

  lemma {:induction false} RowsLength<T>(n: nat, row: nat -> seq<T>, w: nat)
    requires forall i: nat :: i < n ==> |row(i)| == w
    ensures |Rows(n, row)| == n * w
  {
    if n != 0 {
      RowsLength(n - 1, row, w);
      assert n * w == (n - 1) * w + w;
    }
  }

  lemma {:induction false} RowsAt<T>(n: nat, row: nat -> seq<T>, w: nat, i: nat, l: nat)
    requires forall i: nat :: i < n ==> |row(i)| == w
    requires i < n && l < w
    ensures |Rows(n, row)| == n * w && 0 <= i * w + l < n * w
    ensures Rows(n, row)[i * w + l] == row(i)[l]
  {
    RowsLength(n, row, w);
    RowsLength(n - 1, row, w);
    assert n * w == (n - 1) * w + w;
    if i < n - 1 {
      RowsAt(n - 1, row, w, i, l);
    }
  }

  lemma RowsStep<T>(s: seq<T>, n: nat, row: nat -> seq<T>)
    ensures s + Rows(n + 1, row) == s + Rows(n, row) + row(n)
  {
    assert s + (Rows(n, row) + row(n)) == s + Rows(n, row) + row(n);
  }

  lemma AppendOne<T>(s: seq<T>, row: seq<T>, l: nat)
    requires l < |row|
    ensures s + row[..l] + [row[l]] == s + row[..l + 1]
  {
    assert row[..l + 1] == row[..l] + [row[l]];
  }

  // ---- The grid, one level of nesting at a time ----

  datatype Axes = Axes(questions: seq<Question>, conditions: seq<Condition>, corpora: map<string, Corpus>,
                       models: seq<string>, seeds: seq<int>)
  {
    ghost predicate KnownBefore(n: nat)
      requires n <= |questions|
    {
      forall i :: 0 <= i < n ==> questions[i].corpus in corpora
    }

    ghost predicate Known() {
      KnownBefore(|questions|)
    }

    ghost function At(i: nat, j: nat, k: nat, l: nat): Cell
      requires i < |questions| && j < |conditions| && k < |models| && l < |seeds|
      requires questions[i].corpus in corpora
    {
      Cell(questions[i], conditions[j], corpora[questions[i].corpus], models[k], seeds[l])
    }

    ghost function Seeds(i: nat, j: nat, k: nat): seq<Cell>
      requires i < |questions| && j < |conditions| && k < |models|
      requires questions[i].corpus in corpora
    {
      seq(|seeds|, l requires 0 <= l < |seeds| => At(i, j, k, l))
    }

    ghost function Models(i: nat, j: nat): nat -> seq<Cell>
      requires i < |questions| && j < |conditions| && questions[i].corpus in corpora
    {
      (k: nat) => if k < |models| then Seeds(i, j, k) else []
    }

    ghost function Conditions(i: nat): nat -> seq<Cell>
      requires i < |questions| && questions[i].corpus in corpora
    {
      (j: nat) => if j < |conditions| then Rows(|models|, Models(i, j)) else []
    }

    ghost function Questions(): nat -> seq<Cell> {
      (i: nat) => if i < |questions| && questions[i].corpus in corpora then Rows(|conditions|, Conditions(i)) else []
    }

    ghost function PerCondition(): nat {
      |models| * |seeds|
    }

    ghost function PerQuestion(): nat {
      |conditions| * PerCondition()
    }

    // Position of cell (i, j, k, l) in the flat list.
    ghost function Index(i: nat, j: nat, k: nat, l: nat): int {
      i * PerQuestion() + (j * PerCondition() + (k * |seeds| + l))
    }

    ghost function Size(): nat {
      |questions| * PerQuestion()
    }
  }

  lemma ConditionRow(a: Axes, i: nat, j: nat)
    requires i < |a.questions| && j < |a.conditions| && a.questions[i].corpus in a.corpora
    ensures |a.Conditions(i)(j)| == a.PerCondition()
  {
    RowsLength(|a.models|, a.Models(i, j), |a.seeds|);
  }

  lemma QuestionRow(a: Axes, i: nat)
    requires i < |a.questions| && a.questions[i].corpus in a.corpora
    ensures |a.Questions()(i)| == a.PerQuestion()
  {
    forall j: nat | j < |a.conditions| ensures |a.Conditions(i)(j)| == a.PerCondition() { ConditionRow(a, i, j); }
    RowsLength(|a.conditions|, a.Conditions(i), a.PerCondition());
  }

  ghost function Grid(a: Axes): seq<Cell> {
    Rows(|a.questions|, a.Questions())
  }

  lemma GridSize(a: Axes)
    requires a.Known()
    ensures |Grid(a)| == a.Size()
  {
    forall i: nat | i < |a.questions| ensures |a.Questions()(i)| == a.PerQuestion() { QuestionRow(a, i); }
    RowsLength(|a.questions|, a.Questions(), a.PerQuestion());
  }

  lemma IndexIsRowMajor(a: Axes, i: nat, j: nat, k: nat, l: nat)
    ensures a.Index(i, j, k, l) == ((i * |a.conditions| + j) * |a.models| + k) * |a.seeds| + l
    ensures a.Size() == |a.questions| * |a.conditions| * |a.models| * |a.seeds|
  {
    var q, c, m, s := |a.questions|, |a.conditions|, |a.models|, |a.seeds|;
    Horner(i, j, k, l, c, m, s);
    Horner(q, 0, 0, 0, c, m, s);
  }

  lemma Horner(i: int, j: int, k: int, l: int, c: int, m: int, s: int)
    ensures ((i * c + j) * m + k) * s + l == i * (c * (m * s)) + (j * (m * s) + (k * s + l))
  {
    assert (i * c + j) * m == i * (c * m) + j * m;
    assert (i * (c * m) + j * m + k) * s == (i * (c * m)) * s + (j * m) * s + k * s;
    assert (i * (c * m)) * s == i * (c * (m * s)) by { assert (c * m) * s == c * (m * s); }
    assert (j * m) * s == j * (m * s);
  }

  lemma ConditionRowAt(a: Axes, i: nat, j: nat, k: nat, l: nat, r: int)
    requires i < |a.questions| && j < |a.conditions| && k < |a.models| && l < |a.seeds|
    requires a.questions[i].corpus in a.corpora && r == k * |a.seeds| + l
    ensures 0 <= r < a.PerCondition() == |a.Conditions(i)(j)| && a.Conditions(i)(j)[r] == a.At(i, j, k, l)
  {
    RowsAt(|a.models|, a.Models(i, j), |a.seeds|, k, l);
    ConditionRow(a, i, j);
  }

  lemma QuestionRowAt(a: Axes, i: nat, j: nat, r: nat, p: int)
    requires i < |a.questions| && a.questions[i].corpus in a.corpora
    requires j < |a.conditions| && r < a.PerCondition() == |a.Conditions(i)(j)| && p == j * a.PerCondition() + r
    ensures 0 <= p < a.PerQuestion() == |a.Questions()(i)| && a.Questions()(i)[p] == a.Conditions(i)(j)[r]
  {
    hide Axes.PerCondition, Axes.PerQuestion;
    forall j: nat | j < |a.conditions| ensures |a.Conditions(i)(j)| == a.PerCondition() { ConditionRow(a, i, j); }
    RowsAt(|a.conditions|, a.Conditions(i), a.PerCondition(), j, r);
    QuestionRow(a, i);
  }

  lemma GridRowAt(a: Axes, i: nat, p: nat, x: int)
    requires a.Known() && i < |a.questions|
    requires p < a.PerQuestion() == |a.Questions()(i)|
    requires x == i * a.PerQuestion() + p
    ensures 0 <= x < |Grid(a)| && Grid(a)[x] == a.Questions()(i)[p]
  {
    hide Axes.PerCondition, Axes.PerQuestion;
    forall i: nat | i < |a.questions| ensures |a.Questions()(i)| == a.PerQuestion() { QuestionRow(a, i); }
    RowsAt(|a.questions|, a.Questions(), a.PerQuestion(), i, p);
  }

  // The flat list holds exactly one cell per coordinate, in row-major order.
  lemma GridAt(a: Axes, i: nat, j: nat, k: nat, l: nat)
    requires a.Known() && i < |a.questions| && j < |a.conditions| && k < |a.models| && l < |a.seeds|
    ensures |Grid(a)| == a.Size()
    ensures 0 <= a.Index(i, j, k, l) < |Grid(a)|
    ensures Grid(a)[a.Index(i, j, k, l)] == a.At(i, j, k, l)
  {
    var r := k * |a.seeds| + l;
    var p := j * a.PerCondition() + r;
    ConditionRowAt(a, i, j, k, l, r);
    QuestionRowAt(a, i, j, r, p);
    GridRowAt(a, i, p, a.Index(i, j, k, l));
    GridSize(a);
  }

  lemma LessByFactor(i: int, n: int, w: nat)
    requires i * w < n * w
    ensures i < n
  {
    assert (n - i) * w > 0;
  }

  lemma SplitIndex(p: int, n: nat, w: nat) returns (i: nat, l: nat)
    requires 0 <= p < n * w
    ensures i < n && l < w && p == i * w + l
  {
    assert w > 0;
    i, l := p / w, p % w;
    assert p == i * w + l;
    LessByFactor(i, n, w);
  }

  // Every position is the index of some coordinate.
  lemma IndexOnto(a: Axes, p: int) returns (i: nat, j: nat, k: nat, l: nat)
    requires 0 <= p < a.Size()
    ensures i < |a.questions| && j < |a.conditions| && k < |a.models| && l < |a.seeds|
    ensures p == a.Index(i, j, k, l)
  {
    var rest, rest';
    i, rest := SplitIndex(p, |a.questions|, a.PerQuestion());
    j, rest' := SplitIndex(rest, |a.conditions|, a.PerCondition());
    k, l := SplitIndex(rest', |a.models|, |a.seeds|);
  }

  // ---- Identifiers ----

  function RunId(c: Cell): string {
    c.question.id + "_" + c.condition.id + "_" + c.model + "_s" + Integer(c.seed)
  }

  // What the loaders enforce: question ids match ^[a-z0-9-]+$ (a final newline
  // slips past the anchor) and condition ids are A, B, C or D.
  predicate NameChar(c: char) {
    'a' <= c <= 'z' || IsDigit(c) || c == '-'
  }

  predicate NameChars(s: string) {
    s != "" && forall c :: c in s ==> NameChar(c)
  }

  predicate ValidQuestionId(id: string) {
    NameChars(id) || (id != "" && id[|id| - 1] == '\n' && NameChars(id[..|id| - 1]))
  }

  predicate ValidConditionId(id: string) {
    id in {"A", "B", "C", "D"}
  }

  lemma ValidIdsHaveNoUnderscore(id: string)
    requires ValidQuestionId(id) || ValidConditionId(id)
    ensures '_' !in id
  {
    if ValidQuestionId(id) && !NameChars(id) {
      var body := id[..|id| - 1];
      assert id == body + ['\n'];
      assert forall c :: c in id ==> c in body || c == '\n';
    }
    assert '_' !in "A" && '_' !in "B" && '_' !in "C" && '_' !in "D";
  }

  lemma {:induction false} FirstUnderscore(a: string, x: string, b: string, y: string)
    requires '_' !in a && '_' !in b && a + "_" + x == b + "_" + y
    ensures a == b && x == y
  {
    var s := a + "_" + x;
    assert s[0] == (if a == "" then '_' else a[0]) && s[0] == if b == "" then '_' else b[0];
    if a == "" || b == "" {
      assert a == b == "";
      assert s[1..] == x == y;
    } else {
      assert s[1..] == a[1..] + "_" + x == b[1..] + "_" + y;
      FirstUnderscore(a[1..], x, b[1..], y);
      assert a == [a[0]] + a[1..] && b == [b[0]] + b[1..];
    }
  }

  lemma {:induction false} LastUnderscore(x: string, a: string, y: string, b: string)
    requires '_' !in a && '_' !in b && x + "_" + a == y + "_" + b
    ensures x == y && a == b
  {
    var s := x + "_" + a;
    var n := |s| - 1;
    assert s[n] == (if a == "" then '_' else a[|a| - 1]) && s[n] == if b == "" then '_' else b[|b| - 1];
    if a == "" || b == "" {
      assert a == b == "";
      assert s[..n] == x == y;
    } else {
      assert s[..n] == x + "_" + a[..|a| - 1] == y + "_" + b[..|b| - 1];
      LastUnderscore(x, a[..|a| - 1], y, b[..|b| - 1]);
      assert a == a[..|a| - 1] + [a[|a| - 1]] && b == b[..|b| - 1] + [b[|b| - 1]];
    }
  }

  ghost predicate Validated(c: Cell) {
    ValidQuestionId(c.question.id) && ValidConditionId(c.condition.id)
  }

  // A run id determines question id, condition id, model and seed, although
  // model names may contain underscores.
  lemma RunIdInjective(c: Cell, d: Cell)
    requires Validated(c) && Validated(d) && RunId(c) == RunId(d)
    ensures c.question.id == d.question.id && c.condition.id == d.condition.id
    ensures c.model == d.model && c.seed == d.seed
  {
    ValidIdsHaveNoUnderscore(c.question.id);
    ValidIdsHaveNoUnderscore(d.question.id);
    ValidIdsHaveNoUnderscore(c.condition.id);
    ValidIdsHaveNoUnderscore(d.condition.id);
    RunIdParts(c);
    RunIdParts(d);
    var cs, ds := "s" + Integer(c.seed), "s" + Integer(d.seed);
    PartsInjective(c.question.id, c.condition.id, c.model, cs, d.question.id, d.condition.id, d.model, ds);
    assert cs[1..] == Integer(c.seed) && ds[1..] == Integer(d.seed);
    IntegerInjective(c.seed, d.seed);
  }

  lemma RunIdParts(c: Cell)
    ensures RunId(c) == c.question.id + "_" + (c.condition.id + "_" + (c.model + "_" + ("s" + Integer(c.seed))))
  {
    assert "_s" == "_" + "s";
  }

  lemma PartsInjective(q: string, c: string, m: string, s: string, q': string, c': string, m': string, s': string)
    requires '_' !in q && '_' !in c && '_' !in s && '_' !in q' && '_' !in c' && '_' !in s'
    requires q + "_" + (c + "_" + (m + "_" + s)) == q' + "_" + (c' + "_" + (m' + "_" + s'))
    ensures q == q' && c == c' && m == m' && s == s'
  {
    FirstUnderscore(q, c + "_" + (m + "_" + s), q', c' + "_" + (m' + "_" + s'));
    FirstUnderscore(c, m + "_" + s, c', m' + "_" + s');
    LastUnderscore(m, s, m', s');
  }

  predicate NameUpTo(id: string, n: nat) {
    0 < n <= |id| && forall i :: 0 <= i < n ==> 'a' <= id[i] <= 'z' || '0' <= id[i] <= '9' || id[i] == '-'
  }

  lemma NameUpToExactly(id: string, n: nat)
    requires n <= |id|
    ensures NameChars(id[..n]) <==> NameUpTo(id, n)
  {
    assert forall i :: 0 <= i < n ==> id[..n][i] == id[i];
    assert forall i :: 0 <= i < n ==> id[i] in id[..n];
  }

  // A valid id consists of lower-case letters, digits and hyphens, at least one,
  // and perhaps a line feed at the end.
  lemma QuestionIdExactly(id: string)
    ensures ValidQuestionId(id) <==> NameUpTo(id, |id|) || (id != "" && id[|id| - 1] == '\n' && NameUpTo(id, |id| - 1))
  {
    hide NameUpTo, NameChars;
    NameUpToExactly(id, |id|);
    assert id[..|id|] == id;
    if id != "" { NameUpToExactly(id, |id| - 1); }
  }

  // The parts in order, the seed marked.
  lemma RunIdReads(m: string, k: Corpus)
    ensures RunId(Cell(Question("fan-in", "k"), Condition("B"), k, m, -7)) == "fan-in_B_" + m + "_s-7"
  {
    assert Decimal(7) == "7";
    assert Integer(-7) == "-7";
    assert "fan-in" + "_" + "B" + "_" == "fan-in_B_";
    assert "_s" + "-7" == "_s-7";
    assert "fan-in" + "_" + "B" + "_" + m + "_s" + "-7" == "fan-in_B_" + m + "_s-7";
  }

  // Without the id check two different cells can share a directory.
  lemma UnderscoreCollides()
    ensures var c := Corpus("k", "");
            var a := Cell(Question("x", "k"), Condition("A"), c, "A_m", 0);
            var b := Cell(Question("x_A", "k"), Condition("A"), c, "m", 0);
            a.question != b.question && RunId(a) == RunId(b)
  {
    assert "x" + "_" + "A" + "_" + "A_m" == "x_A" + "_" + "A" + "_" + "m";
  }

  // The longer id continues the shorter one with a condition id.
  ghost predicate Extends(q: string, q': string) {
    exists c :: ValidConditionId(c) && (q' == q + "_" + c || q + "_" + c + "_" <= q')
  }

  // Some cells of two questions share a run id, whatever models they run.
  ghost predicate CanCollide(q: string, q': string) {
    exists c: Cell, d: Cell :: SharedId(c, d) && c.question.id == q && d.question.id == q'
  }

  ghost predicate SharedId(c: Cell, d: Cell) {
    ValidConditionId(c.condition.id) && ValidConditionId(d.condition.id) && RunId(c) == RunId(d)
  }

  // Exactly when one of two different ids extends the other can they collide.
  lemma CollideExactly(q: string, q': string)
    requires q != q'
    ensures CanCollide(q, q') <==> Extends(q, q') || Extends(q', q)
  {
    if CanCollide(q, q') {
      var c, d :| SharedId(c, d) && c.question.id == q && d.question.id == q';
      if |q| <= |q'| { CollisionExtends(c, d); } else { CollisionExtends(d, c); }
    }
    if Extends(q, q') {
      var c, d := ExtensionCollides(q, q');
    } else if Extends(q', q) {
      var d, c := ExtensionCollides(q', q);
      assert SharedId(c, d);
    }
  }

  lemma WithoutSeed(c: Cell, d: Cell)
    requires RunId(c) == RunId(d)
    ensures c.question.id + "_" + c.condition.id + "_" + c.model == d.question.id + "_" + d.condition.id + "_" + d.model
  {
    var a, b := c.question.id + "_" + c.condition.id + "_" + c.model, d.question.id + "_" + d.condition.id + "_" + d.model;
    var x, y := "s" + Integer(c.seed), "s" + Integer(d.seed);
    assert "_s" == "_" + "s";
    assert a + "_" + x == RunId(c) && b + "_" + y == RunId(d);
    LastUnderscore(a, x, b, y);
  }

  lemma CollisionExtends(c: Cell, d: Cell)
    requires SharedId(c, d) && c.question.id != d.question.id && |c.question.id| <= |d.question.id|
    ensures Extends(c.question.id, d.question.id)
  {
    WithoutSeed(c, d);
    hide RunId;
    var q, q', x := c.question.id, d.question.id, c.condition.id;
    var t := q + "_" + x + "_" + c.model;
    var n, m := |q|, |q'|;
    OneLetter(x);
    assert t[..n] == q && t[n] == '_' && t[n + 1] == x[0] && t[n + 2] == '_';
    assert t == q' + "_" + d.condition.id + "_" + d.model;
    assert t[..m] == q' && t[m] == '_';
    assert m > n + 1;
    assert t[..n + 2] == q + "_" + x && t[..n + 3] == q + "_" + x + "_";
    if m > n + 2 {
      assert q'[..n + 3] == t[..n + 3];
    }
  }

  lemma OneLetter(x: string)
    requires ValidConditionId(x)
    ensures |x| == 1 && x[0] != '_'
  {
  }

  lemma ExtensionCollides(q: string, q': string) returns (c: Cell, d: Cell)
    requires Extends(q, q')
    ensures SharedId(c, d) && c.question.id == q && d.question.id == q'
  {
    var x :| ValidConditionId(x) && (q' == q + "_" + x || q + "_" + x + "_" <= q');
    var p := q + "_" + x;
    var k := Corpus("k", "");
    d := Cell(Question(q', "k"), Condition("A"), k, "m", 0);
    var model := if q' == p then "A_m" else q'[|p| + 1..] + "_A_m";
    c := Cell(Question(q, "k"), Condition(x), k, model, 0);
    assert q' != p ==> q' == p + "_" + q'[|p| + 1..];
    assert q' + "_" + "A" + "_" + "m" == p + "_" + model;
  }

  // ---- Distinct inputs give distinct directories ----

  ghost predicate DuplicateFree(a: Axes) {
    && (forall i, j :: 0 <= i < j < |a.questions| ==> a.questions[i].id != a.questions[j].id)
    && (forall i, j :: 0 <= i < j < |a.conditions| ==> a.conditions[i].id != a.conditions[j].id)
    && Distinct(a.models) && Distinct(a.seeds)
  }

  function Ids(cells: seq<Cell>): (ids: seq<string>)
    ensures |ids| == |cells| && forall p :: 0 <= p < |cells| ==> ids[p] == RunId(cells[p])
  {
    seq(|cells|, p requires 0 <= p < |cells| => RunId(cells[p]))
  }

  lemma SameCoordinates(a: Axes, i: nat, j: nat, k: nat, l: nat, i': nat, j': nat, k': nat, l': nat)
    requires a.Known() && DuplicateFree(a)
    requires i < |a.questions| && j < |a.conditions| && k < |a.models| && l < |a.seeds|
    requires i' < |a.questions| && j' < |a.conditions| && k' < |a.models| && l' < |a.seeds|
    requires a.questions[i].id == a.questions[i'].id && a.conditions[j].id == a.conditions[j'].id
    requires a.models[k] == a.models[k'] && a.seeds[l] == a.seeds[l']
    ensures i == i' && j == j' && k == k' && l == l'
  {
  }

  lemma CellIdsDistinct(a: Axes, cells: seq<Cell>)
    requires a.Known() && DuplicateFree(a) && cells == Grid(a)
    requires forall i :: 0 <= i < |a.questions| ==> ValidQuestionId(a.questions[i].id)
    requires forall j :: 0 <= j < |a.conditions| ==> ValidConditionId(a.conditions[j].id)
    ensures Distinct(Ids(cells))
  {
    GridSize(a);
    forall p, r | 0 <= p < r < |cells| ensures RunId(cells[p]) != RunId(cells[r]) {
      var i, j, k, l := IndexOnto(a, p);
      var i', j', k', l' := IndexOnto(a, r);
      GridAt(a, i, j, k, l);
      GridAt(a, i', j', k', l');
      if RunId(cells[p]) == RunId(cells[r]) {
        RunIdInjective(cells[p], cells[r]);
        SameCoordinates(a, i, j, k, l, i', j', k', l');
      }
    }
  }

  // ---- The program ----

  // The two inner loops: all models and seeds of one question and condition.
  method ExpandModels(ghost a: Axes, ghost i: nat, ghost j: nat, question: Question, condition: Condition, corpus: Corpus,
                      models: seq<string>, seeds: seq<int>, before: seq<Cell>) returns (cells: seq<Cell>)
    requires i < |a.questions| && j < |a.conditions| && models == a.models && seeds == a.seeds
    requires a.questions[i] == question && a.conditions[j] == condition
    requires question.corpus in a.corpora && a.corpora[question.corpus] == corpus
    ensures cells == before + a.Conditions(i)(j)
  {
    cells := before;
    for k := 0 to |models|
      invariant cells == before + Rows(k, a.Models(i, j))
    {
      ghost var start, row := cells, a.Seeds(i, j, k);
      for l := 0 to |seeds|
        invariant cells == start + row[..l]
      {
        AppendOne(start, row, l);
        cells := cells + [Cell(question, condition, corpus, models[k], seeds[l])];
      }
      assert row[..|seeds|] == row == a.Models(i, j)(k);
      RowsStep(before, k, a.Models(i, j));
    }
  }

  method ExpandConditions(ghost a: Axes, ghost i: nat, question: Question, corpus: Corpus, conditions: seq<Condition>,
                          models: seq<string>, seeds: seq<int>, before: seq<Cell>) returns (cells: seq<Cell>)
    requires i < |a.questions| && conditions == a.conditions && models == a.models && seeds == a.seeds
    requires a.questions[i] == question
    requires question.corpus in a.corpora && a.corpora[question.corpus] == corpus
    ensures cells == before + a.Questions()(i)
  {
    cells := before;
    for j := 0 to |conditions|
      invariant cells == before + Rows(j, a.Conditions(i))
    {
      cells := ExpandModels(a, i, j, question, conditions[j], corpus, models, seeds, cells);
      RowsStep(before, j, a.Conditions(i));
    }
  }

  // The expansion is the whole grid, or names the first question without a
  // corpus record, at position `at`.
  ghost predicate ExpansionOf(a: Axes, r: Expansion, at: nat) {
    match r
    case Cells(cells) => a.Known() && cells == Grid(a)
    case UnknownCorpus(q) =>
      at < |a.questions| && a.questions[at] == q && q.corpus !in a.corpora && a.KnownBefore(at)
  }

  ghost predicate BuiltBefore(a: Axes, i: nat, cells: seq<Cell>) {
    i <= |a.questions| && a.KnownBefore(i) && cells == Rows(i, a.Questions())
  }

  method ExpandGrid(questions: seq<Question>, conditions: seq<Condition>, corpora: seq<Corpus>,
                    models: seq<string>, seeds: seq<int>) returns (r: Expansion, ghost at: nat)
    ensures ExpansionOf(Axes(questions, conditions, ByName(corpora), models, seeds), r, at)
  {
    hide ByName, Axes.Conditions, Axes.Models, Axes.Seeds;
    var corpusByName := ByName(corpora);
    ghost var a := Axes(questions, conditions, corpusByName, models, seeds);
    var cells: seq<Cell> := [];
    at := 0;
    for i := 0 to |questions|
      invariant BuiltBefore(a, i, cells)
    {
      var question := questions[i];
      at := i;
      if question.corpus !in corpusByName {
        return UnknownCorpus(question), at;
      }
      cells := ExpandConditions(a, i, question, corpusByName[question.corpus], conditions, models, seeds, cells);
    }
    r := Cells(cells);
  }
}
