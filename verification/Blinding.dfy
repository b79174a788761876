/** Scrubbing tool names from transcripts (bench/grade.py, `TOOL_NAME_RE` and
    `blind_transcript`; verbs from bench/load_conditions.py).

    The pattern is
      \b(?:mcp__jrag__\w+|jrag(?:\s+(?:verb|...))?|Grep|Glob|Read|Bash)\b
    given twice: as the language it describes (`Matches`) and as the backtracking
    search that picks one match at the front of a text (`MatchLen`). */
module Blinding {

  import opened Common

  const LITERALS: seq<string> := ["Grep", "Glob", "Read", "Bash"]
  const PREFIX := "mcp__jrag__"
  const TOOL := "[tool]"

  predicate Lower(c: char) {
    'a' <= c <= 'z'
  }

  predicate AsciiWord(c: char) {
    'A' <= c <= 'Z' || Lower(c) || '0' <= c <= '9' || c == '_'
  }

  predicate AsciiSpace(c: char) {
    c == ' ' || 9 <= c as int <= 13 || 28 <= c as int <= 31
  }

  // The verb list, and how the regex engine classes characters beyond ASCII.
  datatype Pattern = Pattern(verbs: seq<string>, wordBeyond: char -> bool, spaceBeyond: char -> bool) {

    predicate Word(c: char) {
      if c as int < 128 then AsciiWord(c) else wordBeyond(c)
    }

    predicate Space(c: char) {
      if c as int < 128 then AsciiSpace(c) else spaceBeyond(c) && !wordBeyond(c)
    }

    // Verbs are lower-case words joined by dashes.
    ghost predicate WellFormed() {
      forall v :: v in verbs ==>
        |v| > 0 && Lower(v[0]) && Lower(v[|v| - 1]) && forall i :: 0 <= i < |v| ==> Lower(v[i]) || v[i] == '-'
    }

    predicate WordBefore(s: string, i: nat)
      requires i <= |s|
    {
      i > 0 && Word(s[i - 1])
    }

    predicate WordAfter(s: string, i: nat)
      requires i <= |s|
    {
      i < |s| && Word(s[i])
    }

    // \b
    predicate Boundary(s: string, i: nat)
      requires i <= |s|
    {
      WordBefore(s, i) != WordAfter(s, i)
    }

    // ---- The language ----

    ghost predicate Spaces(t: string) {
      t != "" && forall i :: 0 <= i < |t| ==> Space(t[i])
    }

    ghost predicate McpToken(t: string) {
      PREFIX < t && forall i :: |PREFIX| <= i < |t| ==> Word(t[i])
    }

    ghost predicate VerbToken(t: string, k: nat) {
      "jrag" <= t && 4 + k < |t| && Spaces(t[4..4 + k]) && t[4 + k..] in verbs
    }

    ghost predicate Token(t: string) {
      t == "jrag" || t in LITERALS || McpToken(t) || exists k: nat :: VerbToken(t, k)
    }

    ghost predicate Matches(s: string, i: nat, j: nat) {
      i < j <= |s| && Boundary(s, i) && Boundary(s, j) && Token(s[i..j])
    }

    // ---- The engine, at the front of a text ----

    function WordRun(t: string, i: nat): (j: nat)
      requires i <= |t|
      ensures i <= j <= |t|
      ensures forall k :: i <= k < j ==> Word(t[k])
      ensures j < |t| ==> !Word(t[j])
      decreases |t| - i
    {
      if i < |t| && Word(t[i]) then WordRun(t, i + 1) else i
    }

    function SpaceRun(t: string, i: nat): (j: nat)
      requires i <= |t|
      ensures i <= j <= |t|
      ensures forall k :: i <= k < j ==> Space(t[k])
      ensures j < |t| ==> !Space(t[j])
      decreases |t| - i
    {
      if i < |t| && Space(t[i]) then SpaceRun(t, i + 1) else i
    }

    predicate LiteralAt(t: string, i: nat, w: string)
      requires i <= |t|
    {
      w <= t[i..] && Boundary(t, i + |w|)
    }

    // The first of `ws` that fits at `i` with a boundary after it.
    function FirstFit(t: string, i: nat, ws: seq<string>): (r: Option<nat>)
      requires i <= |t|
      ensures r.Some? ==> exists w :: w in ws && LiteralAt(t, i, w) && r.value == i + |w|
      ensures r.None? ==> forall w :: w in ws ==> !LiteralAt(t, i, w)
    {
      if ws == [] then None
      else if LiteralAt(t, i, ws[0]) then Some(i + |ws[0]|)
      else FirstFit(t, i, ws[1..])
    }

    // \s+ verb: give spaces back one at a time until a verb fits.
    function SpacesThenVerb(t: string, i: nat, j: nat): Option<nat>
      requires i <= j <= |t|
    {
      if j == i then None
      else
        var r := FirstFit(t, j, verbs);
        if r.Some? then r else SpacesThenVerb(t, i, j - 1)
    }

    function Mcp(t: string): Option<nat> {
      if PREFIX <= t && WordRun(t, |PREFIX|) > |PREFIX| then Some(WordRun(t, |PREFIX|)) else None
    }

    function Jrag(t: string): Option<nat> {
      if "jrag" <= t then
        var r := SpacesThenVerb(t, 4, SpaceRun(t, 4));
        if r.Some? then r
        else if Boundary(t, 4) then Some(4) else None
      else None
    }

    // Length of the match the engine finds at the front of `t`, alternatives in
    // order; `ctx` says whether a word character stands before `t`.
    function MatchLen(ctx: bool, t: string): Option<nat> {
      if ctx == WordAfter(t, 0) then None
      else if Mcp(t).Some? then Mcp(t)
      else if Jrag(t).Some? then Jrag(t)
      else FirstFit(t, 0, LITERALS)
    }

    // The language again, at the front of a text.
    ghost predicate MatchesFront(ctx: bool, t: string, n: nat) {
      0 < n <= |t| && ctx != WordAfter(t, 0) && Boundary(t, n) && Token(t[..n])
    }
  }

  // ---- The engine finds a match exactly where the language has one ----

  // `jrag`, spaces up to `e`, then the verb `v`.
  ghost predicate VerbShape(p: Pattern, t: string, e: nat, v: string) {
    && 4 < e && e + |v| <= |t| && v in p.verbs
    && "jrag" <= t && v <= t[e..]
    && forall x :: 4 <= x < e ==> p.Space(t[x])
  }

  lemma ShapeIsToken(p: Pattern, t: string, e: nat, v: string)
    requires VerbShape(p, t, e, v) && v != ""
    ensures p.Token(t[..e + |v|])
  {
    var u, k := t[..e + |v|], e - 4;
    var ws := u[4..4 + k];
    assert u[4 + k..] == v;
    forall x | 0 <= x < k ensures p.Space(ws[x]) {
      assert ws[x] == t[4 + x];
    }
    assert p.VerbToken(u, k);
  }

  lemma TokenIsShape(p: Pattern, t: string, n: nat, k: nat)
    requires n <= |t| && p.VerbToken(t[..n], k)
    ensures VerbShape(p, t, 4 + k, t[4 + k..n])
  {
    var u := t[..n];
    var v := u[4 + k..];
    assert v == t[4 + k..n];
    assert t[4 + k..][..|v|] == v;
    forall x | 4 <= x < 4 + k ensures p.Space(t[x]) {
      assert u[4..4 + k][x - 4] == t[x];
    }
  }

  lemma {:induction false} SpacesThenVerbSound(p: Pattern, t: string, i: nat, j: nat) returns (e: nat)
    requires i <= j <= |t| && p.SpacesThenVerb(t, i, j).Some?
    ensures i < e <= j && p.FirstFit(t, e, p.verbs) == p.SpacesThenVerb(t, i, j)
  {
    if p.FirstFit(t, j, p.verbs).Some? {
      e := j;
    } else {
      e := SpacesThenVerbSound(p, t, i, j - 1);
    }
  }

  lemma {:induction false} SpacesThenVerbFinds(p: Pattern, t: string, i: nat, j: nat, e: nat)
    requires i < e <= j <= |t| && p.FirstFit(t, e, p.verbs).Some?
    ensures p.SpacesThenVerb(t, i, j).Some?
  {
    if e < j {
      SpacesThenVerbFinds(p, t, i, j - 1, e);
    }
  }

  lemma VerbSound(p: Pattern, t: string, j: nat)
    requires p.WellFormed() && "jrag" <= t && 4 <= j <= |t| && (forall x :: 4 <= x < j ==> p.Space(t[x]))
    requires p.SpacesThenVerb(t, 4, j).Some?
    ensures var n := p.SpacesThenVerb(t, 4, j).value; 0 < n <= |t| && p.Boundary(t, n) && p.Token(t[..n])
  {
    hide Pattern.Token, Pattern.FirstFit, Pattern.SpacesThenVerb, Pattern.Space;
    var e := SpacesThenVerbSound(p, t, 4, j);
    var v :| v in p.verbs && p.LiteralAt(t, e, v) && p.SpacesThenVerb(t, 4, j).value == e + |v|;
    ShapeIsToken(p, t, e, v);
  }

  lemma JragSound(p: Pattern, t: string)
    requires p.WellFormed() && p.Jrag(t).Some?
    ensures var n := p.Jrag(t).value; 0 < n <= |t| && p.Boundary(t, n) && p.Token(t[..n])
  {
    hide Pattern.Token, Pattern.FirstFit, Pattern.SpacesThenVerb, Pattern.WellFormed, Pattern.Boundary;
    var j := p.SpaceRun(t, 4);
    if p.SpacesThenVerb(t, 4, j).Some? {
      VerbSound(p, t, j);
    } else {
      JragIsToken(p, t);
    }
  }

  lemma JragIsToken(p: Pattern, t: string)
    requires "jrag" <= t
    ensures p.Token(t[..4])
  {
  }

  lemma McpSound(p: Pattern, t: string)
    requires p.Mcp(t).Some?
    ensures var n := p.Mcp(t).value; 0 < n <= |t| && p.Boundary(t, n) && p.Token(t[..n])
  {
    var u := t[..p.Mcp(t).value];
    assert forall k :: |PREFIX| <= k < |u| ==> u[k] == t[k];
    assert p.McpToken(u);
  }

  lemma LiteralsNonEmpty(w: string)
    requires w in LITERALS
    ensures w != ""
  {
  }

  lemma LiteralSound(p: Pattern, t: string)
    requires p.FirstFit(t, 0, LITERALS).Some?
    ensures var n := p.FirstFit(t, 0, LITERALS).value; 0 < n <= |t| && p.Boundary(t, n) && p.Token(t[..n])
  {
    hide LITERALS, Pattern.McpToken, Pattern.VerbToken, Pattern.FirstFit;
    var r := p.FirstFit(t, 0, LITERALS);
    var w :| w in LITERALS && p.LiteralAt(t, 0, w) && r.value == |w|;
    assert t[0..] == t && t[..|w|] == w;
    LiteralsNonEmpty(w);
  }

  lemma EngineSound(p: Pattern, ctx: bool, t: string)
    requires p.WellFormed() && p.MatchLen(ctx, t).Some?
    ensures p.MatchesFront(ctx, t, p.MatchLen(ctx, t).value)
  {
    hide Pattern.Token, Pattern.Mcp, Pattern.Jrag, Pattern.FirstFit;
    if p.Mcp(t).Some? {
      McpSound(p, t);
    } else if p.Jrag(t).Some? {
      JragSound(p, t);
    } else {
      LiteralSound(p, t);
    }
  }

  lemma {:induction false} SpaceRunReaches(p: Pattern, t: string, i: nat, e: nat)
    requires i <= e <= |t| && forall k :: i <= k < e ==> p.Space(t[k])
    ensures p.SpaceRun(t, i) >= e
    decreases e - i
  {
    if i < e {
      SpaceRunReaches(p, t, i + 1, e);
    }
  }

  lemma VerbFound(p: Pattern, t: string, e: nat, v: string)
    requires VerbShape(p, t, e, v) && p.Boundary(t, e + |v|)
    ensures p.Jrag(t).Some?
  {
    SpaceRunReaches(p, t, 4, e);
    assert p.LiteralAt(t, e, v);
    SpacesThenVerbFinds(p, t, 4, p.SpaceRun(t, 4), e);
  }

  lemma EngineComplete(p: Pattern, ctx: bool, t: string, n: nat)
    requires p.WellFormed() && p.MatchesFront(ctx, t, n)
    ensures p.MatchLen(ctx, t).Some?
  {
    var u := t[..n];
    assert t[0..] == t && u <= t;
    if u in LITERALS {
      assert p.LiteralAt(t, 0, u);
    } else if u == "jrag" {
      assert p.Jrag(t).Some?;
    } else if p.McpToken(u) {
      McpComplete(p, t, n);
    } else {
      VerbComplete(p, t, n);
    }
  }

  lemma McpComplete(p: Pattern, t: string, n: nat)
    requires n <= |t| && p.McpToken(t[..n]) && p.Boundary(t, n)
    ensures p.Mcp(t).Some?
  {
    assert t[|PREFIX|] == t[..n][|PREFIX|];
    assert p.WordRun(t, |PREFIX|) > |PREFIX|;
  }

  lemma VerbComplete(p: Pattern, t: string, n: nat)
    requires n <= |t| && p.Boundary(t, n) && exists k: nat :: p.VerbToken(t[..n], k)
    ensures p.Jrag(t).Some?
  {
    var k: nat :| p.VerbToken(t[..n], k);
    TokenIsShape(p, t, n, k);
    VerbFound(p, t, 4 + k, t[4 + k..n]);
  }

  // ---- Substitution ----

  // re.sub on the rest `t` of the text: leftmost matches, left to right.
  function BlindRest(p: Pattern, ctx: bool, t: string): string
    decreases |t|
  {
    if t == "" then ""
    else
      var r := p.MatchLen(ctx, t);
      if r.Some? && 0 < r.value <= |t| then
        TOOL + BlindRest(p, p.Word(t[r.value - 1]), t[r.value..])
      else
        [t[0]] + BlindRest(p, p.Word(t[0]), t[1..])
  }

  function Blind(p: Pattern, s: string): string {
    BlindRest(p, false, s)
  }

  ghost predicate Bracketless(t: string) {
    '[' !in t && ']' !in t
  }

  lemma TokenShape(p: Pattern, t: string)
    requires p.WellFormed() && p.Token(t)
    ensures |t| >= 4 && Bracketless(t) && p.Word(t[0]) && p.Word(t[|t| - 1])
    ensures t != "tool"
  {
    if p.McpToken(t) {
      assert t[0] == 'm' && forall i :: 0 <= i < |t| ==> p.Word(t[i]) by {
        assert forall i :: 0 <= i < |PREFIX| ==> t[i] == PREFIX[i];
      }
    } else if t != "jrag" && t !in LITERALS {
      var k: nat :| p.VerbToken(t, k);
      VerbTokenShape(p, t, k);
    }
  }

  lemma VerbTokenShape(p: Pattern, t: string, k: nat)
    requires p.WellFormed() && p.VerbToken(t, k)
    ensures |t| > 4 && Bracketless(t) && t[0] == 'j' && p.Word(t[|t| - 1])
  {
    var ws, v := t[4..4 + k], t[4 + k..];
    assert t == "jrag" + ws + v;
    assert v[|v| - 1] == t[|t| - 1];
    assert forall c :: c in ws ==> p.Space(c);
    assert forall c :: c in v ==> Lower(c) || c == '-';
  }

  // What a step of the substitution does.
  lemma MatchStep(p: Pattern, ctx: bool, t: string)
    requires p.WellFormed() && p.MatchLen(ctx, t).Some?
    ensures var n := p.MatchLen(ctx, t).value;
            0 < n <= |t| && !p.WordAfter(t, n) && p.Word(t[0]) && !ctx
            && BlindRest(p, ctx, t) == TOOL + BlindRest(p, true, t[n..])
  {
    hide Pattern.MatchLen, Pattern.Token;
    EngineSound(p, ctx, t);
    var n := p.MatchLen(ctx, t).value;
    TokenShape(p, t[..n]);
    assert t[n - 1] == t[..n][n - 1] && t[0] == t[..n][0];
  }

  lemma CopyStep(p: Pattern, ctx: bool, t: string)
    requires t != "" && p.MatchLen(ctx, t).None?
    ensures BlindRest(p, ctx, t) == [t[0]] + BlindRest(p, p.Word(t[0]), t[1..])
  {
    hide Pattern.MatchLen;
  }

  lemma UnbracketedIsCopied(p: Pattern, ctx: bool, t: string)
    requires BlindRest(p, ctx, t) != "" && BlindRest(p, ctx, t)[0] != '['
    ensures t != "" && BlindRest(p, ctx, t) == [t[0]] + BlindRest(p, p.Word(t[0]), t[1..])
  {
    hide Pattern.MatchLen;
  }

  // The output starts like the input as long as no placeholder intervenes.
  lemma {:induction false} CopiedPrefix(p: Pattern, ctx: bool, t: string, u: string)
    requires u <= BlindRest(p, ctx, t) && Bracketless(u)
    ensures u <= t
    ensures u != "" ==> BlindRest(p, ctx, t)[|u|..] == BlindRest(p, p.Word(u[|u| - 1]), t[|u|..])
    decreases |u|
  {
    hide BlindRest;
    if u != "" {
      var out := BlindRest(p, ctx, t);
      assert out[0] == u[0] && u[0] in u;
      UnbracketedIsCopied(p, ctx, t);
      var rest, more := u[1..], BlindRest(p, p.Word(t[0]), t[1..]);
      assert out[1..] == more && rest <= more && forall c :: c in rest ==> c in u;
      CopiedPrefix(p, p.Word(t[0]), t[1..], rest);
      assert u == [t[0]] + rest && t == [t[0]] + t[1..];
      assert out[|u|..] == more[|rest|..] && t[|u|..] == t[1..][|rest|..];
      assert rest == "" ==> more[|rest|..] == more;
    }
  }

  // A word just before rules out a match: the next character is copied.
  lemma CopiedAfterWord(p: Pattern, t: string)
    requires p.WellFormed() && p.WordAfter(t, 0)
    ensures BlindRest(p, true, t) != "" && BlindRest(p, true, t)[0] == t[0]
  {
    hide Pattern.MatchLen, Pattern.Token;
    if p.MatchLen(true, t).Some? {
      EngineSound(p, true, t);
    } else {
      CopyStep(p, true, t);
    }
  }

  // No match starts where a character was copied.
  lemma NoMatchAtCopied(p: Pattern, t: string, q: nat)
    requires p.WellFormed() && t != "" && p.MatchLen(false, t).None?
    requires q <= |BlindRest(p, false, t)| && p.Token(BlindRest(p, false, t)[..q])
    ensures p.WordAfter(BlindRest(p, false, t), q)
  {
    hide Pattern.MatchLen, Pattern.Token, BlindRest;
    var out := BlindRest(p, false, t);
    var u := out[..q];
    TokenShape(p, u);
    CopiedPrefix(p, false, t, u);
    assert t[..q] == u && t[0] == u[0] && t[q - 1] == u[q - 1];
    if p.WordAfter(t, q) {
      assert t[q..][0] == t[q];
      CopiedAfterWord(p, t[q..]);
      assert out[q] == out[q..][0];
    } else {
      EngineComplete(p, false, t, q);
    }
  }

  // A match in `u`, when `ctx` says whether a word character stands before `u`.
  ghost predicate MatchIn(p: Pattern, u: string, ctx: bool, a: nat, b: nat) {
    && a < b <= |u| && p.Token(u[a..b])
    && !p.WordAfter(u, b)
    && (if a == 0 then !ctx else !p.Word(u[a - 1]))
  }

  lemma MatchInTail(p: Pattern, h: string, u: string, ctx: bool, a: nat, b: nat)
    requires h != "" && |h| <= a && MatchIn(p, h + u, ctx, a, b)
    ensures MatchIn(p, u, p.Word(h[|h| - 1]), a - |h|, b - |h|)
  {
    hide Pattern.Token;
    assert (h + u)[a..b] == u[a - |h|..b - |h|];
  }

  lemma BracketOutside(w: string, a: nat, b: nat, k: nat)
    requires a <= k < b <= |w| && Bracketless(w[a..b])
    ensures w[k] != '[' && w[k] != ']'
  {
    assert w[a..b][k - a] in w[a..b];
  }

  // The only long enough bracket-free text touching a placeholder is its inside.
  lemma InsidePlaceholder(u: string, a: nat, b: nat)
    requires a < |TOOL| && a + 4 <= b <= |TOOL + u| && Bracketless((TOOL + u)[a..b])
    ensures (TOOL + u)[a..b] == "tool"
  {
    var w := TOOL + u;
    assert w[0] == '[' && w[5] == ']';
    if b > 5 { BracketOutside(w, a, b, 5); }
    assert w[1..5] == "tool";
  }

  lemma NoMatchInPlaceholder(p: Pattern, u: string, ctx: bool, a: nat, b: nat)
    requires p.WellFormed() && a < |TOOL|
    ensures !MatchIn(p, TOOL + u, ctx, a, b)
  {
    hide Pattern.Token;
    if MatchIn(p, TOOL + u, ctx, a, b) {
      TokenShape(p, (TOOL + u)[a..b]);
      InsidePlaceholder(u, a, b);
    }
  }

  lemma BehindPlaceholder(p: Pattern, v: string, ctx: bool, a: nat, b: nat)
    requires p.WellFormed() && |TOOL| <= a && MatchIn(p, TOOL + v, ctx, a, b)
    ensures MatchIn(p, v, false, a - |TOOL|, b - |TOOL|)
  {
    hide Pattern.Token;
    MatchInTail(p, TOOL, v, ctx, a, b);
    assert TOOL[|TOOL| - 1] == ']' && !p.Word(']');
  }

  lemma FirstOfMatch(p: Pattern, u: string, ctx: bool, b: nat)
    requires p.WellFormed() && MatchIn(p, u, ctx, 0, b)
    ensures p.Word(u[0]) && !ctx && p.Token(u[..b]) && !p.WordAfter(u, b)
  {
    hide Pattern.Token;
    TokenShape(p, u[0..b]);
    assert u[0..b] == u[..b];
  }

  lemma BehindCopied(p: Pattern, ctx: bool, t: string, before: bool, a: nat, b: nat)
    requires p.WellFormed() && t != "" && p.MatchLen(ctx, t).None?
    requires before == ctx || !p.WordAfter(t, 0)
    requires MatchIn(p, BlindRest(p, ctx, t), before, a, b)
    ensures 0 < a < b && MatchIn(p, BlindRest(p, p.Word(t[0]), t[1..]), p.Word(t[0]), a - 1, b - 1)
  {
    hide Pattern.MatchLen, Pattern.Token, BlindRest;
    var v := BlindRest(p, p.Word(t[0]), t[1..]);
    CopyStep(p, ctx, t);
    if a == 0 {
      FirstOfMatch(p, [t[0]] + v, before, b);
      NoMatchAtCopied(p, t, b);
    } else {
      MatchInTail(p, [t[0]], v, before, a, b);
    }
  }

  lemma {:induction false} NothingLeft(p: Pattern, ctx: bool, t: string, before: bool, a: nat, b: nat)
    requires p.WellFormed()
    requires before == ctx || !p.WordAfter(t, 0)
    ensures !MatchIn(p, BlindRest(p, ctx, t), before, a, b)
    decreases |t|
  {
    hide Pattern.MatchLen, Pattern.Token;
    if t != "" && MatchIn(p, BlindRest(p, ctx, t), before, a, b) {
      var r := p.MatchLen(ctx, t);
      if r.Some? {
        MatchStep(p, ctx, t);
        var rest := t[r.value..];
        if a < |TOOL| {
          NoMatchInPlaceholder(p, BlindRest(p, true, rest), before, a, b);
        } else {
          BehindPlaceholder(p, BlindRest(p, true, rest), before, a, b);
          NothingLeft(p, true, rest, false, a - |TOOL|, b - |TOOL|);
        }
      } else {
        BehindCopied(p, ctx, t, before, a, b);
        NothingLeft(p, p.Word(t[0]), t[1..], p.Word(t[0]), a - 1, b - 1);
      }
    }
  }

  // ---- Main results ----

  // The blinded text contains no match of the pattern anywhere.
  lemma BlindingIsComplete(p: Pattern, s: string, a: nat, b: nat)
    requires p.WellFormed()
    ensures !p.Matches(Blind(p, s), a, b)
  {
    hide Pattern.MatchLen, Pattern.Token, BlindRest;
    var u := Blind(p, s);
    if p.Matches(u, a, b) {
      TokenShape(p, u[a..b]);
      assert u[a] == u[a..b][0] && u[b - 1] == u[a..b][|u[a..b]| - 1];
      NothingLeft(p, false, s, false, a, b);
    }
  }

  lemma FrontIsMatch(p: Pattern, s: string, i: nat)
    requires p.WellFormed() && i <= |s| && p.MatchLen(p.WordBefore(s, i), s[i..]).Some?
    ensures p.Matches(s, i, i + p.MatchLen(p.WordBefore(s, i), s[i..]).value)
  {
    hide Pattern.MatchLen, Pattern.Token;
    var t := s[i..];
    EngineSound(p, p.WordBefore(s, i), t);
    var n := p.MatchLen(p.WordBefore(s, i), t).value;
    assert t[..n] == s[i..i + n];
  }

  lemma {:induction false} UnmatchedIsCopied(p: Pattern, s: string, i: nat)
    requires p.WellFormed() && i <= |s| && forall a, b :: !p.Matches(s, a, b)
    ensures BlindRest(p, p.WordBefore(s, i), s[i..]) == s[i..]
    decreases |s| - i
  {
    hide Pattern.MatchLen, Pattern.Matches;
    if i < |s| {
      if p.MatchLen(p.WordBefore(s, i), s[i..]).Some? {
        FrontIsMatch(p, s, i);
      } else {
        UnmatchedIsCopied(p, s, i + 1);
        assert s[i..][1..] == s[i + 1..];
      }
    }
  }

  // ---- Single words and calls ----

  ghost predicate AllWord(p: Pattern, t: string) {
    t != "" && forall i :: 0 <= i < |t| ==> p.Word(t[i])
  }

  // The words that name a tool by themselves.
  ghost predicate ToolName(t: string) {
    t == "jrag" || t == "Grep" || t == "Glob" || t == "Read" || t == "Bash" || "mcp__jrag__" < t
  }

  lemma WordAndSpaceApart(p: Pattern, c: char)
    ensures !(p.Word(c) && p.Space(c))
  {
  }

  lemma WordToken(p: Pattern, t: string)
    requires AllWord(p, t)
    ensures p.Token(t) <==> ToolName(t)
  {
    if k: nat :| p.VerbToken(t, k) {
      assert t[4] == t[4..4 + k][0];
      WordAndSpaceApart(p, t[4]);
    }
    assert p.McpToken(t) <==> "mcp__jrag__" < t;
  }

  lemma WordEdges(p: Pattern, t: string, i: nat)
    requires AllWord(p, t) && i <= |t|
    ensures p.Boundary(t, i) <==> i == 0 || i == |t|
  {
  }

  lemma WordMatches(p: Pattern, t: string, a: nat, b: nat)
    requires AllWord(p, t) && p.Matches(t, a, b)
    ensures a == 0 && b == |t| && ToolName(t)
  {
    hide Pattern.Word, Pattern.Token;
    WordEdges(p, t, a);
    WordEdges(p, t, b);
    assert t[0..|t|] == t;
    WordToken(p, t);
  }

  lemma ToolIsReplaced(p: Pattern, t: string)
    requires p.WellFormed() && t != "" && p.MatchLen(false, t) == Some(|t|)
    ensures Blind(p, t) == "[tool]"
  {
    MatchStep(p, false, t);
    hide Pattern.MatchLen;
    assert t[|t|..] == "";
  }

  // A word standing alone is replaced exactly if it names a tool; a longer word that
  // merely contains such a name is not.
  lemma SingleWord(p: Pattern, t: string)
    requires p.WellFormed() && t != "" && forall i :: 0 <= i < |t| ==> p.Word(t[i])
    ensures Blind(p, t) == if ToolName(t) then "[tool]" else t
  {
    hide Pattern.MatchLen, Pattern.Word, Pattern.Token, BlindRest;
    if ToolName(t) {
      WordToken(p, t);
      WordEdges(p, t, 0);
      WordEdges(p, t, |t|);
      assert t[..|t|] == t;
      EngineComplete(p, false, t, |t|);
      EngineSound(p, false, t);
      WordEdges(p, t, p.MatchLen(false, t).value);
      ToolIsReplaced(p, t);
    } else {
      forall a: nat, b: nat ensures !p.Matches(t, a, b) {
        if p.Matches(t, a, b) { WordMatches(p, t, a, b); }
      }
      UnmatchedIsCopied(p, t, 0);
      assert t[0..] == t;
    }
  }

  // A call of a known verb, with any space in between, is replaced as a whole.
  lemma CallIsReplaced(p: Pattern, ws: string, v: string)
    requires p.WellFormed() && DashFree(p) && v in p.verbs && p.Spaces(ws)
    ensures Blind(p, "jrag" + ws + v) == "[tool]"
  {
    AtSwap(p, ws, v, "");
    CallText(ws, v);
    hide BlindRest, WithVerb;
    NothingBehind(p);
  }

  lemma CallText(ws: string, v: string)
    ensures WithVerb("", ws, v, "") == "jrag" + ws + v
  {
  }

  lemma NothingBehind(p: Pattern)
    ensures TOOL + BlindRest(p, true, "") == "[tool]"
  {
  }

  // ---- Prose survives ----

  // Pieces of the text from `i` on, in order, each a match of the pattern where it
  // stands.
  ghost predicate Cuts(p: Pattern, s: string, i: nat, cuts: seq<(nat, nat)>)
    decreases |cuts|
  {
    cuts == [] || (i <= cuts[0].0 && p.Matches(s, cuts[0].0, cuts[0].1) && Cuts(p, s, cuts[0].1, cuts[1..]))
  }

  // The text from `i` on with those pieces replaced.
  ghost function Fill(p: Pattern, s: string, i: nat, cuts: seq<(nat, nat)>): string
    requires i <= |s| && Cuts(p, s, i, cuts)
    decreases |cuts|
  {
    if cuts == [] then s[i..] else s[i..cuts[0].0] + TOOL + Fill(p, s, cuts[0].1, cuts[1..])
  }

  // Every match from `i` on starts inside one of the pieces.
  ghost predicate Covers(p: Pattern, s: string, i: nat, cuts: seq<(nat, nat)>) {
    forall a, b :: i <= a && p.Matches(s, a, b) ==> exists k :: 0 <= k < |cuts| && cuts[k].0 <= a < cuts[k].1
  }

  ghost predicate ReplacesMatches(p: Pattern, s: string, i: nat, blinded: string, cuts: seq<(nat, nat)>) {
    i <= |s| && Cuts(p, s, i, cuts) && blinded == Fill(p, s, i, cuts) && Covers(p, s, i, cuts)
  }

  lemma CopyReplaces(p: Pattern, s: string, i: nat, blinded: string, cuts: seq<(nat, nat)>)
    requires i < |s| && ReplacesMatches(p, s, i + 1, blinded, cuts) && forall b :: !p.Matches(s, i, b)
    ensures ReplacesMatches(p, s, i, [s[i]] + blinded, cuts)
  {
    hide Pattern.Matches;
    if cuts == [] {
      assert s[i..] == [s[i]] + s[i + 1..];
    } else {
      var c := cuts[0].0;
      MatchBounds(p, s, c, cuts[0].1);
      assert s[i..c] == [s[i]] + s[i + 1..c];
      var rest := Fill(p, s, cuts[0].1, cuts[1..]);
      assert [s[i]] + (s[i + 1..c] + TOOL + rest) == s[i..c] + TOOL + rest;
    }
  }

  lemma MatchBounds(p: Pattern, s: string, a: nat, b: nat)
    requires p.Matches(s, a, b)
    ensures a < b <= |s|
  {
  }

  lemma ToolReplaces(p: Pattern, s: string, i: nat, j: nat, blinded: string, cuts: seq<(nat, nat)>)
    requires p.Matches(s, i, j) && ReplacesMatches(p, s, j, blinded, cuts)
    ensures ReplacesMatches(p, s, i, TOOL + blinded, [(i, j)] + cuts)
  {
    hide Pattern.Matches;
    var more := [(i, j)] + cuts;
    MatchBounds(p, s, i, j);
    assert more[1..] == cuts;
    assert s[i..i] + TOOL + blinded == TOOL + blinded;
    forall a, b | i <= a && p.Matches(s, a, b) ensures exists k :: 0 <= k < |more| && more[k].0 <= a < more[k].1 {
      if a < j {
        assert more[0].0 <= a < more[0].1;
      } else {
        var k :| 0 <= k < |cuts| && cuts[k].0 <= a < cuts[k].1;
        assert more[k + 1] == cuts[k];
      }
    }
  }

  lemma NoMatchHere(p: Pattern, s: string, i: nat, b: nat)
    requires p.WellFormed() && i < |s| && p.MatchLen(p.WordBefore(s, i), s[i..]).None?
    ensures !p.Matches(s, i, b)
  {
    hide Pattern.MatchLen, Pattern.Token;
    if p.Matches(s, i, b) {
      assert s[i..][..b - i] == s[i..b];
      EngineComplete(p, p.WordBefore(s, i), s[i..], b - i);
    }
  }

  lemma {:induction false} RestReplaces(p: Pattern, s: string, i: nat) returns (cuts: seq<(nat, nat)>)
    requires p.WellFormed() && i <= |s|
    ensures ReplacesMatches(p, s, i, BlindRest(p, p.WordBefore(s, i), s[i..]), cuts)
    decreases |s| - i
  {
    hide Pattern.MatchLen, Pattern.Matches, ReplacesMatches, BlindRest;
    var ctx, t := p.WordBefore(s, i), s[i..];
    if i == |s| {
      cuts := [];
      EndReplaces(p, s);
    } else if p.MatchLen(ctx, t).Some? {
      var n := p.MatchLen(ctx, t).value;
      MatchStep(p, ctx, t);
      FrontIsMatch(p, s, i);
      EndOfMatch(p, s, i, i + n);
      cuts := RestReplaces(p, s, i + n);
      assert t[n..] == s[i + n..];
      ToolReplaces(p, s, i, i + n, BlindRest(p, true, t[n..]), cuts);
      cuts := [(i, i + n)] + cuts;
    } else {
      cuts := RestReplaces(p, s, i + 1);
      CopyStep(p, ctx, t);
      assert t[1..] == s[i + 1..] && t[0] == s[i];
      forall b ensures !p.Matches(s, i, b) {
        if p.Matches(s, i, b) {
          MatchBounds(p, s, i, b);
          NoMatchHere(p, s, i, b);
        }
      }
      CopyReplaces(p, s, i, BlindRest(p, p.Word(s[i]), s[i + 1..]), cuts);
    }
  }

  lemma EndOfMatch(p: Pattern, s: string, a: nat, b: nat)
    requires p.WellFormed() && p.Matches(s, a, b)
    ensures b <= |s| && p.WordBefore(s, b)
  {
    TokenShape(p, s[a..b]);
    assert s[b - 1] == s[a..b][|s[a..b]| - 1];
  }

  lemma EndReplaces(p: Pattern, s: string)
    ensures ReplacesMatches(p, s, |s|, BlindRest(p, p.WordBefore(s, |s|), s[|s|..]), [])
  {
  }

  // The blinded text is the transcript with certain matches, word boundaries
  // included, replaced by one placeholder each; every match starts in one of them,
  // and all text between them is kept.
  lemma BlindingKeepsProse(p: Pattern, s: string)
    requires p.WellFormed()
    ensures exists cuts :: ReplacesMatches(p, s, 0, Blind(p, s), cuts)
  {
    var cuts := RestReplaces(p, s, 0);
    assert s[0..] == s;
    assert ReplacesMatches(p, s, 0, Blind(p, s), cuts);
  }

  // Text without a match is unchanged, so blinding is idempotent.
  lemma BlindingTwice(p: Pattern, s: string)
    requires p.WellFormed()
    ensures (forall a, b :: !p.Matches(s, a, b)) ==> Blind(p, s) == s
    ensures Blind(p, Blind(p, s)) == Blind(p, s)
  {
    hide Pattern.MatchLen, Pattern.Matches, BlindRest;
    if forall a, b :: !p.Matches(s, a, b) {
      UnmatchedIsCopied(p, s, 0);
      assert s[0..] == s;
    }
    var u := Blind(p, s);
    forall a: nat, b: nat ensures !p.Matches(u, a, b) {
      BlindingIsComplete(p, s, a, b);
    }
    UnmatchedIsCopied(p, u, 0);
    assert u[0..] == u;
  }

  // ---- Hiding which verb ran ----

  // The texts agree on `n` characters, the last a space behind a non-space.
  ghost predicate Alike(p: Pattern, t: string, t': string, n: nat) {
    && 2 <= n <= |t| && n <= |t'|
    && (forall x :: 0 <= x < n ==> t[x] == t'[x])
    && p.Space(t[n - 1]) && !p.Space(t[n - 2])
  }

  ghost predicate Spaceless(p: Pattern, w: string) {
    w != "" && forall x :: 0 <= x < |w| ==> !p.Space(w[x])
  }

  lemma {:induction false} RunsAgree(p: Pattern, t: string, t': string, n: nat, i: nat)
    requires Alike(p, t, t', n) && i < n
    ensures p.WordRun(t, i) == p.WordRun(t', i) < n
    ensures i <= n - 2 ==> p.SpaceRun(t, i) == p.SpaceRun(t', i) <= n - 2
    decreases n - i
  {
    assert t[i] == t'[i];
    if i < n - 1 {
      RunsAgree(p, t, t', n, i + 1);
    }
  }

  lemma SpaceStops(p: Pattern, t: string, i: nat, w: string, k: nat)
    requires i <= k < |t| && p.Space(t[k]) && Spaceless(p, w) && w <= t[i..]
    ensures i + |w| <= k
  {
    forall y | i <= y < i + |w| ensures !p.Space(t[y]) {
      assert w[y - i] == t[y];
    }
  }

  lemma PrefixAgrees(p: Pattern, t: string, t': string, n: nat, i: nat, w: string)
    requires Alike(p, t, t', n) && i < n && Spaceless(p, w) && w <= t[i..]
    ensures i + |w| < n && w <= t'[i..]
  {
    SpaceStops(p, t, i, w, n - 1);
    assert forall x :: 0 <= x < |w| ==> w[x] == t[i + x];
    assert t'[i..][..|w|] == w;
  }

  lemma FitAgrees(p: Pattern, t: string, t': string, n: nat, i: nat, w: string)
    requires Alike(p, t, t', n) && i < n && Spaceless(p, w)
    ensures p.LiteralAt(t, i, w) <==> p.LiteralAt(t', i, w)
  {
    if w <= t[i..] { PrefixAgrees(p, t, t', n, i, w); }
    if w <= t'[i..] { PrefixAgrees(p, t', t, n, i, w); }
  }

  lemma {:induction false} FirstFitAgrees(p: Pattern, t: string, t': string, n: nat, i: nat, ws: seq<string>)
    requires Alike(p, t, t', n) && i < n && forall w :: w in ws ==> Spaceless(p, w)
    ensures p.FirstFit(t, i, ws) == p.FirstFit(t', i, ws)
  {
    hide Pattern.LiteralAt, Alike, Spaceless;
    AlikeFits(p, t, t', n);
    if ws != [] {
      assert ws[0] in ws;
      FitAgrees(p, t, t', n, i, ws[0]);
      FirstFitAgrees(p, t, t', n, i, ws[1..]);
    }
  }

  lemma AlikeFits(p: Pattern, t: string, t': string, n: nat)
    requires Alike(p, t, t', n)
    ensures n <= |t| && n <= |t'|
  {
  }

  lemma {:induction false} SpacesThenVerbAgrees(p: Pattern, t: string, t': string, n: nat, i: nat, j: nat)
    requires Alike(p, t, t', n) && i <= j < n && forall w :: w in p.verbs ==> Spaceless(p, w)
    ensures p.SpacesThenVerb(t, i, j) == p.SpacesThenVerb(t', i, j)
  {
    hide Pattern.FirstFit, Alike, Spaceless;
    AlikeFits(p, t, t', n);
    if j > i {
      FirstFitAgrees(p, t, t', n, j, p.verbs);
      SpacesThenVerbAgrees(p, t, t', n, i, j - 1);
    }
  }

  lemma McpAgrees(p: Pattern, t: string, t': string, n: nat)
    requires Alike(p, t, t', n)
    ensures PREFIX <= t ==> p.Mcp(t) == p.Mcp(t')
  {
    if PREFIX <= t {
      assert t[0..] == t && t'[0..] == t';
      PrefixAgrees(p, t, t', n, 0, PREFIX);
      RunsAgree(p, t, t', n, |PREFIX|);
    }
  }

  lemma JragAgrees(p: Pattern, t: string, t': string, n: nat)
    requires Alike(p, t, t', n) && n >= 6 && forall w :: w in p.verbs ==> Spaceless(p, w)
    ensures "jrag" <= t ==> p.Jrag(t) == p.Jrag(t')
  {
    if "jrag" <= t {
      assert t[0..] == t && t'[0..] == t';
      PrefixAgrees(p, t, t', n, 0, "jrag");
      RunsAgree(p, t, t', n, 4);
      SpacesThenVerbAgrees(p, t, t', n, 4, p.SpaceRun(t, 4));
      assert t[4] == t'[4];
    }
  }

  lemma LiteralsSpaceless(p: Pattern)
    ensures forall w :: w in LITERALS ==> Spaceless(p, w)
  {
  }

  lemma MatchAgrees(p: Pattern, ctx: bool, t: string, t': string, n: nat)
    requires Alike(p, t, t', n) && n >= 6 && forall w :: w in p.verbs ==> Spaceless(p, w)
    ensures p.MatchLen(ctx, t) == p.MatchLen(ctx, t')
  {
    hide Pattern.FirstFit, Pattern.SpacesThenVerb;
    McpAgrees(p, t, t', n);
    McpAgrees(p, t', t, n);
    JragAgrees(p, t, t', n);
    JragAgrees(p, t', t, n);
    LiteralsSpaceless(p);
    FirstFitAgrees(p, t, t', n, 0, LITERALS);
    assert t[0] == t'[0];
  }

  // No verb is another verb followed by a dash.
  ghost predicate DashFree(p: Pattern) {
    forall u, v :: u in p.verbs && v in p.verbs ==> !(u + "-" <= v)
  }

  predicate EndsInJrag(v: string) {
    |v| >= 4 && v[|v| - 4..] == "jrag"
  }

  // No verb ends in the program's name.
  ghost predicate NameFree(p: Pattern) {
    forall v :: v in p.verbs ==> !EndsInJrag(v)
  }

  lemma VerbsSpaceless(p: Pattern)
    requires p.WellFormed()
    ensures forall w :: w in p.verbs ==> Spaceless(p, w)
  {
  }

  lemma LongerVerb(p: Pattern, t: string, e: nat, u: string, v: string)
    requires p.WellFormed() && e <= |t| && u in p.verbs && v in p.verbs && |u| < |v|
    requires p.LiteralAt(t, e, u) && p.LiteralAt(t, e, v)
    ensures u + "-" <= v
  {
    assert forall x :: 0 <= x < |u| ==> u[x] == t[e + x];
    assert forall x :: 0 <= x < |v| ==> v[x] == t[e + x];
    assert t[e + |u|] == v[|u|];
    assert v[..|u| + 1] == u + "-";
  }

  // Where one verb fits with a boundary behind it, no other verb does.
  lemma OneVerbFits(p: Pattern, t: string, e: nat, u: string, v: string)
    requires p.WellFormed() && DashFree(p) && e <= |t| && u in p.verbs && v in p.verbs
    requires p.LiteralAt(t, e, u) && p.LiteralAt(t, e, v)
    ensures u == v
  {
    if |u| < |v| {
      LongerVerb(p, t, e, u, v);
    } else if |v| < |u| {
      LongerVerb(p, t, e, v, u);
    } else {
      assert u == t[e..][..|u|] == v;
    }
  }

  lemma {:induction false} SpaceRunIs(p: Pattern, t: string, i: nat, e: nat)
    requires i <= e < |t| && !p.Space(t[e]) && forall k :: i <= k < e ==> p.Space(t[k])
    ensures p.SpaceRun(t, i) == e
    decreases e - i
  {
    if i < e {
      SpaceRunIs(p, t, i + 1, e);
    }
  }

  lemma VerbChosen(p: Pattern, t: string, e: nat, v: string)
    requires p.WellFormed() && DashFree(p) && VerbShape(p, t, e, v) && p.Boundary(t, e + |v|)
    ensures p.MatchLen(false, t) == Some(e + |v|)
  {
    hide DashFree;
    assert p.LiteralAt(t, e, v);
    assert t[e] == v[0] && !p.Space(t[e]);
    SpaceRunIs(p, t, 4, e);
    var r := p.FirstFit(t, e, p.verbs);
    var u :| u in p.verbs && p.LiteralAt(t, e, u) && r.value == e + |u|;
    OneVerbFits(p, t, e, u, v);
    assert t[0] == 'j' && PREFIX[0] == 'm';
  }

  // The text with a verb between `jrag` plus spaces and the rest.
  function WithVerb(h: string, ws: string, v: string, b: string): string {
    h + ("jrag" + ws + (v + b))
  }

  lemma Parts(a: string, b: string, c: string)
    ensures (a + (b + c))[|a|..] == b + c && (a + (b + c))[|a| + |b|..] == c
    ensures forall x :: 0 <= x < |a| ==> (a + (b + c))[x] == a[x]
  {
  }

  lemma FrontPieces(ws: string, v: string, b: string)
    ensures var t, e := WithVerb("", ws, v, b), 4 + |ws|;
            && |t| == e + |v| + |b| && "jrag" <= t && t[e..] == v + b && t[e + |v|..] == b
            && forall x :: 4 <= x < e ==> t[x] == ws[x - 4]
  {
    var a := "jrag" + ws;
    assert WithVerb("", ws, v, b) == a + (v + b);
    Parts(a, v, b);
    assert (a + (v + b))[..4] == a[..4] == "jrag";
  }

  lemma FrontShape(p: Pattern, ws: string, v: string, b: string)
    requires p.WellFormed() && p.Spaces(ws) && v in p.verbs && !p.WordAfter(b, 0)
    ensures var t := WithVerb("", ws, v, b);
            VerbShape(p, t, 4 + |ws|, v) && p.Boundary(t, 4 + |ws| + |v|) && t[4 + |ws| + |v|..] == b
  {
    hide WithVerb;
    var t, e, m := WithVerb("", ws, v, b), 4 + |ws|, |v|;
    FrontPieces(ws, v, b);
    assert v <= v + b;
    assert t[e + m - 1] == t[e..][m - 1] == v[m - 1];
    assert b != "" ==> t[e + m] == t[e + m..][0] == b[0];
  }

  lemma AtSwap(p: Pattern, ws: string, v: string, b: string)
    requires p.WellFormed() && DashFree(p) && p.Spaces(ws) && v in p.verbs && !p.WordAfter(b, 0)
    ensures BlindRest(p, false, WithVerb("", ws, v, b)) == TOOL + BlindRest(p, true, b)
  {
    hide Pattern.MatchLen, BlindRest;
    FrontShape(p, ws, v, b);
    VerbChosen(p, WithVerb("", ws, v, b), 4 + |ws|, v);
    MatchStep(p, false, WithVerb("", ws, v, b));
  }

  // Ahead of the verb the scan cannot tell the texts apart.
  lemma AheadOfSwap(p: Pattern, h: string, ws: string, v: string, w: string, b: string)
    requires h != "" && p.Spaces(ws)
    ensures Alike(p, WithVerb(h, ws, v, b), WithVerb(h, ws, w, b), |h| + 5)
  {
    var t, t', n := WithVerb(h, ws, v, b), WithVerb(h, ws, w, b), |h|;
    var c := h + "jrag" + ws;
    assert t == c + (v + b) && t' == c + (w + b);
    assert t[n + 3] == c[n + 3] == 'g' && t[n + 4] == c[n + 4] == ws[0];
  }

  lemma DropFront(h: string, ws: string, v: string, b: string, m: nat)
    requires m <= |h|
    ensures WithVerb(h, ws, v, b)[m..] == WithVerb(h[m..], ws, v, b)
    ensures 0 < m ==> WithVerb(h, ws, v, b)[m - 1] == h[m - 1]
  {
  }

  lemma ScanStep(p: Pattern, ctx: bool, t: string, m: nat)
    requires t != "" && 0 < m <= |t| && m == if p.MatchLen(ctx, t).Some? then p.MatchLen(ctx, t).value else 1
    ensures BlindRest(p, ctx, t) == (if p.MatchLen(ctx, t).Some? then TOOL else [t[0]]) + BlindRest(p, p.Word(t[m - 1]), t[m..])
  {
    hide Pattern.MatchLen;
  }

  // A match that began ahead of a bounded `jrag` and reached into it would be a
  // verb ending in that name.
  lemma StraddleIsVerb(p: Pattern, t: string, n: nat, m: nat)
    requires p.WellFormed() && 0 < n < m <= |t| && n + 4 < |t| && t[n..n + 4] == "jrag"
    requires !p.Word(t[n - 1]) && p.Space(t[n + 4]) && p.Boundary(t, m) && p.Token(t[..m])
    ensures exists v :: v in p.verbs && EndsInJrag(v)
  {
    hide Pattern.Word, Pattern.Space, Pattern.WellFormed;
    var u := t[..m];
    assert u[n - 1] == t[n - 1] && u[n] == t[n] == t[n..n + 4][0] == 'j';
    NonWordInToken(p, u, n - 1);
    var k: nat :| p.VerbToken(u, k);
    VerbCharacters(p, u, k);
    var v := u[4 + k..];
    if n < 4 + k { AheadOfVerb(p, u, k, n); }
    assert n >= 4 + k && m <= n + 4;
    if m < n + 4 { InsideJrag(p, t, n, m); }
    assert v[|v| - 4..] == t[n..n + 4];
  }

  lemma NonWordInToken(p: Pattern, u: string, x: nat)
    requires p.WellFormed() && p.Token(u) && x < |u| && !p.Word(u[x])
    ensures exists k: nat :: p.VerbToken(u, k)
  {
    if p.McpToken(u) { McpWords(p, u); }
  }

  lemma McpWords(p: Pattern, u: string)
    requires p.McpToken(u)
    ensures forall i :: 0 <= i < |u| ==> p.Word(u[i])
  {
    assert forall i :: 0 <= i < |PREFIX| ==> u[i] == PREFIX[i];
  }

  lemma VerbCharacters(p: Pattern, u: string, k: nat)
    requires p.WellFormed() && p.VerbToken(u, k)
    ensures "jrag" <= u && 4 + k < |u| && forall x :: 4 + k <= x < |u| ==> !p.Space(u[x])
  {
    var v := u[4 + k..];
    assert forall x :: 4 + k <= x < |u| ==> u[x] == v[x - 4 - k];
  }

  lemma AheadOfVerb(p: Pattern, u: string, k: nat, n: nat)
    requires p.VerbToken(u, k) && 0 < n < 4 + k
    ensures u[n] != 'j'
  {
    if n < 4 {
      assert u[n] == "jrag"[n];
    } else {
      assert u[n] == u[4..4 + k][n - 4];
    }
  }

  // No boundary lies inside the name.
  lemma InsideJrag(p: Pattern, t: string, n: nat, m: nat)
    requires n < m < n + 4 <= |t| && t[n..n + 4] == "jrag"
    ensures !p.Boundary(t, m)
  {
    assert t[m - 1] == "jrag"[m - 1 - n] && t[m] == "jrag"[m - n];
  }

  lemma NoStraddle(p: Pattern, ctx: bool, h: string, ws: string, v: string, b: string)
    requires p.WellFormed() && NameFree(p) && p.Spaces(ws) && h != "" && !p.Word(h[|h| - 1])
    requires p.MatchLen(ctx, WithVerb(h, ws, v, b)).Some?
    ensures p.MatchLen(ctx, WithVerb(h, ws, v, b)).value <= |h|
  {
    hide Pattern.MatchLen, Pattern.Token, Pattern.WellFormed;
    var t, n := WithVerb(h, ws, v, b), |h|;
    var m := p.MatchLen(ctx, t).value;
    EngineSound(p, ctx, t);
    if m > n {
      Parts(h, "jrag" + ws, v + b);
      assert t[n..] == "jrag" + ws + (v + b);
      assert t[n..n + 4] == t[n..][..4] == "jrag" && t[n + 4] == t[n..][4] == ws[0] && t[n - 1] == h[n - 1];
      StraddleIsVerb(p, t, n, m);
    }
  }

  lemma {:induction false} RestHidesVerb(p: Pattern, ctx: bool, h: string, ws: string, v: string, w: string, b: string)
    requires p.WellFormed() && DashFree(p) && NameFree(p) && p.Spaces(ws)
    requires v in p.verbs && w in p.verbs && !p.WordAfter(b, 0)
    requires if h == "" then !ctx else !p.Word(h[|h| - 1])
    ensures BlindRest(p, ctx, WithVerb(h, ws, v, b)) == BlindRest(p, ctx, WithVerb(h, ws, w, b))
    decreases |h|
  {
    hide Pattern.MatchLen, WithVerb, Pattern.WellFormed, DashFree, NameFree, BlindRest;
    var t, t' := WithVerb(h, ws, v, b), WithVerb(h, ws, w, b);
    if h == "" {
      AtSwap(p, ws, v, b);
      AtSwap(p, ws, w, b);
    } else {
      AheadOfSwap(p, h, ws, v, w, b);
      VerbsSpaceless(p);
      MatchAgrees(p, ctx, t, t', |h| + 5);
      var r := p.MatchLen(ctx, t);
      var m := if r.Some? then r.value else 1;
      if r.Some? {
        NoStraddle(p, ctx, h, ws, v, b);
        MatchStep(p, ctx, t);
      }
      DropFront(h, ws, v, b, m);
      DropFront(h, ws, w, b, m);
      assert m < |h| ==> h[m..][|h| - m - 1] == h[|h| - 1];
      ScanStep(p, ctx, t, m);
      ScanStep(p, ctx, t', m);
      assert t[0] == t'[0];
      RestHidesVerb(p, p.Word(h[m - 1]), h[m..], ws, v, w, b);
    }
  }

  // A bounded `jrag`, spaces and a known verb at s[i..j], the verb from `e` on.
  ghost predicate VerbCall(p: Pattern, s: string, i: nat, e: nat, j: nat) {
    && i + 4 < e < j <= |s| && s[i..i + 4] == "jrag" && p.Spaces(s[i + 4..e]) && s[e..j] in p.verbs
    && p.Boundary(s, i) && p.Boundary(s, j)
  }

  // Wherever a text holds such a call, putting another known verb there leaves the
  // blinded text unchanged: the judge cannot tell which verb ran.
  lemma VerbHidden(p: Pattern, s: string, i: nat, e: nat, j: nat, w: string)
    requires p.WellFormed() && DashFree(p) && NameFree(p) && VerbCall(p, s, i, e, j) && w in p.verbs
    ensures Blind(p, s[..e] + w + s[j..]) == Blind(p, s)
  {
    CallParts(p, s, i, e, j, w);
    RestHidesVerb(p, false, s[..i], s[i + 4..e], s[e..j], w, s[j..]);
  }

  lemma CallParts(p: Pattern, s: string, i: nat, e: nat, j: nat, w: string)
    requires p.WellFormed() && VerbCall(p, s, i, e, j)
    ensures var h, ws, v, b := s[..i], s[i + 4..e], s[e..j], s[j..];
            && s == WithVerb(h, ws, v, b) && s[..e] + w + s[j..] == WithVerb(h, ws, w, b)
            && !p.WordAfter(b, 0) && (h != "" ==> !p.Word(h[|h| - 1]))
  {
    var h, ws, v, b := s[..i], s[i + 4..e], s[e..j], s[j..];
    assert s[..e] == h + ("jrag" + ws) by { assert s[i..e] == s[i..i + 4] + ws; }
    assert s == s[..e] + (v + b);
    assert v[0] == s[e] && v[|v| - 1] == s[j - 1];
    assert s[i] == s[i..i + 4][0] == 'j';
    assert h + ("jrag" + ws) + (v + b) == h + ("jrag" + ws + (v + b));
    assert h + ("jrag" + ws) + (w + b) == h + ("jrag" + ws + (w + b));
    assert s[..e] + w + b == s[..e] + (w + b);
  }

  // ---- The verbs as shipped ----

  const ORIENTATION: seq<string> := ["status", "microservices", "map", "conventions", "overview"]
  const LOCATE: seq<string> := ["find", "inspect", "outline", "imports"]
  const LISTINGS: seq<string> := ["http-routes", "http-clients", "producers", "topics"]
  const LISTINGS_MORE: seq<string> := ["jobs", "listeners", "entities"]
  const TRAVERSAL: seq<string> := ["callers", "callees", "hierarchy", "implementations"]
  const TRAVERSAL_TYPES: seq<string> := ["subclasses", "overrides", "overridden-by"]
  const TRAVERSAL_MORE: seq<string> := ["dependents", "dependencies", "impact"]
  const TRAVERSAL_REST: seq<string> := ["decompose", "flow", "connection"]
  const SEMANTIC: seq<string> := ["search"]
  const JRAG_QUERY_VERBS: seq<string> :=
    ORIENTATION + LOCATE + LISTINGS + LISTINGS_MORE + TRAVERSAL + TRAVERSAL_TYPES + TRAVERSAL_MORE + TRAVERSAL_REST + SEMANTIC

  predicate VerbWord(v: string) {
    |v| > 0 && Lower(v[0]) && Lower(v[|v| - 1]) && forall i :: 0 <= i < |v| ==> Lower(v[i]) || v[i] == '-'
  }

  // A dash stands only behind a word that is no verb.
  predicate DashPlain(v: string) {
    forall i :: 0 <= i < |v| && v[i] == '-' ==> v[..i] == "http" || v[..i] == "overridden"
  }

  ghost predicate PlainWord(v: string) {
    VerbWord(v) && DashPlain(v) && v != "http" && v != "overridden" && v[|v| - 1] != 'g'
  }

  ghost predicate Plain(vs: seq<string>) {
    forall v :: v in vs ==> PlainWord(v)
  }

  lemma PlainOrientation()
    ensures Plain(ORIENTATION)
  {
    assert PlainWord("status");
    assert PlainWord("microservices");
    assert PlainWord("map");
    assert PlainWord("conventions");
    assert PlainWord("overview");
  }

  lemma PlainLocate()
    ensures Plain(LOCATE)
  {
    assert PlainWord("find");
    assert PlainWord("inspect");
    assert PlainWord("outline");
    assert PlainWord("imports");
  }

  lemma PlainListings()
    ensures Plain(LISTINGS)
  {
    assert PlainWord("http-routes");
    assert PlainWord("http-clients");
    assert PlainWord("producers");
    assert PlainWord("topics");
  }

  lemma PlainListingsMore()
    ensures Plain(LISTINGS_MORE)
  {
    assert PlainWord("jobs");
    assert PlainWord("listeners");
    assert PlainWord("entities");
  }

  lemma PlainTraversal()
    ensures Plain(TRAVERSAL)
  {
    assert PlainWord("callers");
    assert PlainWord("callees");
    assert PlainWord("hierarchy");
    assert PlainWord("implementations");
  }

  lemma PlainTraversalTypes()
    ensures Plain(TRAVERSAL_TYPES)
  {
    assert PlainWord("subclasses");
    assert PlainWord("overrides");
    assert PlainWord("overridden-by");
  }

  lemma PlainTraversalMore()
    ensures Plain(TRAVERSAL_MORE)
  {
    assert PlainWord("dependents");
    assert PlainWord("dependencies");
    assert PlainWord("impact");
  }

  lemma PlainTraversalRest()
    ensures Plain(TRAVERSAL_REST)
  {
    assert PlainWord("decompose");
    assert PlainWord("flow");
    assert PlainWord("connection");
  }

  lemma PlainSemantic()
    ensures Plain(SEMANTIC)
  {
    assert PlainWord("search");
  }

  lemma ShippedVerbs()
    ensures Plain(JRAG_QUERY_VERBS)
  {
    hide PlainWord;
    PlainOrientation();
    PlainLocate();
    PlainListings();
    PlainListingsMore();
    PlainTraversal();
    PlainTraversalTypes();
    PlainTraversalMore();
    PlainTraversalRest();
    PlainSemantic();
  }

  lemma DashBehind(u: string, v: string)
    requires u + "-" <= v
    ensures |u| < |v| && v[|u|] == '-' && v[..|u|] == u
  {
    assert v[|u|] == (u + "-")[|u|];
  }

  lemma EndLetter(v: string)
    requires EndsInJrag(v)
    ensures v[|v| - 1] == 'g'
  {
    assert v[|v| - 4..][3] == v[|v| - 1];
  }

  // So the results above hold for the pattern as it is compiled.
  lemma ShippedPattern(word: char -> bool, space: char -> bool)
    ensures var p := Pattern(JRAG_QUERY_VERBS, word, space); p.WellFormed() && DashFree(p) && NameFree(p)
  {
    ShippedVerbs();
    var vs := JRAG_QUERY_VERBS;
    forall v | v in vs ensures !EndsInJrag(v) {
      assert PlainWord(v);
      if EndsInJrag(v) { EndLetter(v); }
    }
    forall u, v | u in vs && v in vs ensures !(u + "-" <= v) {
      assert DashPlain(v);
      if u + "-" <= v {
        DashBehind(u, v);
      }
    }
    assert forall v :: v in vs ==> VerbWord(v);
  }
}
