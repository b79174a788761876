/** The text rewrites of the lockstep version bump (scripts/bump_version.py).

    Files are the texts that reading in text mode yields, so a carriage return
    never meets a line feed.  This module is about the two rewrites and the check;
    `Release` puts them together.  Character classes beyond ASCII, and what the
    integer parser makes of texts that are not plain digits, are arbitrary. */
module VersionBump {

  import opened Common
  import Decimals

  datatype Python = Python(digit: char -> int, space: char -> bool, oddInt: string -> Option<int>)

  // ---- Character classes ----

  const MAX_ASCII := 128 as char

  // Where `splitlines` breaks.
  predicate Break(c: char) {
    c in "\n\r\U{000B}\U{000C}\U{001C}\U{001D}\U{001E}\U{0085}\U{2028}\U{2029}"
  }

  predicate Digit(u: Python, c: char) {
    if c < MAX_ASCII then '0' <= c <= '9' else !Break(c) && 0 <= u.digit(c) <= 9
  }

  function DigitValue(u: Python, c: char): nat
    requires Digit(u, c)
  {
    if c < MAX_ASCII then (c - '0') as nat else u.digit(c)
  }

  predicate Space(u: Python, c: char) {
    if c < MAX_ASCII then c in " \t\U{001F}" || Break(c) else Break(c) || (u.space(c) && !Digit(u, c))
  }

  // ---- Lines ----

  function LineLength(t: string): (n: nat)
    requires t != ""
    ensures 0 < n <= |t|
  {
    if Break(t[0]) || |t| == 1 then 1 else 1 + LineLength(t[1..])
  }

  function Lines(t: string): seq<string> {
    if t == "" then [] else [t[..LineLength(t)]] + Lines(t[LineLength(t)..])
  }

  function Join(lines: seq<string>): string {
    if lines == [] then "" else lines[0] + Join(lines[1..])
  }

  predicate IsLine(l: string, last: bool) {
    && l != ""
    && (forall i :: 0 <= i < |l| - 1 ==> !Break(l[i]))
    && (!last ==> Break(l[|l| - 1]))
  }

  predicate AreLines(lines: seq<string>) {
    forall i :: 0 <= i < |lines| ==> IsLine(lines[i], i == |lines| - 1)
  }

  lemma {:induction false} FirstLine(t: string)
    requires t != ""
    ensures IsLine(t[..LineLength(t)], LineLength(t) == |t|)
  {
    if !Break(t[0]) && |t| > 1 {
      FirstLine(t[1..]);
      var m, l := t[1..][..LineLength(t[1..])], t[..LineLength(t)];
      assert l == [t[0]] + m;
    }
  }

  lemma OneMoreLine(l: string, rest: seq<string>)
    requires IsLine(l, rest == []) && AreLines(rest)
    ensures AreLines([l] + rest)
  {
    var all := [l] + rest;
    forall i | 0 <= i < |all| ensures IsLine(all[i], i == |all| - 1) {
      if i > 0 { assert all[i] == rest[i - 1]; }
    }
  }

  lemma LinesHead(t: string)
    requires t != ""
    ensures Lines(t) == [t[..LineLength(t)]] + Lines(t[LineLength(t)..])
  {
    hide LineLength;
  }

  lemma Cut(l: string, i: nat, j: nat)
    requires i <= j <= |l|
    ensures l[..i] + l[i..j] == l[..j]
  {
  }

  lemma JoinHead(l: string, rest: seq<string>)
    ensures Join([l] + rest) == l + Join(rest)
  {
    assert ([l] + rest)[1..] == rest;
  }

  lemma {:induction false} LinesSplit(t: string)
    ensures Join(Lines(t)) == t && AreLines(Lines(t))
  {
    if t != "" {
      hide AreLines, IsLine, LineLength, Lines, Join;
      var n := LineLength(t);
      FirstLine(t);
      LinesSplit(t[n..]);
      LinesHead(t);
      JoinHead(t[..n], Lines(t[n..]));
      OneMoreLine(t[..n], Lines(t[n..]));
      Cut(t, n, |t|);
      assert t[..|t|] == t && t[n..|t|] == t[n..];
    }
  }

  lemma {:induction false} LineLengthOf(l: string, rest: string)
    requires IsLine(l, rest == "")
    ensures LineLength(l + rest) == |l|
  {
    if |l| > 1 {
      assert !Break(l[0]);
      forall i | 0 <= i < |l| - 2 ensures !Break(l[1..][i]) { assert l[1..][i] == l[i + 1]; }
      LineLengthOf(l[1..], rest);
      assert (l + rest)[1..] == l[1..] + rest;
    }
  }

  lemma {:induction false} LinesUnique(lines: seq<string>)
    requires AreLines(lines)
    ensures Lines(Join(lines)) == lines
  {
    if lines != [] {
      var l, rest := lines[0], lines[1..];
      forall i | 0 <= i < |rest| ensures IsLine(rest[i], i == |rest| - 1) { assert rest[i] == lines[i + 1]; }
      assert IsLine(l, |lines| == 1);
      LinesUnique(rest);
      assert rest != [] ==> Join(rest) != "" by {
        if rest != [] { assert IsLine(rest[0], |rest| == 1); }
      }
      LineLengthOf(l, Join(rest));
      assert (l + Join(rest))[..|l|] == l && (l + Join(rest))[|l|..] == Join(rest);
    }
  }

  // ---- The project's version line ----

  function SkipSpaces(u: Python, l: string, i: nat): (j: nat)
    requires i <= |l|
    ensures i <= j <= |l| && (j < |l| ==> !Space(u, l[j])) && (forall k :: i <= k < j ==> Space(u, l[k]))
    decreases |l| - i
  {
    if i < |l| && Space(u, l[i]) then SkipSpaces(u, l, i + 1) else i
  }

  const KEY := "version"

  predicate KeyAt(l: string, a: nat) {
    a + |KEY| <= |l| && l[a..a + |KEY|] == KEY
  }

  // The length of `version = "`, opening quote included.
  function Opening(u: Python, l: string): (n: Option<nat>)
    ensures n.Some? ==> n.value <= |l|
  {
    var a := SkipSpaces(u, l, 0);
    if !KeyAt(l, a) then None
    else
      var b := SkipSpaces(u, l, a + |KEY|);
      if b == |l| || l[b] != '=' then None
      else
        var c := SkipSpaces(u, l, b + 1);
        if c == |l| || l[c] != '"' then None else Some(c + 1)
  }

  // The first quote from `i` on.
  function Quote(l: string, i: nat): (j: nat)
    requires i <= |l|
    ensures i <= j <= |l| && (j < |l| ==> l[j] == '"') && (forall k :: i <= k < j ==> l[k] != '"')
    decreases |l| - i
  {
    if i == |l| || l[i] == '"' then i else Quote(l, i + 1)
  }

  // Where the quoted value of a version line starts and ends.
  function ValueSpan(u: Python, l: string): (s: Option<(nat, nat)>)
    ensures s.Some? ==> s.value.0 <= s.value.1 < |l|
  {
    var n := Opening(u, l);
    if n.None? || Quote(l, n.value) == |l| then None else Some((n.value, Quote(l, n.value)))
  }

  function TrimEnd(u: Python, l: string): (r: string)
    ensures r <= l && (r != "" ==> !Space(u, r[|r| - 1]))
    ensures forall i :: |r| <= i < |l| ==> Space(u, l[i])
  {
    if l != "" && Space(u, l[|l| - 1]) then TrimEnd(u, l[..|l| - 1]) else l
  }

  function Strip(u: Python, l: string): string {
    TrimEnd(u, l[SkipSpaces(u, l, 0)..])
  }

  predicate Header(u: Python, l: string) {
    var s := Strip(u, l);
    s != "" && s[0] == '[' && s[|s| - 1] == ']'
  }

  const PROJECT := "[project]"

  // Is line `i` below `[project]` with no other table in between?
  predicate InProject(u: Python, lines: seq<string>, i: nat)
    requires i <= |lines|
  {
    i > 0 && if Header(u, lines[i - 1]) then Strip(u, lines[i - 1]) == PROJECT else InProject(u, lines, i - 1)
  }

  predicate VersionAt(u: Python, lines: seq<string>, i: nat)
    requires i < |lines|
  {
    !Header(u, lines[i]) && InProject(u, lines, i) && ValueSpan(u, lines[i]).Some?
  }

  // The first such line; the number of lines if there is none.
  function VersionLine(u: Python, lines: seq<string>, i: nat): (j: nat)
    requires i <= |lines|
    ensures i <= j <= |lines| && (j < |lines| ==> VersionAt(u, lines, j))
    decreases |lines| - i
  {
    if i == |lines| || VersionAt(u, lines, i) then i else VersionLine(u, lines, i + 1)
  }

  lemma {:induction false} VersionLineIsFirst(u: Python, lines: seq<string>, i: nat)
    requires i <= |lines|
    ensures forall k :: i <= k < VersionLine(u, lines, i) ==> !VersionAt(u, lines, k)
    decreases |lines| - i
  {
    hide VersionAt;
    if i < |lines| && !VersionAt(u, lines, i) {
      VersionLineIsFirst(u, lines, i + 1);
    }
  }

  // Line `i` follows the header `[project]`, has no header between it and that one,
  // and holds a quoted version.
  ghost predicate ProjectVersionLine(u: Python, lines: seq<string>, i: nat) {
    i < |lines| && ValueSpan(u, lines[i]).Some?
    && exists h :: 0 <= h < i && Header(u, lines[h]) && Strip(u, lines[h]) == "[project]"
                   && forall k :: h < k <= i ==> !Header(u, lines[k])
  }

  lemma {:induction false} InProjectExactly(u: Python, lines: seq<string>, i: nat)
    requires i <= |lines|
    ensures InProject(u, lines, i) <==>
              exists h :: 0 <= h < i && Header(u, lines[h]) && Strip(u, lines[h]) == "[project]"
                          && forall k :: h < k < i ==> !Header(u, lines[k])
  {
    hide Header, Strip;
    if i > 0 {
      InProjectExactly(u, lines, i - 1);
    }
  }

  lemma VersionAtExactly(u: Python, lines: seq<string>, i: nat)
    requires i < |lines|
    ensures VersionAt(u, lines, i) <==> ProjectVersionLine(u, lines, i)
  {
    hide Header, Strip, ValueSpan, InProject;
    InProjectExactly(u, lines, i);
  }

  // The line the rewrite changes is the first one of this kind.
  lemma VersionLineExactly(u: Python, lines: seq<string>)
    ensures var i := VersionLine(u, lines, 0);
            && (i < |lines| ==> ProjectVersionLine(u, lines, i))
            && (forall k :: 0 <= k < i ==> !ProjectVersionLine(u, lines, k))
  {
    hide VersionAt, ProjectVersionLine;
    var i := VersionLine(u, lines, 0);
    VersionLineIsFirst(u, lines, 0);
    if i < |lines| { VersionAtExactly(u, lines, i); }
    forall k | 0 <= k < i ensures !ProjectVersionLine(u, lines, k) { VersionAtExactly(u, lines, k); }
  }

  predicate Blank(u: Python, s: string) {
    forall i :: 0 <= i < |s| ==> Space(u, s[i])
  }

  lemma SkipsBlank(u: Python, a: string, s: string)
    requires Blank(u, a) && (s == "" || !Space(u, s[0]))
    ensures SkipSpaces(u, a + s, 0) == |a|
  {
    hide Space;
    SkipsFrom(u, a + s, 0, |a|);
  }

  lemma {:induction false} SkipsFrom(u: Python, l: string, i: nat, j: nat)
    requires i <= j <= |l| && (forall k :: i <= k < j ==> Space(u, l[k])) && (j == |l| || !Space(u, l[j]))
    ensures SkipSpaces(u, l, i) == j
    decreases j - i
  {
    hide Space;
    if i < j { SkipsFrom(u, l, i + 1, j); }
  }

  lemma {:induction false} TrimsBlank(u: Python, s: string, b: string)
    requires Blank(u, b) && (s == "" || !Space(u, s[|s| - 1]))
    ensures TrimEnd(u, s + b) == s
    decreases |b|
  {
    hide Space;
    var l := s + b;
    if b == "" {
      assert l == s;
    } else {
      assert l[|l| - 1] == b[|b| - 1] && l[..|l| - 1] == s + b[..|b| - 1];
      TrimsBlank(u, s, b[..|b| - 1]);
    }
  }

  // Stripping takes the space off both ends, and no more; a header is a bracketed
  // text between space.
  lemma StripExactly(u: Python, a: string, s: string, b: string)
    requires Blank(u, a) && Blank(u, b) && s != "" && !Space(u, s[0]) && !Space(u, s[|s| - 1])
    ensures Strip(u, a + s + b) == s
    ensures Header(u, a + s + b) <==> s[0] == '[' && s[|s| - 1] == ']'
  {
    hide Space;
    assert a + s + b == a + (s + b);
    SkipsBlank(u, a, s + b);
    assert (a + (s + b))[|a|..] == s + b;
    TrimsBlank(u, s, b);
  }

  // `a version b = c "v" rest` with space in between.
  ghost predicate VersionText(u: Python, l: string, a: string, b: string, c: string, v: string, rest: string) {
    && l == a + "version" + b + "=" + c + "\"" + v + "\"" + rest
    && Blank(u, a) && Blank(u, b) && Blank(u, c) && '"' !in v
  }

  // A line holds the value `v` exactly when it reads `version = "v"`, with any
  // space, and anything behind.
  lemma ValueExactly(u: Python, l: string, v: string)
    ensures ValueSpan(u, l).Some? && Value(u, l) == v <==> exists a, b, c, rest :: VersionText(u, l, a, b, c, v, rest)
  {
    hide ValueSpan, Value, VersionText;
    if ValueSpan(u, l).Some? { ValueParts(u, l); }
    forall a, b, c, rest | VersionText(u, l, a, b, c, v, rest) ensures ValueSpan(u, l).Some? && Value(u, l) == v {
      ValueFound(u, l, a, b, c, v, rest);
    }
  }

  ghost predicate BlankWithin(u: Python, l: string, i: nat, j: nat) {
    i <= j <= |l| && forall k :: i <= k < j ==> Space(u, l[k])
  }

  lemma SyntaxIsNoSpace(u: Python)
    ensures !Space(u, 'v') && !Space(u, '=') && !Space(u, '"')
  {
  }

  lemma OpeningAt(u: Python, l: string, i: nat, j: nat, n: nat)
    requires BlankWithin(u, l, 0, i) && KeyAt(l, i) && BlankWithin(u, l, i + |KEY|, j)
    requires j < |l| && l[j] == '=' && BlankWithin(u, l, j + 1, n) && n < |l| && l[n] == '"'
    ensures Opening(u, l) == Some(n + 1)
  {
    hide Space, SkipSpaces, KeyAt, Digit;
    SyntaxIsNoSpace(u);
    KeyStart(l, i);
    KeyLength(l, i);
    SkipsFrom(u, l, 0, i);
    SkipsFrom(u, l, i + |KEY|, j);
    SkipsFrom(u, l, j + 1, n);
  }

  lemma BlankPart(u: Python, p: string, a: string, s: string)
    requires Blank(u, a)
    ensures BlankWithin(u, p + a + s, |p|, |p + a|)
  {
    hide Space;
    var l := p + a + s;
    assert forall k :: |p| <= k < |p + a| ==> l[k] == a[k - |p|];
  }

  lemma KeyPart(p: string, s: string)
    ensures KeyAt(p + KEY + s, |p|)
  {
    assert (p + KEY + s)[|p|..|p| + |KEY|] == KEY;
  }

  lemma OpeningFound(u: Python, a: string, b: string, c: string)
    requires Blank(u, a) && Blank(u, b) && Blank(u, c)
    ensures var open := a + "version" + b + "=" + c + "\""; Opening(u, open) == Some(|open|)
  {
    hide Blank, BlankWithin, KeyAt, Opening;
    var open := a + "version" + b + "=" + c + "\"";
    assert open == "" + a + ("version" + b + "=" + c + "\"");
    BlankPart(u, "", a, "version" + b + "=" + c + "\"");
    assert open == a + KEY + (b + "=" + c + "\"");
    KeyPart(a, b + "=" + c + "\"");
    assert open == (a + "version") + b + ("=" + c + "\"");
    BlankPart(u, a + "version", b, "=" + c + "\"");
    BlankPart(u, a + "version" + b + "=", c, "\"");
    OpeningAt(u, open, |a|, |a + "version" + b|, |a + "version" + b + "=" + c|);
  }

  lemma ValueFound(u: Python, l: string, a: string, b: string, c: string, v: string, rest: string)
    requires VersionText(u, l, a, b, c, v, rest)
    ensures ValueSpan(u, l).Some? && Value(u, l) == v
  {
    hide Opening, ValueSpan, Value;
    OpeningFound(u, a, b, c);
    var open := a + "version" + b + "=" + c + "\"";
    assert l == open + v + ("\"" + rest);
    ValueOfParts(u, open, v, "\"" + rest);
  }

  lemma BlankSlice(u: Python, l: string, i: nat, j: nat)
    requires BlankWithin(u, l, i, j)
    ensures Blank(u, l[i..j])
  {
    hide Space;
  }

  lemma SpanPlaces(u: Python, l: string) returns (a: nat, b: nat, c: nat)
    requires ValueSpan(u, l).Some?
    ensures var s := ValueSpan(u, l).value; s.0 == c + 1 && c < s.1 && l[s.1] == '"'
    ensures a + |KEY| <= b < c < |l| && KeyAt(l, a) && l[b] == '=' && l[c] == '"'
    ensures BlankWithin(u, l, 0, a) && BlankWithin(u, l, a + |KEY|, b) && BlankWithin(u, l, b + 1, c)
  {
    hide Space, SkipSpaces, KeyAt, Quote;
    a := SkipSpaces(u, l, 0);
    KeyLength(l, a);
    b := SkipSpaces(u, l, a + |KEY|);
    c := SkipSpaces(u, l, b + 1);
  }

  lemma ValueParts(u: Python, l: string)
    requires ValueSpan(u, l).Some?
    ensures exists a, b, c, rest :: VersionText(u, l, a, b, c, Value(u, l), rest)
  {
    hide BlankWithin, Blank, ValueSpan, KeyAt;
    var a, b, c := SpanPlaces(u, l);
    var e := ValueSpan(u, l).value.1;
    NoQuoteInValue(u, l);
    CutVersion(l, a, b, c, e);
    BlankSlice(u, l, 0, a);
    BlankSlice(u, l, a + 7, b);
    BlankSlice(u, l, b + 1, c);
    assert l[0..a] == l[..a];
    assert VersionText(u, l, l[..a], l[a + 7..b], l[b + 1..c], Value(u, l), l[e + 1..]);
  }

  lemma CutVersion(l: string, a: nat, b: nat, c: nat, e: nat)
    requires KeyAt(l, a) && a + 7 <= b < c < e < |l|
    requires l[b] == '=' && l[c] == '"' && l[e] == '"'
    ensures l == l[..a] + "version" + l[a + 7..b] + "=" + l[b + 1..c] + "\"" + l[c + 1..e] + "\"" + l[e + 1..]
  {
    CutOpening(l, a, b, c);
    CutAfter(l, c, e);
    CutAfter(l, e, |l|);
    Whole(l, e + 1);
  }

  lemma CutOpening(l: string, a: nat, b: nat, c: nat)
    requires KeyAt(l, a) && a + 7 <= b < c < |l| && l[b] == '='
    ensures l[..c] == l[..a] + "version" + l[a + 7..b] + "=" + l[b + 1..c]
  {
    Cut(l, a, a + 7);
    Cut(l, a + 7, b);
    CutAfter(l, b, c);
  }

  lemma CutAfter(l: string, i: nat, j: nat)
    requires i < j <= |l|
    ensures l[..j] == l[..i] + [l[i]] + l[i + 1..j]
  {
  }

  lemma Whole(l: string, i: nat)
    requires i <= |l|
    ensures l[..|l|] == l && l[i..|l|] == l[i..]
  {
  }

  function Value(u: Python, l: string): string
    requires ValueSpan(u, l).Some?
  {
    var s := ValueSpan(u, l).value;
    l[s.0..s.1]
  }

  function WithValue(u: Python, l: string, v: string): string
    requires ValueSpan(u, l).Some?
  {
    var s := ValueSpan(u, l).value;
    l[..s.0] + v + l[s.1..]
  }

  // The value on the line the rewrite would change: the first `version` line under
  // `[project]`.
  function Version(u: Python, t: string): Option<string> {
    var lines := Lines(t);
    var i := VersionLine(u, lines, 0);
    if i < |lines| then Some(Value(u, lines[i])) else None
  }

  method ReplaceProjectVersion(u: Python, t: string, v: string) returns (r: string)
    ensures r == Replaced(u, t, v)
  {
    hide Lines, Join, ValueSpan, Strip, AreLines;
    var lines := Lines(t);
    var inProject, i := false, 0;
    LinesSplit(t);
    while i < |lines|
      invariant i <= |lines| && lines == Lines(t)
      invariant inProject == InProject(u, lines, i)
      invariant VersionLine(u, lines, 0) == VersionLine(u, lines, i)
    {
      var stripped := Strip(u, lines[i]);
      if stripped != "" && stripped[0] == '[' && stripped[|stripped| - 1] == ']' {
        inProject := stripped == PROJECT;
      } else if inProject && ValueSpan(u, lines[i]).Some? {
        lines := lines[i := WithValue(u, lines[i], v)];
        break;
      }
      i := i + 1;
    }
    return Join(lines);
  }

  function Replaced(u: Python, t: string, v: string): string {
    var lines := Lines(t);
    var i := VersionLine(u, lines, 0);
    if i < |lines| then Join(lines[i := WithValue(u, lines[i], v)]) else t
  }

  // ---- What the rewrite does ----

  lemma {:induction false} JoinSplit(lines: seq<string>, i: nat)
    requires i < |lines|
    ensures Join(lines) == Join(lines[..i]) + lines[i] + Join(lines[i + 1..])
  {
    if i > 0 {
      JoinSplit(lines[1..], i - 1);
      assert lines[1..][..i - 1] == lines[..i][1..] && lines[1..][i..] == lines[i + 1..];
    }
  }

  lemma Splice(p: string, l: string, i: nat, j: nat, v: string, q: string)
    requires i <= j <= |l|
    ensures p + l + q == (p + l[..i]) + l[i..j] + (l[j..] + q)
    ensures p + (l[..i] + v + l[j..]) + q == (p + l[..i]) + v + (l[j..] + q)
  {
    assert l == l[..i] + l[i..j] + l[j..];
  }

  // Only the quoted value changes.
  lemma ReplacesOneValue(u: Python, t: string, v: string)
    requires Version(u, t).Some?
    ensures exists before, after :: t == before + Version(u, t).value + after && Replaced(u, t, v) == before + v + after
  {
    hide Lines, VersionLine, ValueSpan, Join, AreLines, Header, InProject;
    var lines := Lines(t);
    var i := VersionLine(u, lines, 0);
    var l, s := lines[i], ValueSpan(u, lines[i]).value;
    var next := lines[i := WithValue(u, l, v)];
    LinesSplit(t);
    JoinSplit(lines, i);
    JoinSplit(next, i);
    assert next[..i] == lines[..i] && next[i + 1..] == lines[i + 1..];
    Splice(Join(lines[..i]), l, s.0, s.1, v, Join(lines[i + 1..]));
  }

  // ---- Reading the new version back ----

  ghost predicate Agree(l: string, m: string, i: nat, j: nat) {
    j <= |l| && j <= |m| && forall k :: i <= k < j ==> m[k] == l[k]
  }

  lemma {:induction false} SkipSpacesLocal(u: Python, l: string, m: string, i: nat)
    requires i <= |l| && SkipSpaces(u, l, i) < |l| && Agree(l, m, i, SkipSpaces(u, l, i) + 1)
    ensures SkipSpaces(u, m, i) == SkipSpaces(u, l, i)
    decreases |l| - i
  {
    if Space(u, l[i]) {
      SkipSpacesLocal(u, l, m, i + 1);
    }
  }

  lemma KeyLocal(l: string, m: string, a: nat)
    requires KeyAt(l, a) && Agree(l, m, a, a + |KEY|)
    ensures KeyAt(m, a)
  {
  }

  lemma KeyStart(l: string, a: nat)
    requires KeyAt(l, a)
    ensures l[a] == 'v'
  {
    assert l[a] == l[a..a + |KEY|][0];
  }

  // The opening is determined by its own characters.
  lemma OpeningLocal(u: Python, l: string, m: string)
    requires Opening(u, l).Some? && Agree(l, m, 0, Opening(u, l).value)
    ensures Opening(u, m) == Opening(u, l)
  {
    hide KeyAt, SkipSpaces;
    var a := SkipSpaces(u, l, 0);
    KeyLength(l, a);
    var b := SkipSpaces(u, l, a + |KEY|);
    SkipSpacesLocal(u, l, m, 0);
    KeyLocal(l, m, a);
    SkipSpacesLocal(u, l, m, a + |KEY|);
    SkipSpacesLocal(u, l, m, b + 1);
  }

  lemma KeyLength(l: string, a: nat)
    requires KeyAt(l, a)
    ensures a + |KEY| <= |l|
  {
  }

  // A text that can stand between quotes on one line.
  ghost predicate Quotable(v: string) {
    forall i :: 0 <= i < |v| ==> v[i] != '"' && !Break(v[i])
  }

  lemma ValueOfParts(u: Python, open: string, v: string, rest: string)
    requires Opening(u, open) == Some(|open|)
    requires forall i :: 0 <= i < |v| ==> v[i] != '"'
    requires rest != "" && rest[0] == '"'
    ensures ValueSpan(u, open + v + rest) == Some((|open|, |open| + |v|)) && Value(u, open + v + rest) == v
  {
    var l := open + v + rest;
    OpeningLocal(u, open, l);
    hide Opening, Agree;
    var q := Quote(l, |open|);
    assert l[|open| + |v|] == rest[0];
    assert forall k :: |open| <= k < |open| + |v| ==> l[k] == v[k - |open|];
  }

  lemma SpanParts(u: Python, l: string)
    requires ValueSpan(u, l).Some?
    ensures var s := ValueSpan(u, l).value;
            && Opening(u, l[..s.0]) == Some(s.0)
            && l == l[..s.0] + Value(u, l) + l[s.1..]
            && l[s.1] == '"'
  {
    hide SkipSpaces, KeyAt, Quote, Digit, Space;
    var s := ValueSpan(u, l).value;
    assert Agree(l, l[..s.0], 0, s.0);
    OpeningLocal(u, l, l[..s.0]);
    hide Opening;
    assert l == l[..s.0] + l[s.0..s.1] + l[s.1..];
  }

  // A version line is no table header: it starts with the key.
  lemma VersionLineIsNoHeader(u: Python, l: string)
    requires Opening(u, l).Some?
    ensures !Header(u, l)
  {
    var a := SkipSpaces(u, l, 0);
    KeyStart(l, a);
    var x := l[a..];
    assert x[0] == 'v' && !Space(u, 'v');
  }

  lemma WithValueReads(u: Python, l: string, v: string, last: bool)
    requires ValueSpan(u, l).Some? && Quotable(v) && IsLine(l, last)
    ensures var m := WithValue(u, l, v);
            && ValueSpan(u, m) == Some((ValueSpan(u, l).value.0, ValueSpan(u, l).value.0 + |v|))
            && Value(u, m) == v && !Header(u, m) && IsLine(m, last)
  {
    hide Opening, Quote, Header, Break;
    var s, m := ValueSpan(u, l).value, WithValue(u, l, v);
    SpanParts(u, l);
    ValueOfParts(u, l[..s.0], v, l[s.1..]);
    VersionLineIsNoHeader(u, m);
    forall i | 0 <= i < |m| - 1 ensures !Break(m[i]) {
      if i < s.0 { assert m[i] == l[i]; }
      else if i < s.0 + |v| { assert m[i] == v[i - s.0]; }
      else { assert m[i] == l[i - s.0 - |v| + s.1]; }
    }
    assert m[|m| - 1] == l[|l| - 1];
  }

  lemma {:induction false} InProjectLocal(u: Python, lines: seq<string>, more: seq<string>, i: nat)
    requires i <= |lines| && i <= |more| && lines[..i] == more[..i]
    ensures InProject(u, lines, i) == InProject(u, more, i)
  {
    hide Header, Strip;
    if i > 0 {
      assert lines[i - 1] == lines[..i][i - 1] == more[..i][i - 1] == more[i - 1];
      assert lines[..i - 1] == lines[..i][..i - 1] == more[..i][..i - 1] == more[..i - 1];
      InProjectLocal(u, lines, more, i - 1);
    }
  }

  lemma VersionLineStays(u: Python, lines: seq<string>, i: nat, l: string)
    requires i == VersionLine(u, lines, 0) && i < |lines|
    requires ValueSpan(u, l).Some? && !Header(u, l)
    ensures VersionLine(u, lines[i := l], 0) == i
  {
    hide Header, ValueSpan, InProject;
    var more := lines[i := l];
    VersionLineIsFirst(u, lines, 0);
    VersionLineIsFirst(u, more, 0);
    forall k | 0 <= k <= i ensures InProject(u, more, k) == InProject(u, lines, k) {
      assert more[..k] == lines[..k];
      InProjectLocal(u, more, lines, k);
    }
    assert VersionAt(u, more, i);
    assert forall k :: 0 <= k < i ==> VersionAt(u, more, k) == VersionAt(u, lines, k);
  }

  lemma ReplacedLines(u: Python, t: string, v: string)
    requires Version(u, t).Some? && Quotable(v)
    ensures var lines := Lines(t);
            var i := VersionLine(u, lines, 0);
            var more := lines[i := WithValue(u, lines[i], v)];
            Lines(Replaced(u, t, v)) == more && VersionLine(u, more, 0) == i
  {
    hide Lines, Join, VersionLine, ValueSpan, Header, IsLine, InProject, WithValue, Value;
    var lines := Lines(t);
    var i := VersionLine(u, lines, 0);
    var l := WithValue(u, lines[i], v);
    LinesSplit(t);
    WithValueReads(u, lines[i], v, i == |lines| - 1);
    VersionLineStays(u, lines, i, l);
    LinesUnique(lines[i := l]);
  }

  lemma ReadsBack(u: Python, t: string, v: string)
    requires Version(u, t).Some? && Quotable(v)
    ensures Version(u, Replaced(u, t, v)) == Some(v)
  {
    hide Lines, VersionLine, ValueSpan, Header, IsLine, InProject, WithValue, Value, Replaced;
    var lines := Lines(t);
    var i := VersionLine(u, lines, 0);
    LinesSplit(t);
    ReplacedLines(u, t, v);
    WithValueReads(u, lines[i], v, i == |lines| - 1);
  }

  // The text before and after the quoted value of line `i`.
  function Around(u: Python, lines: seq<string>, i: nat): (string, string)
    requires i < |lines| && ValueSpan(u, lines[i]).Some?
  {
    var s := ValueSpan(u, lines[i]).value;
    (Join(lines[..i]) + lines[i][..s.0], lines[i][s.1..] + Join(lines[i + 1..]))
  }

  // The same for the version line of a text.
  function Surroundings(u: Python, t: string): Option<(string, string)> {
    var lines := Lines(t);
    var i := VersionLine(u, lines, 0);
    if i == |lines| then None else Some(Around(u, lines, i))
  }

  lemma AroundStays(u: Python, lines: seq<string>, i: nat, v: string, last: bool)
    requires i < |lines| && ValueSpan(u, lines[i]).Some? && Quotable(v) && IsLine(lines[i], last)
    ensures var more := lines[i := WithValue(u, lines[i], v)];
            ValueSpan(u, more[i]).Some? && Around(u, more, i) == Around(u, lines, i)
  {
    hide Join, ValueSpan, WithValue, IsLine, Quotable;
    var more := lines[i := WithValue(u, lines[i], v)];
    WithValueReads(u, lines[i], v, last);
    WithValueParts(u, lines[i], v);
    assert more[..i] == lines[..i] && more[i + 1..] == lines[i + 1..];
  }

  // The rewrite leaves them alone.
  lemma ReplacedSurroundings(u: Python, t: string, v: string)
    requires Quotable(v)
    ensures Surroundings(u, Replaced(u, t, v)) == Surroundings(u, t)
  {
    if Version(u, t).Some? {
      hide Lines, Join, VersionLine, VersionAt, IsLine, Value, ValueSpan, Replaced, WithValue, Quotable, Around;
      var lines := Lines(t);
      VersionLineHasSpan(u, lines);
      LinesSplit(t);
      ReplacedLines(u, t, v);
      AroundStays(u, lines, VersionLine(u, lines, 0), v, VersionLine(u, lines, 0) == |lines| - 1);
    }
  }

  lemma VersionLineHasSpan(u: Python, lines: seq<string>)
    requires VersionLine(u, lines, 0) < |lines|
    ensures ValueSpan(u, lines[VersionLine(u, lines, 0)]).Some?
  {
  }

  lemma WithValueParts(u: Python, l: string, v: string)
    requires ValueSpan(u, l).Some?
    ensures var s, m := ValueSpan(u, l).value, WithValue(u, l, v);
            s.0 + |v| <= |m| && m[..s.0] == l[..s.0] && m[s.0 + |v|..] == l[s.1..]
  {
    hide ValueSpan;
  }

  // ---- Versions and pins ----

  function DigitsEnd(u: Python, t: string, i: nat): (j: nat)
    requires i <= |t|
    ensures i <= j <= |t| && (j < |t| ==> !Digit(u, t[j])) && (forall k :: i <= k < j ==> Digit(u, t[k]))
    decreases |t| - i
  {
    if i < |t| && Digit(u, t[i]) then DigitsEnd(u, t, i + 1) else i
  }

  // Where digits, dot, digits, dot, digits from `i` on end.
  function VersionEnd(u: Python, t: string, i: nat): (c: Option<nat>)
    requires i <= |t|
    ensures c.Some? ==> i < c.value <= |t| && (forall k :: i <= k < c.value ==> Digit(u, t[k]) || t[k] == '.')
    ensures c.Some? ==> Digit(u, t[c.value - 1]) && (c.value < |t| ==> !Digit(u, t[c.value]))
  {
    var a := DigitsEnd(u, t, i);
    if a == i || a == |t| || t[a] != '.' then None
    else
      var b := DigitsEnd(u, t, a + 1);
      if b == a + 1 || b == |t| || t[b] != '.' then None
      else
        var c := DigitsEnd(u, t, b + 1);
        if c == b + 1 then None else Some(c)
  }

  // X.Y.Z and nothing else.
  predicate Numeric(u: Python, s: string) {
    VersionEnd(u, s, 0) == Some(|s|)
  }

  const PIN := "jrag-cli=="

  // The length of a pin at the start of the text.
  function Pin(u: Python, t: string): (n: Option<nat>)
    ensures n.Some? ==> |PIN| < n.value <= |t|
  {
    if |t| < |PIN| || t[..|PIN|] != PIN then None else VersionEnd(u, t, |PIN|)
  }

  function Repin(u: Python, t: string, v: string): string
    decreases |t|
  {
    if t == "" then ""
    else if Pin(u, t).Some? then PIN + v + Repin(u, t[Pin(u, t).value..], v)
    else [t[0]] + Repin(u, t[1..], v)
  }

  ghost predicate PinIs(u: Python, t: string, v: string) {
    Pin(u, t).Some? ==> t[..Pin(u, t).value] == PIN + v
  }

  // Every pin anywhere in the text is the one for `v`.
  ghost predicate PinsAre(u: Python, t: string, v: string) {
    forall i :: 0 <= i <= |t| ==> PinIs(u, t[i..], v)
  }

  lemma {:induction false} DigitsLocal(u: Python, l: string, m: string, i: nat)
    requires i <= |l| && Agree(l, m, i, DigitsEnd(u, l, i))
    ensures DigitsEnd(u, m, i) >= DigitsEnd(u, l, i)
    ensures var j := DigitsEnd(u, l, i); j == |m| || !Digit(u, m[j]) ==> DigitsEnd(u, m, i) == j
    decreases |l| - i
  {
    if i < |l| && Digit(u, l[i]) {
      DigitsLocal(u, l, m, i + 1);
    }
  }

  lemma VersionLocal(u: Python, l: string, m: string, i: nat)
    requires i <= |l| && VersionEnd(u, l, i).Some? && Agree(l, m, i, VersionEnd(u, l, i).value)
    ensures VersionEnd(u, m, i).Some?
    ensures var c := VersionEnd(u, l, i).value; c == |m| || !Digit(u, m[c]) ==> VersionEnd(u, m, i) == Some(c)
  {
    hide Digit, DigitsEnd;
    var a := DigitsEnd(u, l, i);
    var b := DigitsEnd(u, l, a + 1);
    DotIsNoDigit(u);
    DigitsLocal(u, l, m, i);
    DigitsLocal(u, l, m, a + 1);
    DigitsLocal(u, l, m, b + 1);
  }

  lemma DotIsNoDigit(u: Python)
    ensures !Digit(u, '.') && !Digit(u, 'j') && !Digit(u, '=') && !Digit(u, '"')
    ensures forall c :: Break(c) ==> !Digit(u, c)
  {
  }

  // Pins are found by their own characters, and end where those do.
  lemma PinLocal(u: Python, l: string, m: string)
    requires Pin(u, l).Some? && Agree(l, m, 0, Pin(u, l).value)
    ensures Pin(u, m).Some?
    ensures var n := Pin(u, l).value; n == |m| || !Digit(u, m[n]) ==> Pin(u, m) == Some(n)
  {
    hide VersionEnd, Digit;
    assert m[..|PIN|] == l[..|PIN|];
    VersionLocal(u, l, m, |PIN|);
  }

  predicate PinChar(u: Python, c: char) {
    c in PIN || Digit(u, c) || c == '.'
  }

  lemma PinChars(u: Python, t: string)
    requires Pin(u, t).Some?
    ensures forall k :: 0 <= k < Pin(u, t).value ==> PinChar(u, t[k])
    ensures t[0] == 'j' && forall k :: 0 < k < Pin(u, t).value ==> t[k] != 'j'
    ensures '=' in t
  {
    hide VersionEnd, Digit;
    DotIsNoDigit(u);
    var p := t[..|PIN|];
    assert forall k :: 0 <= k < |PIN| ==> t[k] == p[k];
    assert t[8] == '=';
    forall k | 0 < k < Pin(u, t).value ensures t[k] != 'j' && PinChar(u, t[k]) {
      if k < |PIN| {
        assert t[k] == PIN[k];
      }
    }
  }

  lemma NumericChars(u: Python, v: string)
    requires Numeric(u, v)
    ensures v != "" && Digit(u, v[|v| - 1]) && Quotable(v)
    ensures forall i :: 0 <= i < |v| ==> v[i] != 'j' && v[i] != '='
  {
    DotIsNoDigit(u);
    hide VersionEnd, Digit;
    assert forall i :: 0 <= i < |v| ==> Digit(u, v[i]) || v[i] == '.';
  }

  lemma {:induction false} DigitsShift(u: Python, p: string, s: string, i: nat)
    requires i <= |s|
    ensures DigitsEnd(u, p + s, |p| + i) == |p| + DigitsEnd(u, s, i)
    decreases |s| - i
  {
    if i < |s| && Digit(u, s[i]) {
      DigitsShift(u, p, s, i + 1);
    }
  }

  lemma VersionShift(u: Python, p: string, s: string, i: nat)
    requires i <= |s| && VersionEnd(u, s, i).Some?
    ensures VersionEnd(u, p + s, |p| + i) == Some(|p| + VersionEnd(u, s, i).value)
  {
    hide DigitsEnd, Digit;
    var a := DigitsEnd(u, s, i);
    DigitsShift(u, p, s, i);
    DigitsShift(u, p, s, a + 1);
    DigitsShift(u, p, s, DigitsEnd(u, s, a + 1) + 1);
  }

  // A rewritten pin, followed by anything but a digit, is that pin.
  lemma NewPin(u: Python, v: string, rest: string)
    requires Numeric(u, v) && (rest == "" || !Digit(u, rest[0]))
    ensures Pin(u, PIN + v + rest) == Some(|PIN + v|)
  {
    hide VersionEnd, Digit;
    VersionShift(u, PIN, v, 0);
    var t := PIN + v;
    assert t[..|PIN|] == PIN;
    PinLocal(u, t, t + rest);
  }

  // The first character survives, a pin's being `j`.
  lemma RepinFirst(u: Python, t: string, v: string)
    requires t != ""
    ensures Repin(u, t, v) != "" && Repin(u, t, v)[0] == t[0]
  {
    if Pin(u, t).Some? {
      PinChars(u, t);
    }
  }

  // What the output starts with before its first `j`, the input starts with.
  lemma {:induction false} RepinHead(u: Python, t: string, v: string, k: nat)
    requires k <= |Repin(u, t, v)| && forall i :: 0 <= i < k ==> Repin(u, t, v)[i] != 'j'
    ensures k <= |t| && t[..k] == Repin(u, t, v)[..k] && Repin(u, t[k..], v) == Repin(u, t, v)[k..]
    decreases k
  {
    hide Pin;
    var r := Repin(u, t, v);
    if k > 0 {
      RepinFirst(u, t, v);
      if Pin(u, t).Some? { PinChars(u, t); }
      var q := Repin(u, t[1..], v);
      assert r == [t[0]] + q;
      forall i | 0 <= i < k - 1 ensures q[i] != 'j' { assert q[i] == r[i + 1]; }
      RepinHead(u, t[1..], v, k - 1);
      assert t[..k] == [t[0]] + t[1..][..k - 1];
      assert t[1..][k - 1..] == t[k..] && q[k - 1..] == r[k..];
    } else {
      assert t[0..] == t && r[0..] == r;
    }
  }

  lemma AgreeOneOn(t: string, q: string, m: nat)
    requires 0 < m <= |t| && m <= |q| + 1 && t[1..][..m - 1] == q[..m - 1]
    ensures Agree([t[0]] + q, t, 0, m)
  {
    assert t[..m] == [t[0]] + t[1..][..m - 1] == ([t[0]] + q)[..m];
    assert forall k :: 0 <= k < m ==> t[k] == t[..m][k] && ([t[0]] + q)[k] == ([t[0]] + q)[..m][k];
  }

  lemma PinTail(u: Python, c: char, q: string)
    requires Pin(u, [c] + q).Some?
    ensures var m := Pin(u, [c] + q).value; m <= |q| + 1 && forall i :: 0 <= i < m - 1 ==> q[i] != 'j'
  {
    var r := [c] + q;
    PinChars(u, r);
    assert forall i :: 0 <= i < |q| ==> q[i] == r[i + 1];
  }

  // Copying a character creates no pin.
  lemma NoPinFromCopy(u: Python, t: string, v: string)
    requires t != "" && Pin(u, [t[0]] + Repin(u, t[1..], v)).Some?
    ensures Pin(u, t).Some?
  {
    hide Repin, Pin, Agree;
    var q := Repin(u, t[1..], v);
    var m := Pin(u, [t[0]] + q).value;
    PinTail(u, t[0], q);
    RepinHead(u, t[1..], v, m - 1);
    AgreeOneOn(t, q, m);
    PinLocal(u, [t[0]] + q, t);
  }

  lemma NewPinAtFront(u: Python, t: string, v: string)
    requires Numeric(u, v) && t != "" && Pin(u, t).Some?
    ensures PinIs(u, Repin(u, t, v), v)
  {
    hide Digit, Numeric;
    var n, p := Pin(u, t).value, PIN + v;
    var rest := Repin(u, t[n..], v);
    if t[n..] != "" {
      RepinFirst(u, t[n..], v);
      PinStops(u, t);
      DotIsNoDigit(u);
    }
    hide Pin;
    NewPin(u, v, rest);
    assert Repin(u, t, v) == p + rest;
    assert (p + rest)[..|p|] == p;
  }

  // After the rewrite every pin is the new one; none is missed, none appears.
  lemma {:induction false} PinsAreNew(u: Python, t: string, v: string, i: nat)
    requires Numeric(u, v) && i <= |Repin(u, t, v)|
    ensures PinIs(u, Repin(u, t, v)[i..], v)
    decreases |t|
  {
    hide Pin, Numeric;
    var r := Repin(u, t, v);
    assert r[0..] == r;
    if t == "" {
      NoPinInNothing(u, v);
    } else if Pin(u, t).Some? {
      var n, p := Pin(u, t).value, PIN + v;
      var rest := Repin(u, t[n..], v);
      assert r == p + rest;
      if i >= |p| {
        assert r[i..] == rest[i - |p|..];
        PinsAreNew(u, t[n..], v, i - |p|);
      } else if i > 0 {
        NotAPinInside(u, r, v, i);
      } else {
        NewPinAtFront(u, t, v);
      }
    } else if i > 0 {
      assert r[i..] == Repin(u, t[1..], v)[i - 1..];
      PinsAreNew(u, t[1..], v, i - 1);
    } else if Pin(u, r).Some? {
      assert r == [t[0]] + Repin(u, t[1..], v);
      NoPinFromCopy(u, t, v);
    }
  }

  lemma NoPinInNothing(u: Python, v: string)
    ensures PinIs(u, "", v)
  {
  }

  lemma PinStops(u: Python, t: string)
    requires Pin(u, t).Some? && Pin(u, t).value < |t|
    ensures !Digit(u, t[Pin(u, t).value])
  {
  }

  lemma NotAPinInside(u: Python, r: string, v: string, i: nat)
    requires PIN + v <= r && 0 < i < |PIN + v| && Numeric(u, v)
    ensures Pin(u, r[i..]).None?
  {
    hide VersionEnd, Digit, Numeric;
    NumericChars(u, v);
    var p := PIN + v;
    assert r[i] == p[i];
    assert p[i] != 'j' by {
      if i < |PIN| { assert p[i] == PIN[i]; } else { assert p[i] == v[i - |PIN|]; }
    }
    if Pin(u, r[i..]).Some? { PinChars(u, r[i..]); }
  }

  // The rewrite of a text up to and including its first pin.
  lemma RepinOne(u: Python, p: string, x: string, rest: string, v: string)
    requires 'j' !in p && Numeric(u, x) && (rest == "" || !Digit(u, rest[0]))
    ensures Repin(u, p + "jrag-cli==" + x + rest, v) == p + "jrag-cli==" + v + Repin(u, rest, v)
  {
    hide Repin, Numeric, Digit, Pin;
    var t := PIN + x + rest;
    NewPin(u, x, rest);
    assert p + PIN + x + rest == p + t && t[|PIN + x|..] == rest;
    RepinSkip(u, p, t, v);
    RepinAtPin(u, t, v);
  }

  lemma RepinAtPin(u: Python, t: string, v: string)
    requires t != "" && Pin(u, t).Some?
    ensures Repin(u, t, v) == PIN + v + Repin(u, t[Pin(u, t).value..], v)
  {
  }

  // A text without pins stays as it is.
  lemma {:induction false} RepinOnlyPins(u: Python, t: string, v: string)
    requires forall i :: 0 <= i < |t| ==> Pin(u, t[i..]).None?
    ensures Repin(u, t, v) == t
  {
    hide Pin;
    if t != "" {
      assert t[0..] == t;
      assert forall i :: 0 <= i < |t| - 1 ==> t[1..][i..] == t[i + 1..];
      RepinOnlyPins(u, t[1..], v);
    }
  }

  lemma RepinsEveryPin(u: Python, t: string, v: string)
    requires Numeric(u, v)
    ensures PinsAre(u, Repin(u, t, v), v)
  {
    hide Pin, Repin, PinIs, Numeric;
    var r := Repin(u, t, v);
    forall i | 0 <= i <= |r| ensures PinIs(u, r[i..], v) {
      PinsAreNew(u, t, v, i);
    }
  }

  // ---- Repinning works line by line and piece by piece ----

  // A character no pin contains separates the text.
  lemma {:induction false} RepinSplit(u: Python, a: string, c: char, b: string, v: string)
    requires !PinChar(u, c)
    ensures Repin(u, a + [c] + b, v) == Repin(u, a, v) + [c] + Repin(u, b, v)
    decreases |a|
  {
    hide Pin, PinChar;
    var t := a + [c] + b;
    PinsLeftOf(u, a, c, b);
    if a == "" {
      assert t == [c] + b && t[1..] == b;
    } else if Pin(u, a).Some? {
      var n := Pin(u, a).value;
      assert t[n..] == a[n..] + [c] + b;
      RepinSplit(u, a[n..], c, b, v);
      assert Repin(u, t, v) == PIN + v + Repin(u, t[n..], v);
    } else {
      assert t[1..] == a[1..] + [c] + b;
      RepinSplit(u, a[1..], c, b, v);
    }
  }

  lemma PinsLeftOf(u: Python, a: string, c: char, b: string)
    requires !PinChar(u, c)
    ensures Pin(u, a + [c] + b) == Pin(u, a)
  {
    hide VersionEnd, Digit;
    var t := a + [c] + b;
    assert t[|a|] == c;
    if Pin(u, a).Some? {
      var n := Pin(u, a).value;
      if n < |a| { PinStops(u, a); }
      PinLocal(u, a, t);
    } else if Pin(u, t).Some? {
      PinChars(u, t);
      PinLocal(u, t, a);
    }
  }

  lemma {:induction false} RepinSkip(u: Python, p: string, t: string, v: string)
    requires forall i :: 0 <= i < |p| ==> p[i] != 'j'
    ensures Repin(u, p + t, v) == p + Repin(u, t, v)
    decreases |p|
  {
    hide Pin;
    if p == "" {
      assert p + t == t;
    } else {
      if Pin(u, p + t).Some? { PinChars(u, p + t); }
      assert (p + t)[1..] == p[1..] + t;
      RepinSkip(u, p[1..], t, v);
    }
  }

  lemma NewPinHasEquals(u: Python, t: string, v: string)
    requires t != "" && Pin(u, t).Some?
    ensures '=' in Repin(u, t, v)
  {
    hide Pin;
    assert Repin(u, t, v)[8] == PIN[8] == '=';
  }

  lemma {:induction false} RepinSame(u: Python, t: string, v: string)
    requires '=' !in t || '=' !in Repin(u, t, v)
    ensures Repin(u, t, v) == t
    decreases |t|
  {
    hide Pin;
    if t != "" {
      if Pin(u, t).Some? {
        PinChars(u, t);
        NewPinHasEquals(u, t, v);
      } else {
        RepinSame(u, t[1..], v);
      }
    }
  }

  // New characters come from the pin.
  lemma {:induction false} RepinNoNew(u: Python, t: string, v: string, c: char)
    requires c !in t && c !in v && c !in PIN
    ensures c !in Repin(u, t, v)
    decreases |t|
  {
    hide Pin;
    if t != "" {
      if Pin(u, t).Some? {
        RepinNoNew(u, t[Pin(u, t).value..], v, c);
      } else {
        RepinNoNew(u, t[1..], v, c);
      }
    }
  }

  ghost predicate SameEnd(u: Python, r: string, t: string) {
    r != "" && t != "" && (r[|r| - 1] == t[|t| - 1] || (Digit(u, r[|r| - 1]) && Digit(u, t[|t| - 1])))
  }

  lemma SameEndAfter(u: Python, p: string, r: string, q: string, t: string)
    requires SameEnd(u, r, t)
    ensures SameEnd(u, p + r, q + t)
  {
  }

  // The last character survives too, except that a digit may become another.
  lemma {:induction false} RepinLast(u: Python, t: string, v: string)
    requires t != "" && Numeric(u, v)
    ensures SameEnd(u, Repin(u, t, v), t)
    decreases |t|
  {
    hide Pin, Digit, Numeric, SameEnd;
    if Pin(u, t).Some? {
      var n := Pin(u, t).value;
      if n < |t| {
        RepinLast(u, t[n..], v);
        SameEndAfter(u, PIN + v, Repin(u, t[n..], v), t[..n], t[n..]);
        assert t == t[..n] + t[n..];
      } else {
        PinEnds(u, t, v);
      }
    } else if |t| > 1 {
      RepinLast(u, t[1..], v);
      SameEndAfter(u, [t[0]], Repin(u, t[1..], v), [t[0]], t[1..]);
      assert t == [t[0]] + t[1..];
    } else {
      assert t[1..] == "";
      assert Repin(u, t, v) == t;
      SameEndSelf(u, t);
    }
  }

  lemma SameEndSelf(u: Python, t: string)
    requires t != ""
    ensures SameEnd(u, t, t)
  {
  }

  lemma PinEnds(u: Python, t: string, v: string)
    requires t != "" && Pin(u, t) == Some(|t|) && Numeric(u, v)
    ensures SameEnd(u, Repin(u, t, v), t)
  {
    hide Digit, Numeric, Pin, Quotable;
    NumericChars(u, v);
    PinEndsInDigit(u, t);
    assert t[|t|..] == "";
    var r := PIN + v;
    assert Repin(u, t, v) == r + "" == r;
    assert r[|r| - 1] == v[|v| - 1];
  }

  lemma PinEndsInDigit(u: Python, t: string)
    requires Pin(u, t).Some?
    ensures Digit(u, t[Pin(u, t).value - 1])
  {
  }

  lemma SeparatorsAreNoPinChars(u: Python)
    ensures !PinChar(u, '"') && forall c :: Space(u, c) || Break(c) ==> !PinChar(u, c)
  {
    forall c | Space(u, c) || Break(c) ensures !PinChar(u, c) {
      assert c !in PIN;
    }
  }

  lemma RepinLine(u: Python, l: string, v: string, last: bool)
    requires IsLine(l, last) && Numeric(u, v)
    ensures IsLine(Repin(u, l, v), last)
  {
    hide Numeric, Digit, Repin, Break;
    NumericChars(u, v);
    SeparatorsAreNoPinChars(u);
    var n := |l| - 1;
    var body, r := l[..n], Repin(u, l, v);
    RepinNoBreak(u, body, v);
    if Break(l[n]) {
      assert l == body + [l[n]] + "";
      RepinSplit(u, body, l[n], "", v);
      RepinSame(u, "", v);
    } else {
      RepinFirst(u, l, v);
      assert forall i :: 0 <= i < |l| ==> !Break(l[i]);
      RepinNoBreak(u, l, v);
    }
  }

  lemma RepinNoBreak(u: Python, t: string, v: string)
    requires Quotable(v) && forall i :: 0 <= i < |t| ==> !Break(t[i])
    ensures forall i :: 0 <= i < |Repin(u, t, v)| ==> !Break(Repin(u, t, v)[i])
  {
    hide Repin;
    var r := Repin(u, t, v);
    forall i | 0 <= i < |r| ensures !Break(r[i]) {
      if Break(r[i]) { RepinNoNew(u, t, v, r[i]); }
    }
  }

  function RepinAll(u: Python, lines: seq<string>, v: string): (r: seq<string>)
    ensures |r| == |lines| && forall i :: 0 <= i < |r| ==> r[i] == Repin(u, lines[i], v)
  {
    seq(|lines|, i requires 0 <= i < |lines| => Repin(u, lines[i], v))
  }

  lemma {:induction false} RepinJoin(u: Python, lines: seq<string>, v: string)
    requires AreLines(lines)
    ensures Repin(u, Join(lines), v) == Join(RepinAll(u, lines, v))
  {
    hide Repin, Break;
    if lines == [] {
      RepinSame(u, "", v);
    } else {
      var l, rest := lines[0], lines[1..];
      forall i | 0 <= i < |rest| ensures IsLine(rest[i], i == |rest| - 1) { assert rest[i] == lines[i + 1]; }
      RepinJoin(u, rest, v);
      assert RepinAll(u, lines, v)[1..] == RepinAll(u, rest, v);
      if rest == [] {
        assert l + "" == l;
        assert Repin(u, l, v) + "" == Repin(u, l, v);
      } else {
        assert IsLine(l, |lines| == 1);
        RepinAfterBreak(u, l, Join(rest), v);
      }
    }
  }

  lemma RepinAfterBreak(u: Python, l: string, t: string, v: string)
    requires l != "" && Break(l[|l| - 1])
    ensures Repin(u, l + t, v) == Repin(u, l, v) + Repin(u, t, v)
  {
    hide Repin, Break;
    var body, c := l[..|l| - 1], l[|l| - 1];
    SeparatorsAreNoPinChars(u);
    RepinSplit(u, body, c, t, v);
    RepinSplit(u, body, c, "", v);
    RepinSame(u, "", v);
    assert l == body + [c] + "" && l + t == body + [c] + t;
  }

  lemma RepinLines(u: Python, t: string, v: string)
    requires Numeric(u, v)
    ensures Lines(Repin(u, t, v)) == RepinAll(u, Lines(t), v)
  {
    hide Repin, Numeric, Lines, Join, IsLine;
    var lines := Lines(t);
    LinesSplit(t);
    RepinJoin(u, lines, v);
    forall i | 0 <= i < |lines| ensures IsLine(RepinAll(u, lines, v)[i], i == |lines| - 1) {
      RepinLine(u, lines[i], v, i == |lines| - 1);
    }
    LinesUnique(RepinAll(u, lines, v));
  }

  // ---- The version line under repinning ----

  lemma SpacesAreNoDigits(u: Python)
    ensures forall c :: Space(u, c) ==> !Digit(u, c) && c != 'j'
  {
  }

  lemma {:induction false} RepinTrim(u: Python, l: string, v: string)
    requires Numeric(u, v)
    ensures TrimEnd(u, Repin(u, l, v)) == Repin(u, TrimEnd(u, l), v)
    decreases |l|
  {
    hide Repin, Numeric, Digit, Space;
    SpacesAreNoDigits(u);
    RepinSame(u, "", v);
    if l != "" {
      var n, c := |l| - 1, l[|l| - 1];
      if Space(u, c) {
        SeparatorsAreNoPinChars(u);
        RepinSplit(u, l[..n], c, "", v);
        assert l == l[..n] + [c] + "";
        var r := Repin(u, l[..n], v);
        assert Repin(u, l, v) == r + [c] + "" == r + [c];
        assert (r + [c])[..|r|] == r;
        RepinTrim(u, l[..n], v);
      } else {
        RepinLast(u, l, v);
      }
    }
  }

  // Repinning copies leading spaces and adds none.
  lemma RepinSpaces(u: Python, l: string, v: string)
    ensures var a := SkipSpaces(u, l, 0);
            && Repin(u, l, v) == l[..a] + Repin(u, l[a..], v)
            && SkipSpaces(u, Repin(u, l, v), 0) == a
  {
    hide Repin, Digit, Space;
    var a := SkipSpaces(u, l, 0);
    var p, y := l[..a], Repin(u, l[a..], v);
    SpacesAreNoDigits(u);
    assert forall i :: 0 <= i < a ==> p[i] == l[i];
    RepinSkip(u, p, l[a..], v);
    assert l == p + l[a..];
    if a == |l| {
      RepinSame(u, "", v);
      assert p + y == l;
    } else {
      RepinFirst(u, l[a..], v);
      assert y[0] == l[a];
      SkipSpacesLocal(u, l, p + y, 0);
    }
  }

  lemma RepinStrip(u: Python, l: string, v: string)
    requires Numeric(u, v)
    ensures Strip(u, Repin(u, l, v)) == Repin(u, Strip(u, l), v)
  {
    hide Repin, Numeric, TrimEnd, SkipSpaces;
    var a := SkipSpaces(u, l, 0);
    RepinSpaces(u, l, v);
    RepinTrim(u, l[a..], v);
    assert (l[..a] + Repin(u, l[a..], v))[a..] == Repin(u, l[a..], v);
  }

  lemma RepinHeader(u: Python, l: string, v: string)
    requires Numeric(u, v)
    ensures Header(u, Repin(u, l, v)) == Header(u, l)
    ensures Strip(u, Repin(u, l, v)) == PROJECT <==> Strip(u, l) == PROJECT
  {
    hide Repin, Numeric, Strip;
    var s := Strip(u, l);
    RepinStrip(u, l, v);
    RepinSame(u, "", v);
    if s != "" {
      RepinFirst(u, s, v);
      RepinLast(u, s, v);
    }
    if s == PROJECT || Repin(u, s, v) == PROJECT {
      RepinSame(u, s, v);
    }
  }

  lemma OpeningHasNoJ(u: Python, l: string)
    requires Opening(u, l).Some?
    ensures forall i :: 0 <= i < Opening(u, l).value ==> l[i] != 'j'
  {
    SpacesAreNoDigits(u);
    hide Space, Digit;
    var a := SkipSpaces(u, l, 0);
    var b := SkipSpaces(u, l, a + |KEY|);
    forall i | a <= i < a + |KEY| ensures l[i] != 'j' {
      assert l[i] == l[a..a + |KEY|][i - a] == KEY[i - a];
    }
  }

  lemma RepinParts(u: Python, open: string, val: string, tail: string, v: string)
    requires forall i :: 0 <= i < |open| ==> open[i] != 'j'
    ensures Repin(u, open + val + (['"'] + tail), v) == open + Repin(u, val, v) + (['"'] + Repin(u, tail, v))
  {
    hide Repin, PinChar, Digit;
    SeparatorsAreNoPinChars(u);
    RepinSplit(u, val, '"', tail, v);
    RepinSkip(u, open, val + ['"'] + tail, v);
    assert open + val + (['"'] + tail) == open + (val + ['"'] + tail);
  }

  // A version line stays one, its value repinned ...
  lemma RepinValue(u: Python, l: string, v: string)
    requires Numeric(u, v) && ValueSpan(u, l).Some?
    ensures var r := Repin(u, l, v); ValueSpan(u, r).Some? && Value(u, r) == Repin(u, Value(u, l), v)
  {
    hide Repin, Numeric, Opening, Quote, Digit, Value, ValueSpan;
    var s := ValueSpan(u, l).value;
    var open, val, tail := l[..s.0], Value(u, l), l[s.1 + 1..];
    SpanParts(u, l);
    NoQuoteInValue(u, l);
    OpeningHasNoJ(u, l);
    assert l[s.1..] == ['"'] + tail;
    RepinParts(u, open, val, tail, v);
    NumericChars(u, v);
    RepinNoNew(u, val, v, '"');
    ValueOfParts(u, open, Repin(u, val, v), ['"'] + Repin(u, tail, v));
  }

  // The parts of a repinned version line.
  lemma RepinSpan(u: Python, l: string, v: string)
    requires Numeric(u, v) && ValueSpan(u, l).Some?
    ensures var r, s := Repin(u, l, v), ValueSpan(u, l).value;
            ValueSpan(u, r).Some? && var z := ValueSpan(u, r).value;
            z.0 == s.0 && s.0 <= |l| && r[..s.0] == l[..s.0] && r[z.1..] == Repin(u, l[s.1..], v)
  {
    hide Repin, Numeric, Opening, Quote, Digit, Value, ValueSpan, PinChar;
    var s := ValueSpan(u, l).value;
    var open, val, tail := l[..s.0], Value(u, l), l[s.1 + 1..];
    SpanParts(u, l);
    NoQuoteInValue(u, l);
    OpeningHasNoJ(u, l);
    assert l[s.1..] == "" + ['"'] + tail == ['"'] + tail;
    RepinParts(u, open, val, tail, v);
    SeparatorsAreNoPinChars(u);
    RepinSplit(u, "", '"', tail, v);
    RepinSame(u, "", v);
    NumericChars(u, v);
    RepinNoNew(u, val, v, '"');
    var rest := ['"'] + Repin(u, tail, v);
    ValueOfParts(u, open, Repin(u, val, v), rest);
    PartsAt(open, Repin(u, val, v), rest);
    assert "" + ['"'] + Repin(u, tail, v) == rest;
  }

  lemma PartsAt(a: string, b: string, c: string)
    ensures (a + b + c)[..|a|] == a && (a + b + c)[|a| + |b|..] == c
  {
  }

  lemma NoQuoteInValue(u: Python, l: string)
    requires ValueSpan(u, l).Some?
    ensures '"' !in Value(u, l) && Opening(u, l) == Some(ValueSpan(u, l).value.0)
  {
  }

  // ... and none appears.
  lemma NoNewValue(u: Python, l: string, v: string)
    requires Numeric(u, v) && ValueSpan(u, Repin(u, l, v)).Some?
    ensures ValueSpan(u, l).Some?
  {
    hide Repin, Numeric, Opening, PinChar, Digit;
    var r := Repin(u, l, v);
    var s := ValueSpan(u, r).value;
    OpeningHasNoJ(u, r);
    RepinHead(u, l, v, s.0);
    assert forall i :: 0 <= i < s.0 ==> l[i] == l[..s.0][i] && r[i] == r[..s.0][i];
    OpeningLocal(u, r, l);
    assert r[s.0..][s.1 - s.0] == '"';
    NumericChars(u, v);
    if '"' !in l[s.0..] {
      RepinNoNew(u, l[s.0..], v, '"');
      assert false;
    }
    var i :| 0 <= i < |l[s.0..]| && l[s.0..][i] == '"';
    assert l[s.0 + i] == '"';
  }

  lemma {:induction false} RepinInProject(u: Python, lines: seq<string>, v: string, i: nat)
    requires Numeric(u, v) && i <= |lines|
    ensures InProject(u, RepinAll(u, lines, v), i) == InProject(u, lines, i)
  {
    hide Repin, Numeric, Header, Strip;
    if i > 0 {
      RepinHeader(u, lines[i - 1], v);
      RepinInProject(u, lines, v, i - 1);
    }
  }

  lemma RepinVersionAt(u: Python, lines: seq<string>, v: string, i: nat)
    requires Numeric(u, v) && i < |lines|
    ensures VersionAt(u, RepinAll(u, lines, v), i) == VersionAt(u, lines, i)
  {
    hide Repin, Numeric, Header, ValueSpan, InProject;
    RepinHeader(u, lines[i], v);
    RepinInProject(u, lines, v, i);
    if ValueSpan(u, lines[i]).Some? {
      RepinValue(u, lines[i], v);
    } else if ValueSpan(u, Repin(u, lines[i], v)).Some? {
      NoNewValue(u, lines[i], v);
    }
  }

  lemma {:induction false} RepinVersionLine(u: Python, lines: seq<string>, v: string, i: nat)
    requires Numeric(u, v) && i <= |lines|
    ensures VersionLine(u, RepinAll(u, lines, v), i) == VersionLine(u, lines, i)
    decreases |lines| - i
  {
    hide Numeric, VersionAt, RepinAll;
    if i < |lines| {
      RepinVersionAt(u, lines, v, i);
      RepinVersionLine(u, lines, v, i + 1);
    }
  }

  // Rewriting pins leaves the version a file holds alone, up to pins within it.
  lemma RepinKeepsVersion(u: Python, t: string, v: string)
    requires Numeric(u, v)
    ensures Version(u, Repin(u, t, v)) == if Version(u, t).Some? then Some(Repin(u, Version(u, t).value, v)) else None
  {
    hide Numeric, VersionAt, Lines, Repin, ValueSpan, Value, VersionLine;
    var lines := Lines(t);
    var i := VersionLine(u, lines, 0);
    RepinLines(u, t, v);
    RepinVersionLine(u, lines, v, 0);
    if i < |lines| {
      VersionAtHasValue(u, lines, i);
      RepinValue(u, lines[i], v);
    }
  }

  lemma VersionAtHasValue(u: Python, lines: seq<string>, i: nat)
    requires i < |lines| && VersionAt(u, lines, i)
    ensures ValueSpan(u, lines[i]).Some?
  {
  }

  // ---- Validation ----

  function Decimal(u: Python, s: string): nat
    requires forall i :: 0 <= i < |s| ==> Digit(u, s[i])
  {
    if s == "" then 0 else 10 * Decimal(u, s[..|s| - 1]) + DigitValue(u, s[|s| - 1])
  }

  // The integer parser ignores surrounding space.
  function Int(u: Python, s: string): Option<int> {
    var t := Strip(u, s);
    if t != "" && (forall i :: 0 <= i < |t| ==> Digit(u, t[i])) then Some(Decimal(u, t)) else u.oddInt(s)
  }

  function Dot(s: string, i: nat): (j: nat)
    requires i <= |s|
    ensures i <= j <= |s| && (j < |s| ==> s[j] == '.') && (forall k :: i <= k < j ==> s[k] != '.')
    decreases |s| - i
  {
    if i == |s| || s[i] == '.' then i else Dot(s, i + 1)
  }

  // `None` when there are not exactly three parts, or one is no integer.
  function Triple(u: Python, s: string): Option<(int, int, int)> {
    var i := Dot(s, 0);
    if i == |s| then None
    else
      var j := Dot(s, i + 1);
      if j == |s| || Dot(s, j + 1) < |s| then None
      else
        var a, b, c := Int(u, s[..i]), Int(u, s[i + 1..j]), Int(u, s[j + 1..]);
        if a.None? || b.None? || c.None? then None else Some((a.value, b.value, c.value))
  }

  predicate Less(a: (int, int, int), b: (int, int, int)) {
    a.0 < b.0 || (a.0 == b.0 && (a.1 < b.1 || (a.1 == b.1 && a.2 < b.2)))
  }

  // The pattern's `$` also matches before a final line feed.
  predicate WellFormed(u: Python, s: string) {
    Numeric(u, s) || (s != "" && s[|s| - 1] == '\n' && Numeric(u, s[..|s| - 1]))
  }

  datatype Verdict = Malformed | NotGreater | Unparseable | Accepted

  function Validate(u: Python, target: string, current: string): Verdict {
    if !WellFormed(u, target) then Malformed
    else
      var a, b := Triple(u, target), Triple(u, current);
      if a.None? || b.None? then Unparseable
      else if Less(b.value, a.value) then Accepted
      else NotGreater
  }

  predicate Digits(u: Python, s: string) {
    s != "" && forall i :: 0 <= i < |s| ==> Digit(u, s[i])
  }

  lemma IntOfDigits(u: Python, x: string)
    requires Digits(u, x)
    ensures Int(u, x) == Some(Decimal(u, x))
  {
    hide Strip;
    StripDigits(u, x);
  }

  lemma NoDotInDigits(u: Python, x: string)
    requires Digits(u, x)
    ensures '.' !in x
  {
    DotIsNoDigit(u);
  }

  // The next dot stands at the end of a dotless part.
  lemma DotWithin(s: string, i: nat, j: nat)
    requires i <= j <= |s| && '.' !in s[i..j] && (j == |s| || s[j] == '.')
    ensures Dot(s, i) == j
  {
    assert forall k :: i <= k < j ==> s[k] == s[i..j][k - i];
  }

  // The triple of a dotted version holds its three numbers, in order.
  lemma TripleReads(u: Python, s: string, i: nat, j: nat)
    requires i < j < |s| && s[i] == '.' && s[j] == '.'
    requires Digits(u, s[..i]) && Digits(u, s[i + 1..j]) && Digits(u, s[j + 1..])
    ensures Triple(u, s) == Some((Decimal(u, s[..i]), Decimal(u, s[i + 1..j]), Decimal(u, s[j + 1..])))
  {
    hide Digits, Int, Decimal, Dot, Digit;
    var a, b, c := s[..i], s[i + 1..j], s[j + 1..];
    NoDotInDigits(u, a);
    NoDotInDigits(u, b);
    NoDotInDigits(u, c);
    IntOfDigits(u, a);
    IntOfDigits(u, b);
    IntOfDigits(u, c);
    assert s[0..i] == a && s[j + 1..|s|] == c;
    DotWithin(s, 0, i);
    DotWithin(s, i + 1, j);
    DotWithin(s, j + 1, |s|);
  }

  // Against a readable current version, a plain target is accepted exactly when
  // it is higher.
  lemma AcceptsExactly(u: Python, target: string, current: string)
    requires Numeric(u, target) && Triple(u, current).Some?
    ensures Triple(u, target).Some?
    ensures var ((a, b, c), (d, e, f)) := (Triple(u, target).value, Triple(u, current).value);
            Validate(u, target, current) == if a > d || (a == d && b > e) || (a == d && b == e && c > f) then Accepted else NotGreater
  {
    hide Triple, Numeric;
    TripleIgnoresLineFeed(u, target);
  }

  // How the number triple is written.
  function Dotted(a: nat, b: nat, c: nat): string {
    Decimals.Decimal(a) + "." + Decimals.Decimal(b) + "." + Decimals.Decimal(c)
  }

  lemma {:induction false} DecimalReads(u: Python, n: nat)
    ensures Digits(u, Decimals.Decimal(n)) && Decimal(u, Decimals.Decimal(n)) == n
  {
    var s := Decimals.Decimal(n);
    assert forall i :: 0 <= i < |s| ==> Decimals.IsDigit(s[i]);
    hide Digit;
    AsciiDigits(u);
    if n >= 10 {
      DecimalReads(u, n / 10);
      assert s[..|s| - 1] == Decimals.Decimal(n / 10);
    } else {
      assert s[..0] == "";
    }
  }

  lemma AsciiDigits(u: Python)
    ensures forall c :: Decimals.IsDigit(c) ==> Digit(u, c) && DigitValue(u, c) == Decimals.DigitValue(c)
    ensures forall d :: 0 <= d < 10 ==> Decimals.IsDigit(Decimals.DIGITS[d]) && Decimals.DigitValue(Decimals.DIGITS[d]) == d
  {
  }

  lemma DottedReads(u: Python, a: nat, b: nat, c: nat)
    ensures Numeric(u, Dotted(a, b, c)) && Triple(u, Dotted(a, b, c)) == Some((a, b, c))
  {
    hide Digits, Digit, Triple, Numeric, Decimals.Decimal, Decimal;
    var x, y, z, s := Decimals.Decimal(a), Decimals.Decimal(b), Decimals.Decimal(c), Dotted(a, b, c);
    var i := |x|;
    var j := i + 1 + |y|;
    assert s[..i] == x && s[i + 1..j] == y && s[j + 1..] == z && s[i] == s[j] == '.';
    DecimalReads(u, a);
    DecimalReads(u, b);
    DecimalReads(u, c);
    TripleReads(u, s, i, j);
    NumericFrom(u, s, i, j);
  }

  // A higher major number is accepted, so is a higher minor one below an equal major
  // number, and a higher patch number below two equal ones; nothing else is.
  lemma AcceptsHigherNumbers(u: Python, a: nat, b: nat, c: nat, d: nat, e: nat, f: nat)
    ensures Validate(u, Dotted(a, b, c), Dotted(d, e, f))
         == if a > d || (a == d && b > e) || (a == d && b == e && c > f) then Accepted else NotGreater
  {
    hide Dotted, Validate, Triple, Numeric;
    DottedReads(u, a, b, c);
    DottedReads(u, d, e, f);
    AcceptsExactly(u, Dotted(a, b, c), Dotted(d, e, f));
  }

  lemma DigitsEndAt(u: Python, s: string, i: nat, j: nat)
    requires i < j <= |s| && Digits(u, s[i..j]) && (j == |s| || !Digit(u, s[j]))
    ensures DigitsEnd(u, s, i) == j
  {
    hide Digit;
    assert forall k :: i <= k < j ==> s[k] == s[i..j][k - i];
  }

  lemma NumericFrom(u: Python, s: string, i: nat, j: nat)
    requires i < j < |s| && s[i] == '.' && s[j] == '.'
    requires Digits(u, s[..i]) && Digits(u, s[i + 1..j]) && Digits(u, s[j + 1..])
    ensures Numeric(u, s)
  {
    hide Digit;
    DotIsNoDigit(u);
    assert s[0..i] == s[..i] && s[j + 1..|s|] == s[j + 1..];
    DigitsEndAt(u, s, 0, i);
    DigitsEndAt(u, s, i + 1, j);
    DigitsEndAt(u, s, j + 1, |s|);
  }

  // Plain versions are three digit strings joined by dots, and nothing else.
  lemma NumericExactly(u: Python, s: string)
    ensures Numeric(u, s) <==>
              exists i, j :: 0 <= i < j < |s| && s[i] == '.' && s[j] == '.'
                && Digits(u, s[..i]) && Digits(u, s[i + 1..j]) && Digits(u, s[j + 1..])
  {
    hide Digit, Digits, Numeric;
    if Numeric(u, s) {
      NumericParts(u, s);
    }
    forall i, j | 0 <= i < j < |s| && s[i] == '.' && s[j] == '.'
      && Digits(u, s[..i]) && Digits(u, s[i + 1..j]) && Digits(u, s[j + 1..])
      ensures Numeric(u, s)
    {
      NumericFrom(u, s, i, j);
    }
  }

  lemma NumericParts(u: Python, s: string)
    requires Numeric(u, s)
    ensures exists i, j :: 0 <= i < j < |s| && s[i] == '.' && s[j] == '.'
              && Digits(u, s[..i]) && Digits(u, s[i + 1..j]) && Digits(u, s[j + 1..])
  {
    hide Digit;
    var i := DigitsEnd(u, s, 0);
    var j := DigitsEnd(u, s, i + 1);
    assert s[i] == '.' && s[j] == '.' && Digits(u, s[..i]) && Digits(u, s[i + 1..j]) && Digits(u, s[j + 1..]);
  }

  lemma NumericEndsInDigit(u: Python, s: string)
    requires Numeric(u, s)
    ensures s != "" && s[|s| - 1] != '\n'
  {
    DotIsNoDigit(u);
  }

  // A well-formed target is the plain version exactly when it ends in no line feed.
  lemma PlainExactly(u: Python, target: string)
    requires WellFormed(u, target)
    ensures target != "" && (Numeric(u, target) <==> target[|target| - 1] != '\n')
  {
    hide Numeric;
    if Numeric(u, target) { NumericEndsInDigit(u, target); }
  }

  lemma ValueHasNoBreak(u: Python, l: string, last: bool, c: char)
    requires IsLine(l, last) && ValueSpan(u, l).Some? && Break(c)
    ensures c !in Value(u, l)
  {
    hide Break;
    var s := ValueSpan(u, l).value;
    assert forall i :: 0 <= i < |Value(u, l)| ==> Value(u, l)[i] == l[s.0 + i];
  }

  lemma VersionHasNoBreak(u: Python, t: string, c: char)
    requires Version(u, t).Some? && Break(c)
    ensures c !in Version(u, t).value
  {
    hide Lines, VersionLine, ValueSpan, Value, Header, InProject, IsLine;
    var lines := Lines(t);
    var i := VersionLine(u, lines, 0);
    LinesSplit(t);
    ValueHasNoBreak(u, lines[i], i == |lines| - 1, c);
  }

  // The new version can be read back exactly when the accepted target ends in no
  // line feed.
  lemma ReadsBackExactly(u: Python, t: string, target: string)
    requires Version(u, t).Some? && WellFormed(u, target)
    ensures target != "" && (Version(u, Replaced(u, t, target)) == Some(target) <==> target[|target| - 1] != '\n')
  {
    hide Version, Replaced, Numeric, WellFormed;
    PlainExactly(u, target);
    var r := Replaced(u, t, target);
    if target[|target| - 1] != '\n' {
      NumericChars(u, target);
      ReadsBack(u, t, target);
    } else if Version(u, r).Some? {
      VersionHasNoBreak(u, r, '\n');
    }
  }

  lemma StripDigits(u: Python, x: string)
    requires x != "" && forall i :: 0 <= i < |x| ==> Digit(u, x[i])
    ensures Strip(u, x) == x && Strip(u, x + "\n") == x
  {
    SpacesAreNoDigits(u);
    hide Digit;
    var y := x + "\n";
    assert y[0] == x[0] && Space(u, '\n') && y[..|x|] == x;
    hide Space;
    assert y[0..] == y && x[0..] == x;
    assert y[|y| - 1] == '\n' && y[..|y| - 1] == x;
    assert TrimEnd(u, y) == TrimEnd(u, x);
  }

  // Where the dots of a plain version are, with or without a line feed after it.
  lemma NumericDots(u: Python, v: string)
    requires Numeric(u, v)
    ensures var i := DigitsEnd(u, v, 0);
            i < |v| && var j := DigitsEnd(u, v, i + 1);
            && 0 < i && i + 1 < j < |v| - 1
            && Dot(v, 0) == i && Dot(v, i + 1) == j && Dot(v, j + 1) == |v|
            && Dot(v + "\n", 0) == i && Dot(v + "\n", i + 1) == j && Dot(v + "\n", j + 1) == |v| + 1
            && (forall k :: 0 <= k < |v| && k != i && k != j ==> Digit(u, v[k]))
  {
    DotIsNoDigit(u);
    hide Digit;
    var i := DigitsEnd(u, v, 0);
    var j := DigitsEnd(u, v, i + 1);
    var y := v + "\n";
    assert y[i] == '.' && y[j] == '.' && y[|v|] == '\n';
  }

  lemma SliceOfSum(v: string, w: string, i: nat, j: nat)
    requires i <= j <= |v|
    ensures (v + w)[i..j] == v[i..j]
  {
  }

  // A line feed after a plain version does not change its reading ...
  lemma TripleIgnoresLineFeed(u: Python, v: string)
    requires Numeric(u, v)
    ensures Triple(u, v).Some? && Triple(u, v + "\n") == Triple(u, v)
  {
    hide Digit, Numeric, Strip, Dot, DigitsEnd;
    NumericDots(u, v);
    var i := DigitsEnd(u, v, 0);
    var j := DigitsEnd(u, v, i + 1);
    var y := v + "\n";
    SliceOfSum(v, "\n", 0, i);
    SliceOfSum(v, "\n", i + 1, j);
    assert y[j + 1..] == v[j + 1..] + "\n";
    StripDigits(u, v[..i]);
    StripDigits(u, v[i + 1..j]);
    StripDigits(u, v[j + 1..]);
  }

  // ... so the check accepts it whenever it accepts the version itself.
  lemma LineFeedGoesUnnoticed(u: Python, v: string, current: string)
    requires Numeric(u, v)
    ensures Validate(u, v + "\n", current) == Validate(u, v, current)
  {
    hide Triple, Numeric;
    TripleIgnoresLineFeed(u, v);
    assert (v + "\n")[..|v|] == v;
  }

  // So every acceptable version has a variant that is accepted too, yet cannot be
  // read back once written.
  lemma LineFeedIsLost(u: Python, t: string, v: string)
    requires Version(u, t).Some? && Numeric(u, v) && Validate(u, v, Version(u, t).value) == Accepted
    ensures Validate(u, v + "\n", Version(u, t).value) == Accepted
    ensures Version(u, Replaced(u, t, v + "\n")) != Some(v + "\n")
  {
    hide Version, Replaced, Numeric;
    LineFeedGoesUnnoticed(u, v, Version(u, t).value);
    ReadsBackExactly(u, t, v + "\n");
  }

  // ---- The surroundings under repinning ----

  // Rewriting pins twice is rewriting them to the second version.
  lemma {:induction false} RepinTwice(u: Python, t: string, v: string, w: string)
    requires Numeric(u, v)
    ensures Repin(u, Repin(u, t, v), w) == Repin(u, t, w)
    decreases |t|
  {
    hide Pin, Numeric, Digit;
    var r := Repin(u, t, v);
    if t == "" {
    } else if Pin(u, t).Some? {
      var n, p := Pin(u, t).value, PIN + v;
      var rest := Repin(u, t[n..], v);
      assert r == p + rest;
      if t[n..] != "" {
        RepinFirst(u, t[n..], v);
        PinStops(u, t);
        DotIsNoDigit(u);
      }
      NothingRepinned(u, v);
      NewPin(u, v, rest);
      assert r[|p|..] == rest;
      RepinTwice(u, t[n..], v, w);
    } else {
      assert r == [t[0]] + Repin(u, t[1..], v);
      if Pin(u, r).Some? { NoPinFromCopy(u, t, v); }
      assert r[1..] == Repin(u, t[1..], v);
      RepinTwice(u, t[1..], v, w);
    }
  }

  lemma NothingRepinned(u: Python, v: string)
    ensures Repin(u, "", v) == ""
  {
  }

  ghost predicate Terminated(lines: seq<string>) {
    forall i :: 0 <= i < |lines| ==> lines[i] != "" && Break(lines[i][|lines[i]| - 1])
  }

  lemma {:induction false} RepinTerminated(u: Python, lines: seq<string>, x: string, v: string)
    requires Terminated(lines)
    ensures Repin(u, Join(lines) + x, v) == Join(RepinAll(u, lines, v)) + Repin(u, x, v)
    decreases |lines|
  {
    hide Repin, Break;
    if lines == [] {
      assert "" + x == x && "" + Repin(u, x, v) == Repin(u, x, v);
    } else {
      var l, rest := lines[0], lines[1..];
      RepinTerminated(u, rest, x, v);
      RepinAfterBreak(u, l, Join(rest) + x, v);
      assert Join(lines) + x == l + (Join(rest) + x);
      assert RepinAll(u, lines, v)[1..] == RepinAll(u, rest, v);
      assert Repin(u, l, v) + (Join(RepinAll(u, rest, v)) + Repin(u, x, v)) == Join(RepinAll(u, lines, v)) + Repin(u, x, v);
    }
  }

  lemma RepinBefore(u: Python, lines: seq<string>, i: nat, v: string)
    requires AreLines(lines) && i < |lines| && ValueSpan(u, lines[i]).Some?
    ensures var open := lines[i][..ValueSpan(u, lines[i]).value.0];
            Repin(u, Join(lines[..i]) + open, v) == Join(RepinAll(u, lines[..i], v)) + open
  {
    hide Repin, Opening, Quote, Join, Break;
    var l := lines[i];
    var open := l[..ValueSpan(u, l).value.0];
    NoQuoteInValue(u, l);
    OpeningHasNoJ(u, l);
    assert forall k :: 0 <= k < |open| ==> open[k] == l[k];
    RepinSkip(u, open, "", v);
    NothingRepinned(u, v);
    assert open + "" == open;
    assert Terminated(lines[..i]) by {
      assert forall k :: 0 <= k < i ==> IsLine(lines[k], k == |lines| - 1);
    }
    RepinTerminated(u, lines[..i], open, v);
  }

  lemma RepinBehind(u: Python, lines: seq<string>, i: nat, k: nat, v: string)
    requires AreLines(lines) && i < |lines| && k < |lines[i]|
    ensures Repin(u, lines[i][k..] + Join(lines[i + 1..]), v) == Repin(u, lines[i][k..], v) + Join(RepinAll(u, lines[i + 1..], v))
  {
    hide Repin, Break;
    var tail, rest := lines[i][k..], lines[i + 1..];
    if rest == [] {
      assert tail + "" == tail && Repin(u, tail, v) + "" == Repin(u, tail, v);
    } else {
      assert IsLine(lines[i], i == |lines| - 1);
      assert tail[|tail| - 1] == lines[i][|lines[i]| - 1];
      RepinAfterBreak(u, tail, Join(rest), v);
      forall j | 0 <= j < |rest| ensures IsLine(rest[j], j == |rest| - 1) {
        assert IsLine(lines[i + 1 + j], i + 1 + j == |lines| - 1);
      }
      RepinJoin(u, rest, v);
    }
  }

  // Rewriting pins rewrites those in the surroundings, and nothing else there.
  lemma RepinnedSurroundings(u: Python, t: string, v: string)
    requires Numeric(u, v)
    ensures Surroundings(u, Repin(u, t, v)) ==
              var s := Surroundings(u, t); if s.None? then None else Some((Repin(u, s.value.0, v), Repin(u, s.value.1, v)))
  {
    hide Numeric, VersionAt, Lines, Repin, ValueSpan, Value, VersionLine, Join, AreLines;
    var lines := Lines(t);
    var i := VersionLine(u, lines, 0);
    RepinLines(u, t, v);
    RepinVersionLine(u, lines, v, 0);
    LinesSplit(t);
    if i < |lines| {
      VersionAtHasValue(u, lines, i);
      RepinSpan(u, lines[i], v);
      RepinBefore(u, lines, i, v);
      RepinBehind(u, lines, i, ValueSpan(u, lines[i]).value.1, v);
      RepinAllParts(u, lines, i, v);
    }
  }

  lemma RepinAllParts(u: Python, lines: seq<string>, i: nat, v: string)
    requires i < |lines|
    ensures RepinAll(u, lines, v)[..i] == RepinAll(u, lines[..i], v)
    ensures RepinAll(u, lines, v)[i + 1..] == RepinAll(u, lines[i + 1..], v)
  {
    hide Repin;
  }
}
