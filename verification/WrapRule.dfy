/** Parameter substitution in oracle rules (bench/oracle/jqa_runner.py, `_wrap_rule`).

    The code rewrites the rule text in three stages: each provided `$name`
    becomes a NUL-delimited sentinel, every remaining `$name` becomes NULL, and
    each sentinel becomes its JSON-quoted value.  The reference is one pass over
    the template that never looks at inserted text again. */
module WrapRule {
  import opened Decimals

  const NUL: char := '\0'

  predicate IdStart(c: char) {
    'A' <= c <= 'Z' || 'a' <= c <= 'z' || c == '_'
  }

  predicate IdChar(c: char) {
    IdStart(c) || IsDigit(c)
  }

  predicate Identifier(s: string) {
    s != "" && IdStart(s[0]) && forall i :: 0 <= i < |s| ==> IdChar(s[i])
  }

  // Length of the longest prefix made of identifier characters.
  function Run(s: string): (n: nat)
    ensures n <= |s|
    ensures forall i :: 0 <= i < n ==> IdChar(s[i])
    ensures n < |s| ==> !IdChar(s[n])
  {
    if s != "" && IdChar(s[0]) then 1 + Run(s[1..]) else 0
  }

  // Does the pattern \$[A-Za-z_][A-Za-z0-9_]* match at the front?
  predicate AtPlaceholder(s: string) {
    |s| >= 2 && s[0] == '$' && IdStart(s[1])
  }

  function Name(s: string): (name: string)
    requires AtPlaceholder(s)
    ensures Identifier(name)
    ensures |name| < |s| && s[1..1 + |name|] == name
    ensures |s| > 1 + |name| ==> !IdChar(s[1 + |name|])
  {
    s[1..1 + Run(s[1..])]
  }

  function After(s: string): string
    requires AtPlaceholder(s)
  {
    s[1 + |Name(s)|..]
  }

  // str.replace: leftmost, non-overlapping, never rescanning.
  function Replace(s: string, old_: string, rep: string): string
    requires old_ != ""
  {
    if s == "" then ""
    else if old_ <= s then rep + Replace(s[|old_|..], old_, rep)
    else [s[0]] + Replace(s[1..], old_, rep)
  }

  // re.sub of the placeholder pattern by NULL.
  function NullPass(s: string): string {
    if s == "" then ""
    else if AtPlaceholder(s) then "NULL" + NullPass(After(s))
    else [s[0]] + NullPass(s[1..])
  }

  // ---- json.dumps of a string, ASCII only ----

  function Hex(d: nat): (c: char)
    requires d < 16
    ensures c != NUL
  {
    if d < 10 then ('0' as int + d) as char else ('a' as int + d - 10) as char
  }

  function UnicodeEscape(n: nat): (e: string)
    requires n < 0x10000
    ensures NUL !in e
  {
    "\\u" + [Hex(n / 0x1000), Hex(n / 0x100 % 16), Hex(n / 16 % 16), Hex(n % 16)]
  }

  function EscapeChar(c: char): (e: string)
    ensures NUL !in e
  {
    if c == '"' then "\\\""
    else if c == '\\' then "\\\\"
    else if c == '\n' then "\\n"
    else if c == '\r' then "\\r"
    else if c == '\t' then "\\t"
    else if c == 8 as char then "\\b"
    else if c == 12 as char then "\\f"
    else if ' ' <= c <= '~' then [c]
    else if c as int < 0x10000 then UnicodeEscape(c as int)
    else
      var v := c as int - 0x10000;
      UnicodeEscape(0xD800 + v / 0x400) + UnicodeEscape(0xDC00 + v % 0x400)
  }

  function EscapeAll(s: string): (e: string)
    ensures NUL !in e
  {
    if s == "" then "" else EscapeChar(s[0]) + EscapeAll(s[1..])
  }

  function Quote(s: string): (q: string)
    ensures |q| >= 2 && q[0] == '"' && NUL !in q
  {
    "\"" + EscapeAll(s) + "\""
  }

  // ---- A reader of JSON strings ----

  datatype Scan = Bad | Text(value: string, rest: string) {
    // The same with one more character in front.
    function Behind(c: char): Scan {
      if Bad? then Bad else Text([c] + value, rest)
    }
  }

  function HexValue(c: char): (v: int)
    ensures -1 <= v < 16
  {
    if '0' <= c <= '9' then c as int - '0' as int
    else if 'a' <= c <= 'f' then c as int - 'a' as int + 10
    else if 'A' <= c <= 'F' then c as int - 'A' as int + 10
    else -1
  }

  // The code unit that four hexadecimal digits name; -1 if the text starts otherwise.
  function CodeUnit(s: string): (v: int)
    ensures -1 <= v < 0x10000 && (v >= 0 ==> |s| >= 4)
  {
    if |s| < 4 || exists i :: 0 <= i < 4 && HexValue(s[i]) < 0 then -1
    else ((HexValue(s[0]) * 16 + HexValue(s[1])) * 16 + HexValue(s[2])) * 16 + HexValue(s[3])
  }

  predicate HighSurrogate(v: int) {
    0xD800 <= v < 0xDC00
  }

  predicate LowSurrogate(v: int) {
    0xDC00 <= v < 0xE000
  }

  // The character that a backslash and this letter stand for; none in most cases.
  function Letter(c: char): (e: string)
    ensures |e| <= 1
  {
    if c in "\"\\/" then [c]
    else if c == 'n' then "\n"
    else if c == 'r' then "\r"
    else if c == 't' then "\t"
    else if c == 'b' then [8 as char]
    else if c == 'f' then [12 as char]
    else ""
  }

  // From inside a literal: its characters up to the first quote that no backslash
  // escapes, and the text behind that quote.
  function Inside(s: string): Scan {
    if s == "" || s[0] < ' ' then Bad
    else if s[0] == '"' then Text("", s[1..])
    else if s[0] != '\\' then Inside(s[1..]).Behind(s[0])
    else if |s| == 1 then Bad
    else if Letter(s[1]) != "" then Inside(s[2..]).Behind(Letter(s[1])[0])
    else if s[1] != 'u' then Bad
    else
      var v := CodeUnit(s[2..]);
      if v < 0 || LowSurrogate(v) then Bad
      else if !HighSurrogate(v) then Inside(s[6..]).Behind(v as char)
      else if |s| < 8 || s[6] != '\\' || s[7] != 'u' then Bad
      else
        var w := CodeUnit(s[8..]);
        if LowSurrogate(w) then Inside(s[12..]).Behind((0x10000 + (v - 0xD800) * 0x400 + (w - 0xDC00)) as char) else Bad
  }

  // The string literal at the front of a text, and what is behind it.
  function ReadString(s: string): Scan {
    if s == "" || s[0] != '"' then Bad else Inside(s[1..])
  }

  lemma HexReads(d: nat)
    requires d < 16
    ensures HexValue(Hex(d)) == d
  {
  }

  lemma FourDigits(n: nat)
    requires n < 0x10000
    ensures ((n / 0x1000 * 16 + n / 0x100 % 16) * 16 + n / 16 % 16) * 16 + n % 16 == n
  {
  }

  lemma UnitReads(n: nat, t: string)
    requires n < 0x10000
    ensures var e := UnicodeEscape(n); |e| == 6 && e[0] == '\\' && e[1] == 'u' && CodeUnit((e + t)[2..]) == n
  {
    FourDigits(n);
    HexReads(n / 0x1000);
    HexReads(n / 0x100 % 16);
    HexReads(n / 16 % 16);
    HexReads(n % 16);
    hide HexValue, Hex;
    var s := (UnicodeEscape(n) + t)[2..];
    assert s[0] == Hex(n / 0x1000) && s[1] == Hex(n / 0x100 % 16) && s[2] == Hex(n / 16 % 16) && s[3] == Hex(n % 16);
  }

  lemma LetterReads(c: char, t: string)
    requires c in "\"\\\n\r\t\U{8}\U{C}"
    ensures Inside(EscapeChar(c) + t) == Inside(t).Behind(c)
  {
    hide CodeUnit, UnicodeEscape;
    var e := EscapeChar(c);
    LetterMeans(c);
    hide EscapeChar, Letter;
    var s := e + t;
    assert s[0] == '\\' && s[1] == e[1] && s[2..] == t;
  }

  lemma LetterMeans(c: char)
    requires c in "\"\\\n\r\t\U{8}\U{C}"
    ensures var e := EscapeChar(c); |e| == 2 && e[0] == '\\' && Letter(e[1]) == [c]
  {
  }

  lemma CharReads(c: char, t: string)
    ensures Inside(EscapeChar(c) + t) == Inside(t).Behind(c)
  {
    hide UnicodeEscape, CodeUnit;
    if c as int >= 0x10000 {
      PairReads(c, t);
    } else if c in "\"\\\n\r\t\U{8}\U{C}" {
      LetterReads(c, t);
    } else if ' ' <= c <= '~' {
      PlainReads(c, t);
    } else {
      UnitIsRead(c, t);
    }
  }

  lemma PlainReads(c: char, t: string)
    requires ' ' <= c <= '~' && c != '"' && c != '\\'
    ensures Inside(EscapeChar(c) + t) == Inside(t).Behind(c)
  {
    hide UnicodeEscape, CodeUnit, Letter;
    assert ([c] + t)[1..] == t;
  }

  lemma UnitIsRead(c: char, t: string)
    requires c as int < 0x10000 && c !in "\"\\\n\r\t\U{8}\U{C}" && !(' ' <= c <= '~')
    ensures Inside(EscapeChar(c) + t) == Inside(t).Behind(c)
  {
    hide CodeUnit, UnicodeEscape;
    UnitReads(c as int, t);
    assert EscapeChar(c) == UnicodeEscape(c as int);
    hide EscapeChar;
    var s := EscapeChar(c) + t;
    assert s[0] == '\\' && s[1] == 'u' && s[6..] == t;
  }

  lemma PairReads(c: char, t: string)
    requires c as int >= 0x10000
    ensures Inside(EscapeChar(c) + t) == Inside(t).Behind(c)
  {
    hide CodeUnit, UnicodeEscape;
    var v := c as int - 0x10000;
    var x, y := UnicodeEscape(0xD800 + v / 0x400), UnicodeEscape(0xDC00 + v % 0x400);
    var s := EscapeChar(c) + t;
    UnitReads(0xD800 + v / 0x400, y + t);
    UnitReads(0xDC00 + v % 0x400, t);
    assert s == x + (y + t) && s[8..] == (y + t)[2..] && s[12..] == t;
    assert s[6] == y[0] && s[7] == y[1];
  }

  lemma {:induction false} InsideReads(s: string, t: string)
    ensures Inside(EscapeAll(s) + "\"" + t) == Text(s, t)
  {
    hide EscapeChar;
    if s == "" {
      assert "" + "\"" + t == "\"" + t && ("\"" + t)[1..] == t;
    } else {
      InsideReads(s[1..], t);
      CharReads(s[0], EscapeAll(s[1..]) + "\"" + t);
      assert EscapeAll(s) + "\"" + t == EscapeChar(s[0]) + (EscapeAll(s[1..]) + "\"" + t);
    }
  }

  // A quoted text is one literal for that very text: whatever stands behind it, it
  // is read back, and ends with its own last character.
  lemma QuoteReads(s: string, t: string)
    ensures ReadString(Quote(s) + t) == Text(s, t)
  {
    hide Inside;
    InsideReads(s, t);
    assert (Quote(s) + t)[1..] == EscapeAll(s) + "\"" + t;
  }

  lemma QuoteInjective(s: string, t: string)
    requires Quote(s) == Quote(t)
    ensures s == t
  {
    hide Quote, ReadString;
    QuoteReads(s, "");
    QuoteReads(t, "");
  }

  // ---- The code's stages ----

  // A parameter dict in iteration order; its keys are distinct.
  type Params = seq<(string, string)>

  ghost predicate DictOrder(ps: Params) {
    forall i, j :: 0 <= i < j < |ps| ==> ps[i].0 != ps[j].0
  }

  ghost predicate IdentifierKeys(ps: Params) {
    forall i :: 0 <= i < |ps| ==> Identifier(ps[i].0)
  }

  function Marker(r: nat): string {
    [NUL] + "PARAM" + Decimal(r)
  }

  function Sentinel(i: nat): string {
    Marker(i) + [NUL]
  }

  function Swapped(t: string, ps: Params, i: nat): string
    requires i <= |ps|
  {
    if i == 0 then t
    else Replace(Swapped(t, ps, i - 1), "$" + ps[i - 1].0, Sentinel(i - 1))
  }

  function Materialized(x: string, ps: Params, i: nat): string
    requires i <= |ps|
  {
    if i == 0 then x
    else Replace(Materialized(x, ps, i - 1), Sentinel(i - 1), Quote(ps[i - 1].1))
  }

  function Staged(t: string, ps: Params): string {
    Materialized(NullPass(Swapped(t, ps, |ps|)), ps, |ps|)
  }

  // ---- The reference: one simultaneous substitution ----

  function AsMap(ps: Params): map<string, string> {
    if ps == [] then map[] else AsMap(ps[..|ps| - 1])[ps[|ps| - 1].0 := ps[|ps| - 1].1]
  }

  function Simultaneous(t: string, m: map<string, string>): string {
    if t == "" then ""
    else if AtPlaceholder(t) then
      (if Name(t) in m then Quote(m[Name(t)]) else "NULL") + Simultaneous(After(t), m)
    else [t[0]] + Simultaneous(t[1..], m)
  }

  // ---- When the two agree ----

  function Names(t: string): set<string> {
    if t == "" then {}
    else if AtPlaceholder(t) then {Name(t)} + Names(After(t))
    else Names(t[1..])
  }

  ghost predicate ProperPrefix(k: string, name: string) {
    k <= name && k != name
  }

  // Whenever a key is a proper prefix of a placeholder's name, that name is
  // itself a key and comes earlier in the dict.
  ghost predicate Unshadowed(names: set<string>, ps: Params) {
    forall name, m :: name in names && 0 <= m < |ps| && ProperPrefix(ps[m].0, name) ==>
      exists e :: 0 <= e < m && ps[e].0 == name
  }

  // ---- Stage 1 resolves each placeholder to the first key that is a prefix ----

  function Resolve(ps: Params, name: string): (r: nat)
    ensures r <= |ps|
    ensures forall m :: 0 <= m < r ==> !(ps[m].0 <= name)
    ensures r < |ps| ==> ps[r].0 <= name
  {
    if ps == [] || ps[0].0 <= name then 0 else 1 + Resolve(ps[1..], name)
  }

  // Template `t` after the keys before `i` have been swapped.
  ghost function Partial(t: string, ps: Params, i: nat): string
    requires i <= |ps|
  {
    if t == "" then ""
    else if AtPlaceholder(t) then
      var name := Name(t);
      var r := Resolve(ps, name);
      (if r < i then Sentinel(r) + name[|ps[r].0|..] else "$" + name) + Partial(After(t), ps, i)
    else [t[0]] + Partial(t[1..], ps, i)
  }

  lemma {:induction false} PartialHead(t: string, ps: Params, i: nat)
    requires i <= |ps|
    ensures t == "" <==> Partial(t, ps, i) == ""
    ensures t != "" ==> var c := Partial(t, ps, i)[0]; c == t[0] || (t[0] == '$' && c == NUL)
  {
  }

  lemma {:induction false} PartialStart(t: string, ps: Params)
    ensures Partial(t, ps, 0) == t
  {
    if t == "" {
    } else if AtPlaceholder(t) {
      PartialStart(After(t), ps);
      assert t == "$" + Name(t) + After(t);
    } else {
      PartialStart(t[1..], ps);
    }
  }

  // Text without the pattern's first character is copied.
  lemma {:induction false} ReplaceSkips(w: string, x: string, old_: string, rep: string)
    requires old_ != "" && old_[0] !in w
    ensures Replace(w + x, old_, rep) == w + Replace(x, old_, rep)
  {
    if w == "" {
      assert w + x == x;
    } else {
      assert (w + x)[1..] == w[1..] + x && (w + x)[0] == w[0];
      ReplaceSkips(w[1..], x, old_, rep);
      assert !(old_ <= w + x);
    }
  }

  lemma {:induction false} ReplaceMatches(x: string, old_: string, rep: string)
    requires old_ != ""
    ensures Replace(old_ + x, old_, rep) == rep + Replace(x, old_, rep)
  {
    assert old_ <= old_ + x && (old_ + x)[|old_|..] == x;
  }

  lemma NoDollar(r: nat, name: string, n: nat)
    requires Identifier(name) && n <= |name|
    ensures '$' !in Sentinel(r) + name[n..]
  {
  }

  // An identifier key is a prefix of name + rest only if it is one of name.
  lemma KeyStopsAtName(k: string, name: string, rest: string)
    requires Identifier(k)
    requires rest != "" ==> !IdChar(rest[0])
    ensures k <= name + rest <==> k <= name
  {
    assert |k| > |name| ==> IdChar(k[|name|]);
    assert rest != "" ==> (name + rest)[|name|] == rest[0];
  }

  lemma SwapHits(k: string, name: string, tail: string, s: string)
    requires Identifier(name) && k <= name
    ensures Replace("$" + name + tail, "$" + k, s) == s + name[|k|..] + Replace(tail, "$" + k, s)
  {
    var pat, suffix := "$" + k, name[|k|..];
    assert "$" + name + tail == pat + (suffix + tail);
    ReplaceMatches(suffix + tail, pat, s);
    ReplaceSkips(suffix, tail, pat, s);
    assert s + suffix + Replace(tail, pat, s) == s + (suffix + Replace(tail, pat, s));
  }

  lemma SwapMisses(k: string, name: string, tail: string, s: string)
    requires Identifier(name) && Identifier(k) && !(k <= name)
    requires tail != "" ==> !IdChar(tail[0])
    ensures Replace("$" + name + tail, "$" + k, s) == "$" + name + Replace(tail, "$" + k, s)
  {
    var pat, x := "$" + k, "$" + name + tail;
    KeyStopsAtName(k, name, tail);
    assert x[1..] == name + tail && pat[1..] == k;
    assert pat <= x ==> k <= name + tail;
    ReplaceSkips(name, tail, pat, s);
    assert "$" + name + Replace(tail, pat, s) == ['$'] + (name + Replace(tail, pat, s));
  }

  lemma SwapCopies(c: char, tail: string, k: string, s: string)
    requires Identifier(k)
    requires c == '$' && tail != "" ==> !IdStart(tail[0])
    ensures Replace([c] + tail, "$" + k, s) == [c] + Replace(tail, "$" + k, s)
  {
    var pat, x := "$" + k, [c] + tail;
    assert x[1..] == tail;
    assert pat[1] == k[0] && (tail != "" ==> x[1] == tail[0]);
  }

  lemma {:induction false} SwapStep(t: string, ps: Params, i: nat)
    requires i < |ps| && IdentifierKeys(ps)
    ensures Replace(Partial(t, ps, i), "$" + ps[i].0, Sentinel(i)) == Partial(t, ps, i + 1)
  {
    var k, s := ps[i].0, Sentinel(i);
    if t == "" {
    } else if AtPlaceholder(t) {
      var name, rest := Name(t), After(t);
      var tail := Partial(rest, ps, i);
      var r := Resolve(ps, name);
      SwapStep(rest, ps, i);
      PartialHead(rest, ps, i);
      if r < i {
        NoDollar(r, name, |ps[r].0|);
        ReplaceSkips(Sentinel(r) + name[|ps[r].0|..], tail, "$" + k, s);
      } else if r == i {
        SwapHits(k, name, tail, s);
      } else {
        SwapMisses(k, name, tail, s);
      }
    } else {
      SwapStep(t[1..], ps, i);
      PartialHead(t[1..], ps, i);
      SwapCopies(t[0], Partial(t[1..], ps, i), k, s);
    }
  }

  lemma {:induction false} SwappedIsPartial(t: string, ps: Params, i: nat)
    requires i <= |ps| && IdentifierKeys(ps)
    ensures Swapped(t, ps, i) == Partial(t, ps, i)
  {
    if i == 0 {
      PartialStart(t, ps);
    } else {
      SwappedIsPartial(t, ps, i - 1);
      SwapStep(t, ps, i - 1);
    }
  }

  // ---- Stage 2 ----

  ghost function Nulled(t: string, ps: Params): string {
    if t == "" then ""
    else if AtPlaceholder(t) then
      var name := Name(t);
      var r := Resolve(ps, name);
      (if r < |ps| then Sentinel(r) + name[|ps[r].0|..] else "NULL") + Nulled(After(t), ps)
    else [t[0]] + Nulled(t[1..], ps)
  }

  lemma {:induction false} NullPassSkips(w: string, x: string)
    requires '$' !in w
    ensures NullPass(w + x) == w + NullPass(x)
  {
    hide Name, After, IdStart;
    if w == "" {
      assert w + x == x;
    } else {
      assert (w + x)[1..] == w[1..] + x && (w + x)[0] == w[0];
      NullPassSkips(w[1..], x);
    }
  }

  lemma {:induction false} RunStops(name: string, rest: string)
    requires forall i :: 0 <= i < |name| ==> IdChar(name[i])
    requires rest != "" ==> !IdChar(rest[0])
    ensures Run(name + rest) == |name|
  {
    if name == "" {
      assert name + rest == rest;
    } else {
      assert (name + rest)[1..] == name[1..] + rest;
      RunStops(name[1..], rest);
    }
  }

  lemma NullHits(name: string, tail: string)
    requires Identifier(name)
    requires tail != "" ==> !IdChar(tail[0])
    ensures NullPass("$" + name + tail) == "NULL" + NullPass(tail)
  {
    var x := "$" + name + tail;
    assert x[1..] == name + tail && x[1] == name[0];
    RunStops(name, tail);
    assert AtPlaceholder(x) && Name(x) == name && After(x) == tail;
  }

  lemma {:induction false} NullStep(t: string, ps: Params)
    ensures NullPass(Partial(t, ps, |ps|)) == Nulled(t, ps)
  {
    if t == "" {
    } else if AtPlaceholder(t) {
      var name, rest := Name(t), After(t);
      var tail := Partial(rest, ps, |ps|);
      var r := Resolve(ps, name);
      NullStep(rest, ps);
      PartialHead(rest, ps, |ps|);
      if r < |ps| {
        NoDollar(r, name, |ps[r].0|);
        NullPassSkips(Sentinel(r) + name[|ps[r].0|..], tail);
      } else {
        NullHits(name, tail);
      }
    } else {
      NullStep(t[1..], ps);
      PartialHead(t[1..], ps, |ps|);
      var x := Partial(t, ps, |ps|);
      assert x[1..] == Partial(t[1..], ps, |ps|);
      assert !AtPlaceholder(x);
    }
  }

  // ---- Stage 3 ----

  // The text at `x` was a sentinel followed by the rest of a longer name: it is
  // still that sentinel, or it is materialized, or its closing NUL was taken by
  // another sentinel's match and it can never be materialized any more.
  ghost predicate Tainted(x: string, ps: Params, r: nat, i: nat)
    requires r < |ps|
  {
    || (r >= i && Sentinel(r) <= x)
    || (r < i && Quote(ps[r].1) <= x)
    || (Marker(r) + "\"" <= x)
  }

  // `x` is the text of stage 3 once the sentinels before `i` are materialized,
  // known exactly up to the first shadowed placeholder.
  ghost predicate Stage3(t: string, ps: Params, i: nat, x: string) {
    if t == "" then x == ""
    else if AtPlaceholder(t) then
      var name := Name(t);
      var r := Resolve(ps, name);
      if r == |ps| then "NULL" <= x && Stage3(After(t), ps, i, x[4..])
      else if ps[r].0 == name then
        var piece := if r < i then Quote(ps[r].1) else Sentinel(r);
        piece <= x && Stage3(After(t), ps, i, x[|piece|..])
      else Tainted(x, ps, r, i)
    else x != "" && x[0] == t[0] && Stage3(t[1..], ps, i, x[1..])
  }

  lemma Stage3Head(t: string, ps: Params, i: nat, x: string)
    requires Stage3(t, ps, i, x)
    requires t != "" ==> !IdChar(t[0])
    ensures x != "" ==> x[0] != 'P'
  {
  }

  lemma Chop(p: string, y: string)
    ensures p <= p + y && (p + y)[|p|..] == y
  {
  }

  lemma {:induction false} Stage3Start(t: string, ps: Params)
    ensures Stage3(t, ps, 0, Nulled(t, ps))
  {
    if t == "" {
    } else if AtPlaceholder(t) {
      var name, tail := Name(t), Nulled(After(t), ps);
      var r := Resolve(ps, name);
      Stage3Start(After(t), ps);
      if r == |ps| {
        Chop("NULL", tail);
      } else {
        var s, suffix := Sentinel(r), name[|ps[r].0|..];
        assert s + suffix + tail == s + (suffix + tail);
        Chop(s, suffix + tail);
        if ps[r].0 == name {
          assert suffix + tail == tail;
        }
      }
    } else {
      Stage3Start(t[1..], ps);
      Chop([t[0]], Nulled(t[1..], ps));
    }
  }

  lemma {:induction false} DigitsDelimited(a: string, c: char, y: string, b: string, d: char, z: string)
    requires (forall e :: e in a ==> IsDigit(e)) && (forall e :: e in b ==> IsDigit(e))
    requires !IsDigit(c) && !IsDigit(d) && a + [c] + y == b + [d] + z
    ensures a == b && c == d
  {
    var s := a + [c] + y;
    assert s[0] == if a == "" then c else a[0];
    assert s[0] == if b == "" then d else b[0];
    if a != "" && b != "" {
      assert s[1..] == a[1..] + [c] + y == b[1..] + [d] + z;
      DigitsDelimited(a[1..], c, y, b[1..], d, z);
      assert a == [a[0]] + a[1..] && b == [b[0]] + b[1..];
    }
  }

  // A sentinel is recognised by its first two NULs.
  lemma SentinelsDiffer(i: nat, r: nat, c: char, y: string)
    requires !IsDigit(c) && Sentinel(i) <= Marker(r) + [c] + y
    ensures i == r && c == NUL
  {
    var a, b, x := Decimal(i), Decimal(r), Marker(r) + [c] + y;
    var z := x[|Sentinel(i)|..];
    assert x == Sentinel(i) + z;
    assert x[6..] == b + [c] + y && (Sentinel(i) + z)[6..] == a + [NUL] + z;
    DigitsDelimited(a, NUL, z, b, c, y);
    DecimalInjective(i, r);
  }

  // Another sentinel's pass over `\0PARAMr` + c + y copies the marker.
  lemma PassesMarker(i: nat, r: nat, c: char, y: string, q: string)
    requires !IsDigit(c) && (i != r || c != NUL)
    ensures var m := Marker(r);
            Replace(m + ([c] + y), Sentinel(i), q) == m + Replace([c] + y, Sentinel(i), q)
  {
    var m := Marker(r);
    var body := "PARAM" + Decimal(r);
    var z := [c] + y;
    assert m + z == Marker(r) + [c] + y;
    if Sentinel(i) <= m + z {
      SentinelsDiffer(i, r, c, y);
    }
    assert (m + z)[1..] == body + z;
    assert NUL !in body;
    ReplaceSkips(body, z, Sentinel(i), q);
  }

  lemma ClosingNul(i: nat, y: string, q: string)
    requires y != "" ==> y[0] != 'P'
    ensures Replace([NUL] + y, Sentinel(i), q) == [NUL] + Replace(y, Sentinel(i), q)
  {
    var x := [NUL] + y;
    assert Sentinel(i)[1] == 'P';
    assert x[1..] == y;
  }

  lemma BrokenStays(x: string, r: nat, i: nat, q: string)
    requires Marker(r) + "\"" <= x
    ensures Marker(r) + "\"" <= Replace(x, Sentinel(i), q)
  {
    var m := Marker(r);
    var y := x[|m| + 1..];
    var z := ['"'] + y;
    assert x == m + z;
    PassesMarker(i, r, '"', y, q);
    DoneStays(z, "\"", i, q);
    Opens(m, Replace(z, Sentinel(i), q), '"');
  }

  lemma DoneStays(x: string, done: string, i: nat, q: string)
    requires NUL !in done && done <= x
    ensures Replace(x, Sentinel(i), q) == done + Replace(x[|done|..], Sentinel(i), q)
  {
    assert x == done + x[|done|..];
    ReplaceSkips(done, x[|done|..], Sentinel(i), q);
  }

  lemma OwnTurn(x: string, i: nat, q: string)
    requires Sentinel(i) <= x
    ensures Replace(x, Sentinel(i), q) == q + Replace(x[|Sentinel(i)|..], Sentinel(i), q)
  {
    assert x == Sentinel(i) + x[|Sentinel(i)|..];
    ReplaceMatches(x[|Sentinel(i)|..], Sentinel(i), q);
  }

  // Before its turn a sentinel keeps its text or loses its closing NUL.
  lemma OthersTurn(x: string, r: nat, i: nat, q: string)
    requires i != r && Sentinel(r) <= x && q != "" && q[0] == '"'
    ensures var out := Replace(x, Sentinel(i), q); Sentinel(r) <= out || Marker(r) + "\"" <= out
  {
    var m, out := Marker(r), Replace(x, Sentinel(i), q);
    var y := x[|m| + 1..];
    var z := [NUL] + y;
    assert x == m + z;
    PassesMarker(i, r, NUL, y, q);
    var w := Replace(z, Sentinel(i), q);
    if Sentinel(i) <= z {
      OwnTurn(z, i, q);
      Opens(m, w, '"');
    } else {
      Opens(m, w, NUL);
    }
  }

  lemma Opens(m: string, w: string, c: char)
    requires w != "" && w[0] == c
    ensures m + [c] <= m + w
  {
    assert m + w == (m + [c]) + w[1..];
  }

  lemma TaintedStep(x: string, ps: Params, r: nat, i: nat)
    requires r < |ps| && i < |ps| && Tainted(x, ps, r, i)
    ensures Tainted(Replace(x, Sentinel(i), Quote(ps[i].1)), ps, r, i + 1)
  {
    var q := Quote(ps[i].1);
    if Marker(r) + "\"" <= x {
      BrokenStays(x, r, i, q);
    } else if r < i {
      DoneStays(x, Quote(ps[r].1), i, q);
    } else if r == i {
      OwnTurn(x, i, q);
    } else {
      OthersTurn(x, r, i, q);
    }
  }

  // Where a sentinel stands for a whole name, what follows protects its closing NUL.
  lemma WaitingStays(x: string, r: nat, i: nat, q: string)
    requires i != r && Sentinel(r) <= x
    requires x[|Sentinel(r)|..] != "" ==> x[|Sentinel(r)|] != 'P'
    ensures Replace(x, Sentinel(i), q) == Sentinel(r) + Replace(x[|Sentinel(r)|..], Sentinel(i), q)
  {
    hide Replace;
    var m, y := Marker(r), x[|Sentinel(r)|..];
    assert x == m + ([NUL] + y);
    PassesMarker(i, r, NUL, y, q);
    ClosingNul(i, y, q);
    assert Sentinel(r) + Replace(y, Sentinel(i), q) == m + ([NUL] + Replace(y, Sentinel(i), q));
  }

  lemma {:induction false} Stage3Step(t: string, ps: Params, i: nat, x: string)
    requires i < |ps| && NUL !in t && Stage3(t, ps, i, x)
    ensures Stage3(t, ps, i + 1, Replace(x, Sentinel(i), Quote(ps[i].1)))
  {
    var s, q := Sentinel(i), Quote(ps[i].1);
    if t == "" {
    } else if AtPlaceholder(t) {
      var name, rest := Name(t), After(t);
      var r := Resolve(ps, name);
      if r == |ps| {
        Stage3Step(rest, ps, i, x[4..]);
        DoneStays(x, "NULL", i, q);
        Chop("NULL", Replace(x[4..], s, q));
      } else if ps[r].0 != name {
        TaintedStep(x, ps, r, i);
      } else {
        var piece := if r < i then Quote(ps[r].1) else Sentinel(r);
        var y := x[|piece|..];
        Stage3Step(rest, ps, i, y);
        Stage3Head(rest, ps, i, y);
        if r < i {
          DoneStays(x, piece, i, q);
        } else if r == i {
          OwnTurn(x, i, q);
        } else {
          WaitingStays(x, r, i, q);
        }
        Chop(if r <= i then Quote(ps[r].1) else piece, Replace(y, s, q));
      }
    } else {
      Stage3Step(t[1..], ps, i, x[1..]);
      DoneStays(x, [x[0]], i, q);
    }
  }

  lemma {:induction false} Stage3Holds(t: string, ps: Params, i: nat)
    requires i <= |ps| && NUL !in t
    ensures Stage3(t, ps, i, Materialized(Nulled(t, ps), ps, i))
  {
    if i == 0 {
      Stage3Start(t, ps);
    } else {
      Stage3Holds(t, ps, i - 1);
      Stage3Step(t, ps, i - 1, Materialized(Nulled(t, ps), ps, i - 1));
    }
  }

  lemma StagedIsStage3(t: string, ps: Params)
    requires NUL !in t && IdentifierKeys(ps)
    ensures Stage3(t, ps, |ps|, Staged(t, ps))
  {
    SwappedIsPartial(t, ps, |ps|);
    NullStep(t, ps);
    Stage3Holds(t, ps, |ps|);
  }

  // ---- Comparison with the reference ----

  lemma {:induction false} MapLookup(ps: Params, r: nat)
    requires DictOrder(ps) && r < |ps|
    ensures ps[r].0 in AsMap(ps) && AsMap(ps)[ps[r].0] == ps[r].1
  {
    var last := |ps| - 1;
    if r < last {
      MapLookup(ps[..last], r);
    }
  }

  lemma {:induction false} MapKeys(ps: Params, k: string)
    ensures k in AsMap(ps) <==> exists e :: 0 <= e < |ps| && ps[e].0 == k
  {
    if ps != [] {
      var last := |ps| - 1;
      MapKeys(ps[..last], k);
      if exists e :: 0 <= e < |ps| && ps[e].0 == k {
        var e :| 0 <= e < |ps| && ps[e].0 == k;
        assert e < last ==> ps[..last][e].0 == k;
      }
      if k in AsMap(ps[..last]) {
        var e :| 0 <= e < last && ps[..last][e].0 == k;
        assert ps[e].0 == k;
      }
    }
  }

  lemma ResolvesToItself(names: set<string>, ps: Params, name: string)
    requires Unshadowed(names, ps) && name in names
    ensures Resolve(ps, name) < |ps| ==> ps[Resolve(ps, name)].0 == name
    ensures Resolve(ps, name) == |ps| ==> name !in AsMap(ps)
  {
    var r := Resolve(ps, name);
    MapKeys(ps, name);
    assert r < |ps| ==> (ProperPrefix(ps[r].0, name) <==> ps[r].0 != name);
  }

  lemma {:induction false} FinishedUnshadowed(t: string, ps: Params, x: string)
    requires DictOrder(ps) && Unshadowed(Names(t), ps) && Stage3(t, ps, |ps|, x)
    ensures x == Simultaneous(t, AsMap(ps))
  {
    hide Unshadowed, Resolve, AsMap, Quote;
    if t == "" {
    } else if AtPlaceholder(t) {
      var name := Name(t);
      ResolvesToItself(Names(t), ps, name);
      UnshadowedBelow(Names(t), Names(After(t)), ps);
      var r := Resolve(ps, name);
      if r < |ps| {
        MapLookup(ps, r);
        FinishedUnshadowed(After(t), ps, x[|Quote(ps[r].1)|..]);
      } else {
        FinishedUnshadowed(After(t), ps, x[4..]);
      }
    } else {
      FinishedUnshadowed(t[1..], ps, x[1..]);
    }
  }

  lemma UnshadowedBelow(names: set<string>, fewer: set<string>, ps: Params)
    requires Unshadowed(names, ps) && fewer <= names
    ensures Unshadowed(fewer, ps)
  {
  }

  // The parameter that captures the first shadowed placeholder of `t`.
  ghost function Shadower(t: string, ps: Params): (r: nat)
    requires !Unshadowed(Names(t), ps)
    ensures r < |ps|
    decreases |t|
  {
    if AtPlaceholder(t) then
      var r := Resolve(ps, Name(t));
      if r < |ps| && ps[r].0 != Name(t) then r
      else
        StillShadowed(t, ps);
        Shadower(After(t), ps)
    else Shadower(t[1..], ps)
  }

  lemma NamesAt(t: string)
    requires AtPlaceholder(t)
    ensures Names(t) == {Name(t)} + Names(After(t))
  {
  }

  lemma StillShadowed(t: string, ps: Params)
    requires t != "" && AtPlaceholder(t) && !Unshadowed(Names(t), ps)
    requires Resolve(ps, Name(t)) < |ps| ==> ps[Resolve(ps, Name(t))].0 == Name(t)
    ensures !Unshadowed(Names(After(t)), ps)
  {
    var name, m :| name in Names(t) && 0 <= m < |ps| && ProperPrefix(ps[m].0, name)
                   && !exists e :: 0 <= e < m && ps[e].0 == name;
    NamesAt(t);
    hide Names, Resolve, AtPlaceholder, Name, After;
    assert Resolve(ps, name) <= m;
  }

  // The same keys with values that tell parameter `r` apart from all others.
  function Marked(ps: Params, r: nat): (out: Params)
    ensures |out| == |ps|
    ensures forall i :: 0 <= i < |ps| ==> out[i] == (ps[i].0, if i == r then "1" else "0")
  {
    seq(|ps|, i requires 0 <= i < |ps| => (ps[i].0, if i == r then "1" else "0"))
  }

  lemma {:induction false} SameKeysResolveAlike(ps: Params, qs: Params, name: string)
    requires |ps| == |qs| && forall i :: 0 <= i < |ps| ==> ps[i].0 == qs[i].0
    ensures Resolve(ps, name) == Resolve(qs, name)
  {
  }

  lemma MarkedQuotes()
    ensures Quote("0") == "\"0\"" && Quote("1") == "\"1\""
  {
    assert EscapeAll("0") == EscapeChar('0') + EscapeAll("0"[1..]);
    assert EscapeAll("1") == EscapeChar('1') + EscapeAll("1"[1..]);
  }

  lemma {:induction false} FinishedShadowed(t: string, ps: Params, r: nat, x: string)
    requires DictOrder(ps) && !Unshadowed(Names(t), ps) && r == Shadower(t, ps)
    requires forall i :: 0 <= i < |ps| ==> ps[i].1 == if i == r then "1" else "0"
    requires Stage3(t, ps, |ps|, x)
    ensures x != Simultaneous(t, AsMap(ps))
    decreases |t|
  {
    var m := AsMap(ps);
    if AtPlaceholder(t) {
      var name := Name(t);
      var e := Resolve(ps, name);
      MapKeys(ps, name);
      if e < |ps| && ps[e].0 != name {
        FirstShadowDiffers(t, ps, r, x);
      } else {
        StillShadowed(t, ps);
        if e < |ps| { MapLookup(ps, e); }
        var piece := if e < |ps| then Quote(ps[e].1) else "NULL";
        FinishedShadowed(After(t), ps, r, x[|piece|..]);
        Chop(piece, Simultaneous(After(t), m));
      }
    } else {
      FinishedShadowed(t[1..], ps, r, x[1..]);
      Chop([t[0]], Simultaneous(t[1..], m));
    }
  }

  lemma FirstShadowDiffers(t: string, ps: Params, r: nat, x: string)
    requires AtPlaceholder(t) && DictOrder(ps)
    requires r == Resolve(ps, Name(t)) < |ps| && ps[r].0 != Name(t)
    requires forall i :: 0 <= i < |ps| ==> ps[i].1 == if i == r then "1" else "0"
    requires Tainted(x, ps, r, |ps|)
    ensures x != Simultaneous(t, AsMap(ps))
  {
    hide Quote, AsMap, Resolve, Name, After;
    var name, reference := Name(t), Simultaneous(t, AsMap(ps));
    MarkedQuotes();
    MapKeys(ps, name);
    if name in AsMap(ps) {
      var d :| 0 <= d < |ps| && ps[d].0 == name;
      MapLookup(ps, d);
      assert reference[1] == '0';
    } else {
      assert reference[0] == 'N';
    }
  }

  ghost predicate SameKeys(ps: Params, qs: Params) {
    |ps| == |qs| && forall i :: 0 <= i < |ps| ==> ps[i].0 == qs[i].0
  }

  // ---- Main results ----

  // The reference on a template up to and including its first placeholder: the name
  // is as long as it can be, and `tail` is read on its own.
  lemma SimultaneousOne(p: string, name: string, tail: string, m: map<string, string>)
    requires '$' !in p && Identifier(name) && (tail == "" || !IdChar(tail[0]))
    ensures Simultaneous(p + "$" + name + tail, m)
         == p + (if name in m then Quote(m[name]) else "NULL") + Simultaneous(tail, m)
  {
    hide Quote, Name, After, AtPlaceholder, IdChar, Simultaneous;
    var t := "$" + name + tail;
    PlaceholderParts(name, tail);
    SimultaneousCopies(p, t, m);
    SimultaneousAt(t, m);
    assert p + "$" + name + tail == p + t;
    var q := if name in m then Quote(m[name]) else "NULL";
    assert p + (q + Simultaneous(tail, m)) == p + q + Simultaneous(tail, m);
  }

  lemma SimultaneousAt(t: string, m: map<string, string>)
    requires AtPlaceholder(t)
    ensures Simultaneous(t, m) == (if Name(t) in m then Quote(m[Name(t)]) else "NULL") + Simultaneous(After(t), m)
  {
    hide Quote, Name, After;
  }

  lemma PlaceholderParts(name: string, tail: string)
    requires Identifier(name) && (tail == "" || !IdChar(tail[0]))
    ensures var t := "$" + name + tail; AtPlaceholder(t) && Name(t) == name && After(t) == tail
  {
    hide IdChar;
    var t := "$" + name + tail;
    RunStops(name, tail);
    assert t[1..] == name + tail && (name + tail)[..|name|] == name;
    assert t[1..1 + |name|] == name && t[1 + |name|..] == tail;
  }

  // Text without a dollar sign is copied, and so is one that no name follows.
  lemma {:induction false} SimultaneousCopies(p: string, t: string, m: map<string, string>)
    requires forall i :: 0 <= i < |p| ==> p[i] != '$' || (i + 1 < |p + t| && !IdStart((p + t)[i + 1])) || i + 1 == |p + t|
    ensures Simultaneous(p + t, m) == p + Simultaneous(t, m)
  {
    hide Quote, IdStart, Name, After;
    if p == "" {
      assert p + t == t;
    } else {
      var q := p[1..];
      assert (p + t)[1..] == q + t;
      assert forall i :: 0 <= i < |q| ==> q[i] == p[i + 1] && (i + 1 < |q + t| ==> (q + t)[i + 1] == (p + t)[i + 2]);
      SimultaneousCopies(q, t, m);
    }
  }

  // On NUL-free templates and identifier keys the three stages are one
  // simultaneous substitution, unless a shorter key shadows a placeholder.
  lemma StagedIsSimultaneous(t: string, ps: Params)
    requires NUL !in t && DictOrder(ps) && IdentifierKeys(ps) && Unshadowed(Names(t), ps)
    ensures Staged(t, ps) == Simultaneous(t, AsMap(ps))
  {
    StagedIsStage3(t, ps);
    FinishedUnshadowed(t, ps, Staged(t, ps));
  }

  // The condition is exact: for a given template and key order the stages agree
  // with the reference on all values if and only if nothing is shadowed.
  lemma AgreesOnAllValuesExactly(t: string, ps: Params)
    requires NUL !in t && DictOrder(ps) && IdentifierKeys(ps)
    ensures (forall qs: Params :: SameKeys(ps, qs) ==> Staged(t, qs) == Simultaneous(t, AsMap(qs)))
            <==> Unshadowed(Names(t), ps)
  {
    forall qs: Params | SameKeys(ps, qs)
      ensures Unshadowed(Names(t), ps) ==> Staged(t, qs) == Simultaneous(t, AsMap(qs))
    {
      if Unshadowed(Names(t), ps) {
        UnshadowedByKeys(Names(t), ps, qs);
        StagedIsSimultaneous(t, qs);
      }
    }
    if !Unshadowed(Names(t), ps) {
      var r := Shadower(t, ps);
      var qs := Marked(ps, r);
      assert SameKeys(qs, ps);
      if Unshadowed(Names(t), qs) { UnshadowedByKeys(Names(t), qs, ps); }
      ShadowerByKeys(t, ps, qs);
      StagedIsStage3(t, qs);
      FinishedShadowed(t, qs, r, Staged(t, qs));
      assert SameKeys(ps, qs);
    }
  }

  lemma UnshadowedByKeys(names: set<string>, ps: Params, qs: Params)
    requires SameKeys(ps, qs) && Unshadowed(names, ps)
    ensures Unshadowed(names, qs)
  {
    forall name, m | name in names && 0 <= m < |qs| && ProperPrefix(qs[m].0, name)
      ensures exists e :: 0 <= e < m && qs[e].0 == name
    {
      assert ProperPrefix(ps[m].0, name);
      var e :| 0 <= e < m && ps[e].0 == name;
      assert qs[e].0 == name;
    }
  }

  lemma {:induction false} ShadowerByKeys(t: string, ps: Params, qs: Params)
    requires SameKeys(ps, qs) && !Unshadowed(Names(t), ps) && !Unshadowed(Names(t), qs)
    ensures Shadower(t, ps) == Shadower(t, qs)
    decreases |t|
  {
    if t != "" {
      if AtPlaceholder(t) {
        SameKeysResolveAlike(ps, qs, Name(t));
        var r := Resolve(ps, Name(t));
        if !(r < |ps| && ps[r].0 != Name(t)) {
          StillShadowed(t, ps);
          StillShadowed(t, qs);
          ShadowerByKeys(After(t), ps, qs);
        }
      } else {
        ShadowerByKeys(t[1..], ps, qs);
      }
    }
  }

  // With no key a proper prefix of a placeholder's name, dict order is immaterial.
  lemma OrderIrrelevant(t: string, ps: Params, qs: Params)
    requires NUL !in t && DictOrder(ps) && IdentifierKeys(ps) && DictOrder(qs) && IdentifierKeys(qs)
    requires AsMap(ps) == AsMap(qs)
    requires forall name, i :: name in Names(t) && 0 <= i < |ps| ==> !ProperPrefix(ps[i].0, name)
    ensures Staged(t, ps) == Staged(t, qs)
  {
    assert Unshadowed(Names(t), qs) by {
      forall name, m | name in Names(t) && 0 <= m < |qs| && ProperPrefix(qs[m].0, name)
        ensures false
      {
        MapLookup(qs, m);
        MapKeys(ps, qs[m].0);
      }
    }
    StagedIsSimultaneous(t, ps);
    StagedIsSimultaneous(t, qs);
  }

  // A shadowed placeholder is really corrupted: `$callee` under the sole key `call`.
  lemma ShadowingCorrupts()
    ensures Staged("$callee", [("call", "x")]) != Simultaneous("$callee", map["call" := "x"])
  {
    hide Quote, Staged, Replace, EscapeAll;
    var t, name, ps := "$callee", "callee", [("call", "x")];
    assert t[1..] == name == name + "";
    RunStops(name, "");
    assert AtPlaceholder(t) && Name(t) == name && After(t) == "";
    assert ps[0].0 == "call" == name[..4] && ps[0].0 <= name;
    StagedIsStage3(t, ps);
    assert Tainted(Staged(t, ps), ps, 0, 1);
    assert Simultaneous(t, map["call" := "x"])[0] == 'N';
  }

  // ---- The program ----

  method SubstituteParams(template: string, params: Params) returns (cypher: string)
    requires DictOrder(params)
    ensures cypher == Staged(template, params)
    ensures NUL !in template && IdentifierKeys(params) && Unshadowed(Names(template), params) ==>
              cypher == Simultaneous(template, AsMap(params))
  {
    hide Replace, NullPass, Simultaneous, AsMap, Unshadowed, Marker, Quote;
    cypher := template;
    var sentinelToQuoted: seq<(string, string)> := [];
    for i := 0 to |params|
      invariant cypher == Swapped(template, params, i)
      invariant |sentinelToQuoted| == i
      invariant forall j :: 0 <= j < i ==> sentinelToQuoted[j] == (Sentinel(j), Quote(params[j].1))
    {
      var (key, value) := params[i];
      var sentinel := Sentinel(i);
      cypher := Replace(cypher, "$" + key, sentinel);
      sentinelToQuoted := sentinelToQuoted + [(sentinel, Quote(value))];
    }
    cypher := NullPass(cypher);
    ghost var nulled := cypher;
    for i := 0 to |sentinelToQuoted|
      invariant cypher == Materialized(nulled, params, i)
    {
      var (sentinel, quoted) := sentinelToQuoted[i];
      cypher := Replace(cypher, sentinel, quoted);
    }
    if NUL !in template && IdentifierKeys(params) && Unshadowed(Names(template), params) {
      StagedIsSimultaneous(template, params);
    }
  }
}
