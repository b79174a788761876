/** One benchmark cell's event stream (bench/claude_runner.py): the read loop of
    `run_cell` with its turn cap, and `parse_stream` over what it kept.

    Lines are texts.  What the JSON parser makes of one is arbitrary, except that
    only a text whose first character behind JSON white space is `{` can be an
    object (section 4 of RFC 8259).  The stream ends early at an arbitrary point
    when the watchdog or the agent ends it. */
module CellStream {

  import opened Common

  // A token count: a whole number, or some other JSON value.
  datatype Amount = Number(n: int) | Other(text: string)

  datatype Usage = NoUsage | Usage(input: Amount, output: Amount)

  // The name of a tool use: empty or absent, a text, or a value that no dictionary
  // takes as a key.
  datatype Name = NoName | Named(name: string) | Unhashable

  // One item of an event's content list: a tool use, a tool result with its text
  // length, or neither.
  datatype Item = ToolUse(name: Name) | ToolResult(length: nat) | OtherItem

  datatype Event =
    | System
    | Assistant(message: Message)
    | User(message: Message)
    | Result(answer: Option<string>, turns: Option<int>, isError: bool, apiError: Option<string>, usage: Usage)
    | OtherEvent

  // `NoMessage`: the field is not an object, so reading its content raises;
  // `Plain`: the content is not a list.
  datatype Message = NoMessage | Plain | Content(items: seq<Item>)

  // `parseObject` parses texts that begin with a brace; `parseScalar` says whether a text
  // that does not is JSON; `spaceBeyond` classes characters beyond ASCII; `concat`
  // adds token counts that are both no numbers, if that is possible.
  datatype Python = Python(parseObject: string -> Option<Event>, parseScalar: string -> bool, spaceBeyond: char -> bool,
                           concat: (string, string) -> Option<Amount>)

  datatype Json = NotJson | Scalar | Object(event: Event)

  predicate JsonSpace(c: char) {
    c in " \t\n\r"
  }

  function JsonTrim(t: string): string {
    if t != "" && JsonSpace(t[0]) then JsonTrim(t[1..]) else t
  }

  // `json.loads`
  function Loads(py: Python, t: string): Json {
    var u := JsonTrim(t);
    if u != "" && u[0] == '{' then
      match py.parseObject(u)
      case Some(e) => Object(e)
      case None => NotJson
    else if u != "" && py.parseScalar(u) then Scalar
    else NotJson
  }

  predicate Space(py: Python, c: char) {
    if c as int < 128 then c == ' ' || 9 <= c as int <= 13 || 28 <= c as int <= 31 else py.spaceBeyond(c)
  }

  // `lstrip`
  function LStrip(py: Python, t: string): string {
    if t != "" && Space(py, t[0]) then LStrip(py, t[1..]) else t
  }

  // ---- Two tests for an assistant event ----

  // The read loop's probe: a leading brace, then a parse and a type check.
  predicate Probe(py: Python, t: string) {
    var u := LStrip(py, t);
    u != "" && u[0] == '{' && Loads(py, t).Object? && Loads(py, t).event.Assistant?
  }

  // What the parser makes of a line.
  datatype Line = Blank | Unparsed | NoObject | Parsed(event: Event)

  function Classify(py: Python, t: string): Line {
    if LStrip(py, t) == "" then Blank
    else match Loads(py, t)
      case NotJson => Unparsed
      case Scalar => NoObject
      case Object(e) => Parsed(e)
  }

  predicate IsAssistant(l: Line) {
    l.Parsed? && l.event.Assistant?
  }

  // JSON white space is white space to `lstrip`, which may drop more.
  lemma {:induction false} BraceSurvives(py: Python, t: string)
    requires JsonTrim(t) != "" && JsonTrim(t)[0] == '{'
    ensures LStrip(py, t) == JsonTrim(t)
  {
    if JsonSpace(t[0]) {
      BraceSurvives(py, t[1..]);
    }
  }

  // The two tests agree on every line.
  lemma ProbesAgree(py: Python, t: string)
    ensures Probe(py, t) <==> IsAssistant(Classify(py, t))
  {
    if Loads(py, t).Object? {
      BraceSurvives(py, t);
    }
  }

  function Classified(py: Python, ts: seq<string>): (ls: seq<Line>)
    ensures |ls| == |ts| && forall i :: 0 <= i < |ls| ==> ls[i] == Classify(py, ts[i])
  {
    seq(|ts|, i requires 0 <= i < |ts| => Classify(py, ts[i]))
  }

  // The turns the read loop counts ...
  function ProbedTurns(py: Python, ts: seq<string>): (n: nat)
    ensures n <= |ts|
  {
    if ts == [] then 0 else ProbedTurns(py, ts[..|ts| - 1]) + if Probe(py, ts[|ts| - 1]) then 1 else 0
  }

  // ... and those the parser counts.
  function Turns(ls: seq<Line>): nat {
    if ls == [] then 0 else Turns(ls[..|ls| - 1]) + if IsAssistant(ls[|ls| - 1]) then 1 else 0
  }

  // They are the same turns on every stream.
  lemma {:induction false} CountsAgree(py: Python, ts: seq<string>)
    ensures ProbedTurns(py, ts) == Turns(Classified(py, ts))
  {
    if ts != [] {
      var front, ls := ts[..|ts| - 1], Classified(py, ts);
      CountsAgree(py, front);
      ProbesAgree(py, ts[|ts| - 1]);
      assert ls[..|ls| - 1] == Classified(py, front);
    }
  }

  // ---- The read loop ----

  datatype Reading = Reading(buffer: seq<string>, transcript: seq<string>, capped: bool)

  function Limit(maxTurns: int): nat {
    if maxTurns < 0 then 1 else maxTurns + 1
  }

  lemma {:induction false} PrefixTurns(py: Python, stream: seq<string>, m: nat, n: nat)
    requires m <= n <= |stream|
    ensures ProbedTurns(py, stream[..m]) <= ProbedTurns(py, stream[..n])
    decreases n - m
  {
    if m < n {
      PrefixTurns(py, stream, m, n - 1);
      assert stream[..n][..n - 1] == stream[..n - 1];
    }
  }

  // The part of a stream that is read: all of it, or up to and including the
  // assistant event that goes over the limit.
  ghost predicate Kept(py: Python, stream: seq<string>, maxTurns: int, kept: seq<string>) {
    && kept <= stream
    && (if ProbedTurns(py, stream) < Limit(maxTurns) then kept == stream
        else kept != [] && Probe(py, kept[|kept| - 1]) && ProbedTurns(py, kept) == Limit(maxTurns))
  }

  // That part is unique.
  lemma KeptUnique(py: Python, stream: seq<string>, maxTurns: int, a: seq<string>, b: seq<string>)
    requires Kept(py, stream, maxTurns, a) && Kept(py, stream, maxTurns, b)
    ensures a == b
  {
    if |a| < |b| {
      KeptNotShorter(py, stream, maxTurns, a, b);
    } else if |b| < |a| {
      KeptNotShorter(py, stream, maxTurns, b, a);
    }
  }

  lemma KeptNotShorter(py: Python, stream: seq<string>, maxTurns: int, a: seq<string>, b: seq<string>)
    requires Kept(py, stream, maxTurns, a) && Kept(py, stream, maxTurns, b)
    ensures |a| >= |b|
  {
    if |a| < |b| {
      assert stream[..|a|] == a && stream[..|b|] == b && stream[..|b| - 1] == b[..|b| - 1];
      PrefixTurns(py, stream, |a|, |b| - 1);
    }
  }

  // `stream` is everything the process writes before its output ends.
  method ReadLoop(py: Python, stream: seq<string>, maxTurns: int) returns (r: Reading, turns: nat)
    ensures r.buffer == r.transcript && Kept(py, stream, maxTurns, r.buffer)
    ensures turns == ProbedTurns(py, r.buffer) <= Limit(maxTurns)
    ensures r.capped <==> ProbedTurns(py, stream) > 0 && ProbedTurns(py, stream) > maxTurns
  {
    var buffer, transcript := [], [];
    turns := 0;
    for i := 0 to |stream|
      invariant buffer == transcript == stream[..i]
      invariant turns == ProbedTurns(py, buffer) < Limit(maxTurns)
    {
      var line := stream[i];
      assert stream[..i + 1] == stream[..i] + [line];
      assert (buffer + [line])[..|buffer|] == buffer;
      buffer := buffer + [line];
      transcript := transcript + [line];
      var stripped := LStrip(py, line);
      if stripped == "" || stripped[0] != '{' {
        continue;
      }
      var event := Loads(py, line);
      if !event.Object? || !event.event.Assistant? {
        continue;
      }
      turns := turns + 1;
      if turns > maxTurns {
        PrefixTurns(py, stream, i + 1, |stream|);
        assert stream[..|stream|] == stream;
        return Reading(buffer, transcript, true), turns;
      }
    }
    assert stream[..|stream|] == stream;
    r := Reading(buffer, transcript, false);
  }

  // ---- The summary ----

  datatype Tokens = Tokens(input: Amount, output: Amount, total: Amount)

  datatype Summary = Summary(breakdown: map<string, nat>, contextBytes: nat, nTurns: nat, tokens: Tokens, answer: Option<string>,
                             turnsReported: Option<int>, isError: bool, apiError: Option<string>)

  // Numbers add up; a number and anything else do not add.
  function Add(py: Python, a: Amount, b: Amount): Option<Amount> {
    match (a, b)
    case (Number(m), Number(n)) => Some(Number(m + n))
    case (Other(s), Other(t)) => py.concat(s, t)
    case _ => None
  }

  predicate AddsUp(py: Python, usage: Usage) {
    match usage
    case NoUsage => true
    case Usage(Number(_), Number(_)) => true
    case Usage(Other(s), Other(t)) => py.concat(s, t).Some?
    case _ => false
  }

  // Lines on which the parser raises: JSON that is no object, an assistant or user
  // event whose message is none, a tool name that cannot be a key, token counts
  // that do not add up.
  predicate Raises(py: Python, l: Line) {
    || l.NoObject?
    || (l.Parsed? && (l.event.Assistant? || l.event.User?) && l.event.message.NoMessage?)
    || (l.Parsed? && l.event.Assistant? && ToolUse(Unhashable) in Items(l))
    || (l.Parsed? && l.event.Result? && !AddsUp(py, l.event.usage))
  }

  function Items(l: Line): seq<Item> {
    if l.Parsed? && (l.event.Assistant? || l.event.User?) && l.event.message.Content? then l.event.message.items else []
  }

  function NameUses(items: seq<Item>, name: string): nat {
    if items == [] then 0
    else NameUses(items[..|items| - 1], name) + if items[|items| - 1] == ToolUse(Named(name)) then 1 else 0
  }

  function NamedUses(items: seq<Item>): nat {
    if items == [] then 0
    else NamedUses(items[..|items| - 1]) +
         if items[|items| - 1].ToolUse? && items[|items| - 1].name.Named? then 1 else 0
  }

  function ResultBytes(items: seq<Item>): nat {
    if items == [] then 0
    else ResultBytes(items[..|items| - 1]) + if items[|items| - 1].ToolResult? then items[|items| - 1].length else 0
  }

  // Over the assistant events of a stream.
  function StreamNameUses(ls: seq<Line>, name: string): nat {
    if ls == [] then 0
    else StreamNameUses(ls[..|ls| - 1], name) + if IsAssistant(ls[|ls| - 1]) then NameUses(Items(ls[|ls| - 1]), name) else 0
  }

  function StreamNamedUses(ls: seq<Line>): nat {
    if ls == [] then 0
    else StreamNamedUses(ls[..|ls| - 1]) + if IsAssistant(ls[|ls| - 1]) then NamedUses(Items(ls[|ls| - 1])) else 0
  }

  function StreamBytes(ls: seq<Line>): nat {
    if ls == [] then 0
    else StreamBytes(ls[..|ls| - 1]) +
         if ls[|ls| - 1].Parsed? && ls[|ls| - 1].event.User? then ResultBytes(Items(ls[|ls| - 1])) else 0
  }

  predicate IsResult(l: Line) {
    l.Parsed? && l.event.Result?
  }

  // The last result event, which decides the final answer ...
  function LastResult(ls: seq<Line>): (e: Option<Event>)
    ensures e.Some? ==> e.value.Result?
  {
    if ls == [] then None
    else if IsResult(ls[|ls| - 1]) then Some(ls[|ls| - 1].event)
    else LastResult(ls[..|ls| - 1])
  }

  // ... and the last one that reports usage, which decides the token counts.
  function LastUsage(ls: seq<Line>): Usage {
    if ls == [] then NoUsage
    else if IsResult(ls[|ls| - 1]) && ls[|ls| - 1].event.usage.Usage? then ls[|ls| - 1].event.usage
    else LastUsage(ls[..|ls| - 1])
  }

  lemma {:induction false} LastResultExactly(ls: seq<Line>, e: Event)
    ensures LastResult(ls) == Some(e) <==>
              exists i :: 0 <= i < |ls| && ls[i] == Parsed(e) && e.Result? && forall k :: i < k < |ls| ==> !IsResult(ls[k])
  {
    if ls != [] {
      LastResultExactly(ls[..|ls| - 1], e);
      assert IsResult(ls[|ls| - 1]) ==> ls[|ls| - 1] == Parsed(ls[|ls| - 1].event);
    }
  }

  predicate ReportsUsage(l: Line) {
    IsResult(l) && l.event.usage.Usage?
  }

  lemma {:induction false} LastUsageExactly(ls: seq<Line>, u: Usage)
    requires u.Usage?
    ensures LastUsage(ls) == u <==>
              exists i :: 0 <= i < |ls| && ReportsUsage(ls[i]) && ls[i].event.usage == u && forall k :: i < k < |ls| ==> !ReportsUsage(ls[k])
  {
    if ls != [] {
      LastUsageExactly(ls[..|ls| - 1], u);
    }
  }

  // Tool uses count in assistant events only and with a name only, tool results in
  // user events only.
  lemma WhatCounts(a: string, b: string, m: nat, n: nat)
    requires a != b
    ensures var ls := [Parsed(Assistant(Content([ToolUse(Named(a)), ToolResult(m), ToolUse(NoName), OtherItem]))),
                       Parsed(User(Content([ToolUse(Named(b)), ToolResult(n)]))), Blank, Unparsed];
            Turns(ls) == 1 && StreamNamedUses(ls) == 1 && StreamNameUses(ls, a) == 1 && StreamNameUses(ls, b) == 0 && StreamBytes(ls) == n
  {
    var x, y := [ToolUse(Named(a)), ToolResult(m), ToolUse(NoName), OtherItem], [ToolUse(Named(b)), ToolResult(n)];
    SampleItems(x, y, a, b, m, n);
    SampleLines(Parsed(Assistant(Content(x))), Parsed(User(Content(y))), a, b);
  }

  lemma SampleItems(x: seq<Item>, y: seq<Item>, a: string, b: string, m: nat, n: nat)
    requires a != b && x == [ToolUse(Named(a)), ToolResult(m), ToolUse(NoName), OtherItem] && y == [ToolUse(Named(b)), ToolResult(n)]
    ensures NamedUses(x) == 1 && NameUses(x, a) == 1 && NameUses(x, b) == 0 && ResultBytes(y) == n
  {
    ItemStep([], x[0], a, b);
    ItemStep([x[0]], x[1], a, b);
    ItemStep([x[0], x[1]], x[2], a, b);
    ItemStep([x[0], x[1], x[2]], x[3], a, b);
    ItemStep([], y[0], a, b);
    ItemStep([y[0]], y[1], a, b);
    hide NamedUses, NameUses, ResultBytes;
    Appended(x, y);
  }

  lemma SampleLines(k: Line, l: Line, a: string, b: string)
    requires IsAssistant(k) && l.Parsed? && l.event.User?
    ensures var ls := [k, l, Blank, Unparsed];
            && Turns(ls) == 1 && StreamNamedUses(ls) == NamedUses(Items(k))
            && StreamNameUses(ls, a) == NameUses(Items(k), a) && StreamNameUses(ls, b) == NameUses(Items(k), b)
            && StreamBytes(ls) == ResultBytes(Items(l))
  {
    LineStep([], k, a, b);
    LineStep([k], l, a, b);
    LineStep([k, l], Blank, a, b);
    LineStep([k, l, Blank], Unparsed, a, b);
    hide NamedUses, NameUses, ResultBytes, Turns, StreamNamedUses, StreamNameUses, StreamBytes, Items;
    Appended([k, l, Blank, Unparsed], [k, l]);
  }

  lemma Appended<T>(x: seq<T>, y: seq<T>)
    requires |x| == 4 && |y| == 2
    ensures [x[0]] + [x[1]] == [x[0], x[1]] && [x[0], x[1]] + [x[2]] == [x[0], x[1], x[2]] && [x[0], x[1], x[2]] + [x[3]] == x
    ensures [y[0]] + [y[1]] == y && [] + [x[0]] == [x[0]] && [] + [y[0]] == [y[0]]
  {
  }

  lemma ItemStep(items: seq<Item>, item: Item, a: string, b: string)
    requires a != b
    ensures NamedUses(items + [item]) == NamedUses(items) + if item.ToolUse? && item.name.Named? then 1 else 0
    ensures NameUses(items + [item], a) == NameUses(items, a) + if item == ToolUse(Named(a)) then 1 else 0
    ensures NameUses(items + [item], b) == NameUses(items, b) + if item == ToolUse(Named(b)) then 1 else 0
    ensures ResultBytes(items + [item]) == ResultBytes(items) + if item.ToolResult? then item.length else 0
    ensures items == [] ==> items + [item] == [item] && NamedUses(items) == NameUses(items, a) == NameUses(items, b) == ResultBytes(items) == 0
  {
    assert (items + [item])[..|items|] == items;
  }

  lemma LineStep(ls: seq<Line>, l: Line, a: string, b: string)
    ensures Turns(ls + [l]) == Turns(ls) + if IsAssistant(l) then 1 else 0
    ensures StreamNamedUses(ls + [l]) == StreamNamedUses(ls) + if IsAssistant(l) then NamedUses(Items(l)) else 0
    ensures StreamNameUses(ls + [l], a) == StreamNameUses(ls, a) + if IsAssistant(l) then NameUses(Items(l), a) else 0
    ensures StreamNameUses(ls + [l], b) == StreamNameUses(ls, b) + if IsAssistant(l) then NameUses(Items(l), b) else 0
    ensures StreamBytes(ls + [l]) == StreamBytes(ls) + if l.Parsed? && l.event.User? then ResultBytes(Items(l)) else 0
    ensures ls == [] ==> Turns(ls) == StreamNamedUses(ls) == StreamNameUses(ls, a) == StreamNameUses(ls, b) == StreamBytes(ls) == 0
  {
    assert (ls + [l])[..|ls|] == ls;
  }

  // ---- Sums over a breakdown ----

  function Get(m: map<string, nat>, k: string): nat {
    if k in m then m[k] else 0
  }

  ghost function Total(m: map<string, nat>): nat
    decreases |m|
  {
    if m == map[] then 0
    else
      var k :| k in m;
      m[k] + Total(m - {k})
  }

  lemma {:induction false} TotalRemove(m: map<string, nat>, k: string)
    requires k in m
    ensures Total(m) == m[k] + Total(m - {k})
    decreases |m|
  {
    var c :| c in m && Total(m) == m[c] + Total(m - {c});
    if c != k {
      TotalRemove(m - {c}, k);
      TotalRemove(m - {k}, c);
      assert m - {c} - {k} == m - {k} - {c};
    }
  }

  lemma TotalIncrement(m: map<string, nat>, k: string)
    ensures Total(m[k := Get(m, k) + 1]) == Total(m) + 1
  {
    var more := m[k := Get(m, k) + 1];
    TotalRemove(more, k);
    if k in m {
      TotalRemove(m, k);
      assert more - {k} == m - {k};
    } else {
      assert more - {k} == m;
    }
  }

  // ---- The parser ----

  ghost predicate Counts(m: map<string, nat>, before: map<string, nat>, items: seq<Item>) {
    && (forall k :: Get(m, k) == Get(before, k) + NameUses(items, k))
    && Total(m) == Total(before) + NamedUses(items)
  }

  // `None` when some name cannot be a key.
  method CountTools(before: map<string, nat>, items: seq<Item>) returns (r: Option<map<string, nat>>)
    ensures r.None? <==> ToolUse(Unhashable) in items
    ensures r.Some? ==> Counts(r.value, before, items)
  {
    var m: map<string, nat> := before;
    for i := 0 to |items|
      invariant ToolUse(Unhashable) !in items[..i]
      invariant Counts(m, before, items[..i])
    {
      assert items[..i + 1][..i] == items[..i];
      var item := items[i];
      if item.ToolUse? && !item.name.NoName? {
        if item.name.Unhashable? {
          return None;
        }
        TotalIncrement(m, item.name.name);
        m := m[item.name.name := Get(m, item.name.name) + 1];
      }
    }
    assert items[..|items|] == items;
    return Some(m);
  }

  method CountBytes(items: seq<Item>) returns (n: nat)
    ensures n == ResultBytes(items)
  {
    n := 0;
    for i := 0 to |items|
      invariant n == ResultBytes(items[..i])
    {
      assert items[..i + 1][..i] == items[..i];
      if items[i].ToolResult? {
        n := n + items[i].length;
      }
    }
    assert items[..|items|] == items;
  }

  ghost predicate TokensOf(py: Python, t: Tokens, usage: Usage) {
    match usage
    case NoUsage => t == Tokens(Number(0), Number(0), Number(0))
    case Usage(Number(m), Number(n)) => t == Tokens(Number(m), Number(n), Number(m + n))
    case Usage(Other(x), Other(y)) => t.input == Other(x) && t.output == Other(y) && py.concat(x, y) == Some(t.total)
    case _ => false
  }

  // What the summary says about the stream it was made from.
  ghost predicate Summarizes(py: Python, s: Summary, ls: seq<Line>) {
    && s.nTurns == Turns(ls)
    && (forall k :: Get(s.breakdown, k) == StreamNameUses(ls, k))
    && Total(s.breakdown) == StreamNamedUses(ls)
    && s.contextBytes == StreamBytes(ls)
    && TokensOf(py, s.tokens, LastUsage(ls))
    && (match LastResult(ls)
        case None => s.answer == None && s.turnsReported == None && !s.isError && s.apiError == None
        case Some(e) => s.answer == e.answer && s.turnsReported == e.turns && s.isError == e.isError && s.apiError == e.apiError)
  }

  // `None` when the parser raises, which it does exactly on the lines above.
  method ParseStream(py: Python, ts: seq<string>) returns (r: Option<Summary>)
    ensures r.None? <==> exists i :: 0 <= i < |ts| && Raises(py, Classify(py, ts[i]))
    ensures r.Some? ==> Summarizes(py, r.value, Classified(py, ts))
  {
    hide Raises, Classify, AddsUp;
    var s := Summary(map[], 0, 0, Tokens(Number(0), Number(0), Number(0)), None, None, false, None);
    for i := 0 to |ts|
      invariant forall j :: 0 <= j < i ==> !Raises(py, Classify(py, ts[j]))
      invariant Summarizes(py, s, Classified(py, ts[..i]))
    {
      var next := ParseLine(py, s, ts[i], Classified(py, ts[..i]));
      assert Classified(py, ts[..i + 1]) == Classified(py, ts[..i]) + [Classify(py, ts[i])];
      if next.None? {
        return None;
      }
      s := next.value;
    }
    assert ts[..|ts|] == ts;
    r := Some(s);
  }

  // One turn of the parser's loop.
  method ParseLine(py: Python, before: Summary, t: string, ghost seen: seq<Line>) returns (r: Option<Summary>)
    requires Summarizes(py, before, seen)
    ensures r.None? <==> Raises(py, Classify(py, t))
    ensures r.Some? ==> Summarizes(py, r.value, seen + [Classify(py, t)])
  {
    hide LStrip, Loads;
    var s := before;
    ghost var ls := seen + [Classify(py, t)];
    assert ls[..|ls| - 1] == seen && ls[|ls| - 1] == Classify(py, t);
    if LStrip(py, t) == "" {
      return Some(s);
    }
    var json := Loads(py, t);
    if json.NotJson? {
      return Some(s);
    }
    if json.Scalar? {
      return None;
    }
    var line := Parsed(json.event);
    match json.event {
      case Assistant(message) =>
        if message.NoMessage? {
          return None;
        }
        var tools := CountTools(s.breakdown, Items(line));
        if tools.None? {
          return None;
        }
        s := s.(nTurns := s.nTurns + 1, breakdown := tools.value);
      case User(message) =>
        if message.NoMessage? {
          return None;
        }
        var bytes := CountBytes(Items(line));
        s := s.(contextBytes := s.contextBytes + bytes);
      case Result(answer, turns, isError, apiError, usage) =>
        s := s.(answer := answer, turnsReported := turns, isError := isError, apiError := apiError);
        if usage.Usage? {
          var total := Add(py, usage.input, usage.output);
          if total.None? {
            return None;
          }
          s := s.(tokens := Tokens(usage.input, usage.output, total.value));
        }
      case System =>
      case OtherEvent =>
    }
    return Some(s);
  }

  // ---- The cell as a whole ----

  // A capped cell gets a fixed text instead of an answer.
  datatype Answer = CapText(maxTurns: int) | Given(text: Option<string>)

  datatype Cell = Cell(nTurns: int, nToolCalls: nat, tokens: Tokens, exitReason: string, answer: Answer)

  function ExitReason(s: Summary, capped: bool, timedOut: bool): string {
    if capped then "cap" else if timedOut then "timeout" else if s.isError || s.apiError.Some? then "error" else "done"
  }

  // The turn count a result event reports wins over the counted one.
  function ChosenTurns(s: Summary): int {
    if s.turnsReported.Some? then s.turnsReported.value else s.nTurns
  }

  // What a cell must hold, given the part of the stream that was read.
  ghost predicate CellOf(py: Python, c: Cell, kept: seq<string>, capped: bool, maxTurns: int, timedOut: bool) {
    var ls := Classified(py, kept);
    var last := LastResult(ls);
    var error := last.Some? && (last.value.isError || last.value.apiError.Some?);
    && c.nToolCalls == StreamNamedUses(ls)
    && c.nTurns == (if last.Some? && last.value.turns.Some? then last.value.turns.value else ProbedTurns(py, kept))
    && TokensOf(py, c.tokens, LastUsage(ls))
    && (c.exitReason == "cap" <==> capped)
    && (c.exitReason == "timeout" <==> !capped && timedOut)
    && (c.exitReason == "error" <==> !capped && !timedOut && error)
    && (c.exitReason == "done" <==> !capped && !timedOut && !error)
    && c.answer == (if capped then CapText(maxTurns) else Given(if last.Some? then last.value.answer else None))
  }

  // `counted` is the read loop's own counter.  The cell is what the kept part of
  // the stream determines, and it is capped exactly when the stream, as far as it
  // came, went over the limit.
  method RunCell(py: Python, stream: seq<string>, maxTurns: int, timedOut: bool)
    returns (r: Option<Cell>, counted: nat, ghost kept: seq<string>)
    ensures Kept(py, stream, maxTurns, kept)
    ensures counted == ProbedTurns(py, kept) == Turns(Classified(py, kept)) <= Limit(maxTurns)
    ensures r.None? <==> exists i :: 0 <= i < |kept| && Raises(py, Classify(py, kept[i]))
    ensures r.Some? ==>
              CellOf(py, r.value, kept, ProbedTurns(py, stream) > 0 && ProbedTurns(py, stream) > maxTurns, maxTurns, timedOut)
  {
    hide Raises, Classify, Kept, TokensOf, Turns;
    var reading;
    reading, counted := ReadLoop(py, stream, maxTurns);
    kept := reading.buffer;
    CountsAgree(py, kept);
    var summary := ParseStream(py, reading.buffer);
    if summary.None? {
      return None, counted, kept;
    }
    var s := summary.value;
    var calls := SumValues(s.breakdown);
    r := Some(Cell(ChosenTurns(s), calls, s.tokens, ExitReason(s, reading.capped, timedOut),
                   if reading.capped then CapText(maxTurns) else Given(s.answer)));
  }

  method SumValues(m: map<string, nat>) returns (n: nat)
    ensures n == Total(m)
  {
    n := 0;
    var left := m;
    while left != map[]
      invariant n + Total(left) == Total(m)
      decreases |left|
    {
      var k :| k in left;
      TotalRemove(left, k);
      n := n + left[k];
      left := left - {k};
    }
  }
}
