/** Language flags in front of the verb (src/java_codebase_rag/i18n.py,
    `strip_lang_before_verb`, `scan_lang`) and the routing that follows
    (src/java_codebase_rag/cli_dispatch.py). */
module LangStrip {

  import opened Common

  const VALID_LANGS: set<string> := {"en", "ru"}
  const HELP_TOKENS: set<string> := {"-h", "--help"}

  const OPERATOR_VERBS: set<string> := {
    "init", "install", "update", "increment", "reprocess", "erase", "meta", "tables",
    "diagnose-ignore", "analyze-pr", "unresolved-calls"
  }

  const AGENT_VERBS: set<string> := {
    "find", "search", "inspect", "callers", "callees", "hierarchy", "implementations", "subclasses",
    "overrides", "overridden-by", "dependents", "impact", "decompose", "flow", "dependencies", "connection",
    "outline", "imports", "microservices", "map", "conventions", "overview", "vocab-index", "watch", "status",
    "prime", "usage", "feedback", "http-routes", "http-clients", "producers", "topics", "jobs", "listeners",
    "entities"
  }

  const VERBS: set<string> := OPERATOR_VERBS + AGENT_VERBS

  predicate Valid(value: string) {
    value in VALID_LANGS
  }

  predicate LangFlag(token: string) {
    token == "--lang" || token == "-L"
  }

  // The value of a `--lang=value` token.
  function Assigned(token: string): Option<string> {
    if "--lang=" <= token then Some(token[7..]) else None
  }

  // How many leading tokens form one valid language setting, and its value.
  function Setting(argv: seq<string>): Option<(nat, string)>
    requires argv != []
  {
    if LangFlag(argv[0]) then
      if |argv| > 1 && Valid(argv[1]) then Some((2, argv[1])) else None
    else match Assigned(argv[0])
      case Some(v) => if Valid(v) then Some((1, v)) else None
      case None => None
  }

  // Settings before the first verb go; the first of them is the answer.
  function Strip(argv: seq<string>, verbs: set<string>): (r: (Option<string>, seq<string>))
    ensures |r.1| <= |argv|
  {
    if argv == [] || argv[0] in verbs then (None, argv)
    else match Setting(argv)
      case Some((n, v)) => (Some(v), Strip(argv[n..], verbs).1)
      case None =>
        var (value, out) := Strip(argv[1..], verbs);
        (value, [argv[0]] + out)
  }

  // What is still to come from `rest`.
  ghost function Pending(rest: seq<string>, verbs: set<string>, seenVerb: bool): (Option<string>, seq<string>) {
    if seenVerb then (None, rest) else Strip(rest, verbs)
  }

  ghost predicate Progress(argv: seq<string>, verbs: set<string>, value: Option<string>, out: seq<string>, seenVerb: bool, rest: seq<string>) {
    var more := Pending(rest, verbs, seenVerb);
    Strip(argv, verbs) == (if value.Some? then value else more.0, out + more.1)
  }

  lemma Kept(argv: seq<string>, verbs: set<string>, value: Option<string>, out: seq<string>, seenVerb: bool, rest: seq<string>)
    requires Progress(argv, verbs, value, out, seenVerb, rest) && rest != []
    requires seenVerb || rest[0] in verbs || Setting(rest).None?
    ensures Progress(argv, verbs, value, out + [rest[0]], seenVerb || rest[0] in verbs, rest[1..])
  {
    var more := Pending(rest[1..], verbs, seenVerb || rest[0] in verbs).1;
    assert Pending(rest, verbs, seenVerb).1 == [rest[0]] + more;
    assert out + ([rest[0]] + more) == out + [rest[0]] + more;
  }

  lemma Dropped(argv: seq<string>, verbs: set<string>, value: Option<string>, out: seq<string>, rest: seq<string>)
    requires Progress(argv, verbs, value, out, false, rest) && rest != []
    requires rest[0] !in verbs && Setting(rest).Some?
    ensures var (n, v) := Setting(rest).value;
            Progress(argv, verbs, if value.None? then Some(v) else value, out, false, rest[n..])
  {
  }

  method StripLangBeforeVerb(argv: seq<string>, verbs: set<string>) returns (value: Option<string>, out: seq<string>)
    ensures (value, out) == Strip(argv, verbs)
  {
    hide Strip, Progress;
    out, value := [], None;
    var seenVerb, i := false, 0;
    Start(argv, verbs);
    while i < |argv|
      invariant 0 <= i <= |argv|
      invariant Progress(argv, verbs, value, out, seenVerb, argv[i..])
    {
      var token := argv[i];
      ghost var rest := argv[i..];
      assert rest[0] == token && rest[1..] == argv[i + 1..];
      assert |rest| > 1 ==> rest[1] == argv[i + 1] && rest[2..] == argv[i + 2..];
      if !seenVerb && token in verbs {
        Kept(argv, verbs, value, out, seenVerb, rest);
        seenVerb := true;
        out := out + [token];
        i := i + 1;
        continue;
      }
      if !seenVerb && LangFlag(token) {
        if i + 1 < |argv| && Valid(argv[i + 1]) {
          Dropped(argv, verbs, value, out, rest);
          if value.None? {
            value := Some(argv[i + 1]);
          }
          i := i + 2;
          continue;
        }
        Kept(argv, verbs, value, out, seenVerb, rest);
        out := out + [token];
        i := i + 1;
        continue;
      }
      if !seenVerb && "--lang=" <= token {
        var inner := token[7..];
        if Valid(inner) {
          Dropped(argv, verbs, value, out, rest);
          if value.None? {
            value := Some(inner);
          }
          i := i + 1;
          continue;
        }
        Kept(argv, verbs, value, out, seenVerb, rest);
        out := out + [token];
        i := i + 1;
        continue;
      }
      Kept(argv, verbs, value, out, seenVerb, rest);
      out := out + [token];
      i := i + 1;
    }
    Finish(argv, verbs, value, out, seenVerb, argv[i..]);
  }

  lemma Start(argv: seq<string>, verbs: set<string>)
    ensures Progress(argv, verbs, None, [], false, argv[0..])
  {
    assert argv[0..] == argv && [] + Strip(argv, verbs).1 == Strip(argv, verbs).1;
  }

  lemma Finish(argv: seq<string>, verbs: set<string>, value: Option<string>, out: seq<string>, seenVerb: bool, rest: seq<string>)
    requires Progress(argv, verbs, value, out, seenVerb, rest) && rest == []
    ensures Strip(argv, verbs) == (value, out)
  {
    assert out + [] == out;
  }

  // ---- Routing ----

  datatype Target = Operator | Agent
  datatype Route = UnifiedHelp | Delegate(target: Target)

  // The first verb token decides; without one, the program's own name does.
  function ChooseTarget(program: string, argv: seq<string>): Target {
    if argv == [] then if program == "jrag" then Agent else Operator
    else if argv[0] in OPERATOR_VERBS then Operator
    else if argv[0] in AGENT_VERBS then Agent
    else ChooseTarget(program, argv[1..])
  }

  predicate HelpBeforeVerb(argv: seq<string>) {
    argv != [] && argv[0] !in VERBS && (argv[0] in HELP_TOKENS || HelpBeforeVerb(argv[1..]))
  }

  predicate UnifiedHelpRequest(argv: seq<string>) {
    argv == [] || HelpBeforeVerb(argv)
  }

  function Decide(program: string, argv: seq<string>): Route {
    if program == "jrag" && UnifiedHelpRequest(argv) then UnifiedHelp else Delegate(ChooseTarget(program, argv))
  }

  // ---- The route by position ----

  // `argv[i]` is a verb, and none is to its left.
  ghost predicate FirstVerb(argv: seq<string>, i: nat) {
    i < |argv| && argv[i] in VERBS && forall k :: 0 <= k < i ==> argv[k] !in VERBS
  }

  // A help token with no verb up to it.
  ghost predicate AsksHelp(argv: seq<string>) {
    exists i :: 0 <= i < |argv| && argv[i] in {"-h", "--help"} && forall k :: 0 <= k <= i ==> argv[k] !in VERBS
  }

  lemma VerbSets()
    ensures forall t :: t in VERBS <==> t in OPERATOR_VERBS || t in AGENT_VERBS
  {
    hide OPERATOR_VERBS, AGENT_VERBS;
  }

  lemma {:induction false} TargetByFirstVerb(program: string, argv: seq<string>, i: nat)
    requires FirstVerb(argv, i)
    ensures argv[i] in OPERATOR_VERBS ==> ChooseTarget(program, argv) == Operator
    ensures argv[i] !in OPERATOR_VERBS ==> ChooseTarget(program, argv) == Agent
  {
    VerbSets();
    hide VERBS, OPERATOR_VERBS, AGENT_VERBS;
    if i > 0 {
      assert argv[0] !in VERBS;
      assert forall k :: 0 <= k < i ==> argv[1..][k] == argv[k + 1];
      TargetByFirstVerb(program, argv[1..], i - 1);
    }
  }

  lemma {:induction false} TargetByName(program: string, argv: seq<string>)
    requires forall k :: 0 <= k < |argv| ==> argv[k] !in VERBS
    ensures ChooseTarget(program, argv) == if program == "jrag" then Agent else Operator
  {
    VerbSets();
    hide VERBS, OPERATOR_VERBS, AGENT_VERBS;
    if argv != [] {
      assert argv[0] !in VERBS;
      TargetByName(program, argv[1..]);
    }
  }

  lemma {:induction false} HelpByPosition(argv: seq<string>)
    ensures HelpBeforeVerb(argv) <==> AsksHelp(argv)
  {
    hide VERBS;
    if argv != [] {
      HelpByPosition(argv[1..]);
      if argv[0] !in VERBS && AsksHelp(argv[1..]) {
        var i :| 0 <= i < |argv[1..]| && argv[1..][i] in {"-h", "--help"} && forall k :: 0 <= k <= i ==> argv[1..][k] !in VERBS;
        assert argv[i + 1] in {"-h", "--help"};
        assert forall k :: 0 < k <= i + 1 ==> argv[k] == argv[1..][k - 1];
      }
      if AsksHelp(argv) {
        var i :| 0 <= i < |argv| && argv[i] in {"-h", "--help"} && forall k :: 0 <= k <= i ==> argv[k] !in VERBS;
        assert argv[0] !in VERBS;
        assert i > 0 ==> argv[1..][i - 1] in {"-h", "--help"};
      }
    }
  }

  // What a route means: for the program `jrag` the unified help, without arguments
  // or on a help token ahead of any verb; else the program of the first verb; else
  // the one the name stands for.
  ghost predicate RightRoute(program: string, argv: seq<string>, route: Route) {
    && (route.UnifiedHelp? <==> program == "jrag" && (argv == [] || AsksHelp(argv)))
    && (route.Delegate? ==>
          && (forall i: nat :: FirstVerb(argv, i) && argv[i] in OPERATOR_VERBS ==> route.target == Operator)
          && (forall i: nat :: FirstVerb(argv, i) && argv[i] in AGENT_VERBS ==> route.target == Agent)
          && ((forall i :: 0 <= i < |argv| ==> argv[i] !in VERBS) ==> route.target == if program == "jrag" then Agent else Operator))
  }

  lemma NoCommonVerb()
    ensures forall t :: t in AGENT_VERBS ==> t !in OPERATOR_VERBS
  {
    assert forall t :: t in OPERATOR_VERBS ==> t !in AGENT_VERBS;
  }

  lemma DecideIsRight(program: string, argv: seq<string>)
    ensures RightRoute(program, argv, Decide(program, argv))
  {
    hide VERBS, OPERATOR_VERBS, AGENT_VERBS, ChooseTarget, HelpBeforeVerb, AsksHelp;
    NoCommonVerb();
    HelpByPosition(argv);
    forall i: nat | FirstVerb(argv, i)
      ensures argv[i] in OPERATOR_VERBS ==> ChooseTarget(program, argv) == Operator
      ensures argv[i] in AGENT_VERBS ==> ChooseTarget(program, argv) == Agent
    {
      TargetByFirstVerb(program, argv, i);
    }
    if forall i :: 0 <= i < |argv| ==> argv[i] !in VERBS {
      TargetByName(program, argv);
    }
  }

  // No token of the set is a language value.
  ghost predicate NoValues(tokens: set<string>) {
    forall v :: Valid(v) ==> v !in tokens
  }

  lemma ValuesAreNoOperatorVerbs()
    ensures NoValues(OPERATOR_VERBS)
  {
    assert "en" !in OPERATOR_VERBS && "ru" !in OPERATOR_VERBS;
  }

  lemma ValuesAreNoAgentVerbs()
    ensures NoValues(AGENT_VERBS)
  {
    assert "en" !in AGENT_VERBS;
    assert "ru" !in AGENT_VERBS;
  }

  lemma ValuesAreNoVerbs()
    ensures NoValues(VERBS)
  {
    hide OPERATOR_VERBS, AGENT_VERBS;
    ValuesAreNoOperatorVerbs();
    ValuesAreNoAgentVerbs();
  }

  // The tokens from the first verb on.
  function FromVerb(argv: seq<string>): seq<string> {
    if argv == [] || argv[0] in VERBS then argv else FromVerb(argv[1..])
  }

  lemma LangTokensAreNoHelp(token: string)
    requires LangFlag(token) || "--lang=" <= token || Valid(token)
    ensures token !in HELP_TOKENS
  {
    assert "--lang=" <= token ==> token[2] == 'l';
    assert "--help"[2] == 'h';
  }

  // A removed setting consists of tokens that are neither verbs nor help.
  lemma SettingIsInert(argv: seq<string>, verbs: set<string>)
    requires NoValues(verbs)
    requires argv != [] && argv[0] !in verbs && Setting(argv).Some?
    ensures var n := Setting(argv).value.0;
            n <= |argv| && forall i :: 0 <= i < n ==> argv[i] !in verbs && argv[i] !in HELP_TOKENS
  {
    LangTokensAreNoHelp(argv[0]);
    if LangFlag(argv[0]) {
      LangTokensAreNoHelp(argv[1]);
    }
  }

  // The first verb and everything behind it survive untouched.
  lemma {:induction false} VerbAndRestSurvive(argv: seq<string>)
    ensures FromVerb(Strip(argv, VERBS).1) == FromVerb(argv)
  {
    if argv != [] && argv[0] !in VERBS {
      if Setting(argv).Some? {
        ValuesAreNoVerbs();
        SettingIsInert(argv, VERBS);
        var n := Setting(argv).value.0;
        VerbAndRestSurvive(argv[n..]);
        assert n == 2 ==> argv[1..][0] == argv[1] && argv[1..][1..] == argv[2..];
      } else {
        VerbAndRestSurvive(argv[1..]);
        var out := [argv[0]] + Strip(argv[1..], VERBS).1;
        assert out[1..] == Strip(argv[1..], VERBS).1;
      }
    }
  }

  lemma {:induction false} TargetByVerb(program: string, argv: seq<string>)
    ensures ChooseTarget(program, argv) == ChooseTarget(program, FromVerb(argv))
  {
    if argv != [] && argv[0] !in VERBS {
      TargetByVerb(program, argv[1..]);
    }
  }

  // Stripping never changes the target.
  lemma TargetUnchanged(program: string, argv: seq<string>)
    ensures ChooseTarget(program, Strip(argv, VERBS).1) == ChooseTarget(program, argv)
  {
    VerbAndRestSurvive(argv);
    TargetByVerb(program, argv);
    TargetByVerb(program, Strip(argv, VERBS).1);
  }

  lemma {:induction false} HelpSurvives(argv: seq<string>)
    ensures HelpBeforeVerb(Strip(argv, VERBS).1) <==> HelpBeforeVerb(argv)
  {
    if argv != [] && argv[0] !in VERBS {
      if Setting(argv).Some? {
        ValuesAreNoVerbs();
        SettingIsInert(argv, VERBS);
        var n := Setting(argv).value.0;
        HelpSurvives(argv[n..]);
        assert n == 2 ==> argv[1..][0] == argv[1] && argv[1..][1..] == argv[2..];
      } else {
        HelpSurvives(argv[1..]);
        var out := [argv[0]] + Strip(argv[1..], VERBS).1;
        assert out[1..] == Strip(argv[1..], VERBS).1;
      }
    }
  }

  // Nothing but valid language settings.
  predicate OnlySettings(argv: seq<string>) {
    argv == [] || (Setting(argv).Some? && OnlySettings(argv[Setting(argv).value.0..]))
  }

  // They are what stripping leaves nothing of.
  lemma {:induction false} StripsToNothing(argv: seq<string>)
    ensures Strip(argv, VERBS).1 == [] <==> OnlySettings(argv)
  {
    if argv != [] && argv[0] !in VERBS && Setting(argv).Some? {
      StripsToNothing(argv[Setting(argv).value.0..]);
    } else if argv != [] && Setting(argv).Some? {
      SettingIsNoVerb(argv);
    }
  }

  lemma SettingIsNoVerb(argv: seq<string>)
    requires argv != [] && Setting(argv).Some?
    ensures argv[0] !in VERBS
  {
    DashIsNoVerb(argv[0]);
  }

  // The help answer differs exactly for a command line of nothing but settings.
  lemma HelpDiffersExactly(argv: seq<string>)
    ensures UnifiedHelpRequest(Strip(argv, VERBS).1) != UnifiedHelpRequest(argv) <==> argv != [] && OnlySettings(argv)
  {
    HelpSurvives(argv);
    StripsToNothing(argv);
    if OnlySettings(argv) { SettingsAskNoHelp(argv); }
  }

  lemma {:induction false} SettingsAskNoHelp(argv: seq<string>)
    requires OnlySettings(argv)
    ensures !HelpBeforeVerb(argv)
  {
    StripsToNothing(argv);
    HelpSurvives(argv);
  }

  // The language is absent exactly when nothing was removed.
  lemma {:induction false} AbsentExactlyWhenUnchanged(argv: seq<string>, verbs: set<string>)
    ensures var (value, out) := Strip(argv, verbs);
            (value.None? <==> out == argv) && (value.Some? ==> |out| < |argv| && Valid(value.value))
  {
    if argv != [] && argv[0] !in verbs {
      if Setting(argv).Some? {
        AbsentExactlyWhenUnchanged(argv[Setting(argv).value.0..], verbs);
      } else {
        AbsentExactlyWhenUnchanged(argv[1..], verbs);
        assert argv == [argv[0]] + argv[1..];
        assert Strip(argv, verbs).1[1..] == Strip(argv[1..], verbs).1;
      }
    }
  }

  // So the whole decision changes exactly when the canonical program is given
  // nothing but language settings, and then to the unified help.
  lemma RouteChangesExactly(program: string, argv: seq<string>)
    ensures Decide(program, Strip(argv, VERBS).1) != Decide(program, argv) <==> program == "jrag" && argv != [] && OnlySettings(argv)
    ensures Decide(program, Strip(argv, VERBS).1) != Decide(program, argv) ==>
              Decide(program, Strip(argv, VERBS).1) == UnifiedHelp
  {
    TargetUnchanged(program, argv);
    HelpDiffersExactly(argv);
    HelpSurvives(argv);
  }

  // `jrag --lang en` is such a command line.
  lemma LangAloneChangesRoute()
    ensures Decide("jrag", ["--lang", "en"]) == Delegate(Agent)
    ensures Decide("jrag", Strip(["--lang", "en"], VERBS).1) == UnifiedHelp
  {
    var argv := ["--lang", "en"];
    hide VERBS, OPERATOR_VERBS, AGENT_VERBS;
    assert Setting(argv) == Some((2, "en"));
    assert argv[2..] == [];
    assert OnlySettings(argv);
    RouteChangesExactly("jrag", argv);
    RoutesByName(argv);
  }

  // Settings alone leave the choice to the program's name.
  lemma RoutesByName(argv: seq<string>)
    requires OnlySettings(argv)
    ensures ChooseTarget("jrag", argv) == Agent
  {
    StripsToNothing(argv);
    TargetUnchanged("jrag", argv);
  }

  // ---- What stripping leaves ----

  // Neither a language flag nor a value.
  predicate OtherToken(token: string) {
    !LangFlag(token) && !("--lang=" <= token) && !Valid(token)
  }

  function Others(argv: seq<string>): seq<string> {
    if argv == [] then [] else (if OtherToken(argv[0]) then [argv[0]] else []) + Others(argv[1..])
  }

  // All other tokens survive, in order.
  lemma {:induction false} OthersSurvive(argv: seq<string>, verbs: set<string>)
    ensures Others(Strip(argv, verbs).1) == Others(argv)
  {
    if argv != [] && argv[0] !in verbs {
      if Setting(argv).Some? {
        var n := Setting(argv).value.0;
        OthersSurvive(argv[n..], verbs);
        assert n == 2 ==> argv[1..][0] == argv[1] && argv[1..][1..] == argv[2..];
      } else {
        OthersSurvive(argv[1..], verbs);
        var out := [argv[0]] + Strip(argv[1..], verbs).1;
        assert out[1..] == Strip(argv[1..], verbs).1;
      }
    }
  }

  // The tokens behind the leading settings.
  function BehindSettings(argv: seq<string>): seq<string> {
    if argv != [] && Setting(argv).Some? then BehindSettings(argv[Setting(argv).value.0..]) else argv
  }

  // A flag without a value of its own stands ahead of the verb, and behind it, with
  // nothing but settings in between, a value.
  predicate Rejoins(argv: seq<string>) {
    argv != [] && argv[0] !in VERBS
    && if Setting(argv).Some? then Rejoins(argv[Setting(argv).value.0..])
       else var next := BehindSettings(argv[1..]);
            (LangFlag(argv[0]) && next != [] && Valid(next[0])) || Rejoins(argv[1..])
  }

  lemma {:induction false} StrippedHead(argv: seq<string>)
    ensures var (out, next) := (Strip(argv, VERBS).1, BehindSettings(argv));
            (out == [] <==> next == []) && (out != [] ==> out[0] == next[0])
  {
    hide VERBS;
    if argv != [] && Setting(argv).Some? {
      SettingIsNoVerb(argv);
      StrippedHead(argv[Setting(argv).value.0..]);
    }
  }

  // Stripping once more removes something exactly if a flag and a value were
  // brought together.
  lemma {:induction false} StripAgainExactly(argv: seq<string>)
    ensures Strip(Strip(argv, VERBS).1, VERBS).1 != Strip(argv, VERBS).1 <==> Rejoins(argv)
  {
    hide VERBS;
    var out := Strip(argv, VERBS).1;
    AbsentExactlyWhenUnchanged(out, VERBS);
    if argv != [] && argv[0] !in VERBS {
      if Setting(argv).Some? {
        StripAgainExactly(argv[Setting(argv).value.0..]);
      } else {
        var rest := Strip(argv[1..], VERBS).1;
        StripAgainExactly(argv[1..]);
        StrippedHead(argv[1..]);
        AbsentExactlyWhenUnchanged(rest, VERBS);
        assert out == [argv[0]] + rest && out[1..] == rest;
      }
    }
  }

  // A command line that strips to `--lang en`.
  lemma StripBringsTogether()
    ensures Strip(["--lang", "-L", "ru", "en"], VERBS).1 == ["--lang", "en"]
    ensures Rejoins(["--lang", "-L", "ru", "en"])
  {
    var a, b, c := ["--lang", "-L", "ru", "en"], ["-L", "ru", "en"], ["en"];
    assert a[1..] == b && b[2..] == c && c[1..] == [];
    SomeSettings();
    ValuesAreNoVerbs();
    DashIsNoVerb("--lang");
    DashIsNoVerb("-L");
    hide VERBS, Setting;
    StripStep(c);
    StripStep(b);
    StripStep(a);
    assert BehindSettings(c) == c && BehindSettings(b) == c;
  }

  lemma SomeSettings()
    ensures Valid("en") && Setting(["en"]).None?
    ensures Setting(["-L", "ru", "en"]) == Some((2, "ru")) && Setting(["--lang", "-L", "ru", "en"]).None?
  {
    assert Assigned("en").None?;
  }

  lemma StripStep(argv: seq<string>)
    requires argv != [] && argv[0] !in VERBS
    ensures Strip(argv, VERBS).1 == if Setting(argv).Some? then Strip(argv[Setting(argv).value.0..], VERBS).1
                                    else [argv[0]] + Strip(argv[1..], VERBS).1
  {
    hide VERBS, Setting;
  }

  // ---- The other scanner ----

  // The first recognized flag decides, valid or not.
  function Scan(argv: seq<string>): Option<string> {
    if argv == [] then None
    else if LangFlag(argv[0]) || Assigned(argv[0]).Some? then
      match Setting(argv)
      case Some((_, v)) => Some(v)
      case None => None
    else Scan(argv[1..])
  }

  predicate Recognized(token: string) {
    token == "--lang" || token == "-L" || "--lang=" <= token
  }

  // A language is found exactly if it is the valid value of the first recognized
  // flag.
  lemma {:induction false} ScanExactly(argv: seq<string>, v: string)
    ensures Scan(argv) == Some(v) <==>
              (v == "en" || v == "ru") && exists i :: 0 <= i < |argv| && ValueAt(argv, i, v) && forall k :: 0 <= k < i ==> !Recognized(argv[k])
  {
    if argv != [] {
      if Recognized(argv[0]) {
        FirstDecides(argv, v);
      } else {
        var rest := argv[1..];
        ScanExactly(rest, v);
        assert forall i :: 0 <= i < |rest| ==> rest[i] == argv[i + 1] && ValueAt(rest, i, v) == ValueAt(argv, i + 1, v);
        if i :| 0 <= i < |rest| && ValueAt(rest, i, v) && forall k :: 0 <= k < i ==> !Recognized(rest[k]) {
          assert ValueAt(argv, i + 1, v);
          assert forall k :: 0 < k < i + 1 ==> argv[k] == rest[k - 1];
        }
        if i :| 0 <= i < |argv| && ValueAt(argv, i, v) && forall k :: 0 <= k < i ==> !Recognized(argv[k]) {
          assert i > 0 && ValueAt(rest, i - 1, v);
        }
      }
    }
  }

  lemma FirstDecides(argv: seq<string>, v: string)
    requires argv != [] && Recognized(argv[0])
    ensures Scan(argv) == Some(v) <==> (v == "en" || v == "ru") && ValueAt(argv, 0, v)
  {
  }

  // The flag at `i` says `v`, joined to it or as the next token.
  predicate ValueAt(argv: seq<string>, i: nat, v: string)
    requires i < |argv|
  {
    argv[i] == "--lang=" + v || ((argv[i] == "--lang" || argv[i] == "-L") && i + 1 < |argv| && argv[i + 1] == v)
  }

  method ScanLang(argv: seq<string>) returns (r: Option<string>)
    ensures r == Scan(argv)
  {
    var i := 0;
    while i < |argv|
      invariant 0 <= i <= |argv| && Scan(argv) == Scan(argv[i..])
    {
      var token := argv[i];
      assert argv[i..][0] == token && argv[i..][1..] == argv[i + 1..];
      if LangFlag(token) {
        if i + 1 < |argv| && Valid(argv[i + 1]) {
          return Some(argv[i + 1]);
        }
        return None;
      }
      if "--lang=" <= token {
        var value := token[7..];
        return if Valid(value) then Some(value) else None;
      }
      i := i + 1;
    }
    return None;
  }

  function BeforeVerb(argv: seq<string>): seq<string> {
    if argv == [] || argv[0] in VERBS then [] else [argv[0]] + BeforeVerb(argv[1..])
  }

  // A language the plain scan sees before the verb is the one stripping returns;
  // stripping may also find one behind an invalid flag that stops the scan.
  lemma {:induction false} ScanIsStripped(argv: seq<string>)
    ensures Scan(BeforeVerb(argv)).Some? ==> Strip(argv, VERBS).0 == Scan(BeforeVerb(argv))
  {
    if argv != [] && argv[0] !in VERBS {
      var front := BeforeVerb(argv);
      assert front[1..] == BeforeVerb(argv[1..]);
      ScanIsStripped(argv[1..]);
      assert |front| > 1 ==> |argv| > 1 && front[1] == argv[1];
    }
  }

  lemma {:induction false} InvalidFlagIsKept(token: string, rest: seq<string>)
    requires token !in VERBS && Setting([token] + rest).None?
    ensures Strip([token] + rest, VERBS).0 == Strip(rest, VERBS).0
  {
    hide VERBS, Setting;
    assert ([token] + rest)[1..] == rest;
  }

  lemma ScanStopsWhereStripGoesOn()
    ensures Scan(["--lang=de", "-L", "ru"]) == None && Strip(["--lang=de", "-L", "ru"], VERBS).0 == Some("ru")
  {
    var rest := ["-L", "ru"];
    var argv := ["--lang=de"] + rest;
    assert argv == ["--lang=de", "-L", "ru"] && argv[0][7..] == "de";
    DashIsNoVerb("--lang=de");
    DashIsNoVerb("-L");
    hide VERBS;
    InvalidFlagIsKept("--lang=de", rest);
    assert Setting(rest).Some?;
    assert rest[2..] == [];
  }

  lemma DashIsNoVerb(token: string)
    requires token != "" && token[0] == '-'
    ensures token !in VERBS
  {
    assert token !in OPERATOR_VERBS;
    assert token !in AGENT_VERBS;
  }

  // ---- The entry point ----

  class Process {
    var argv: seq<string>            // without the program's own name
    var langOverride: Option<string>
    const program: string

    constructor (name: string, args: seq<string>)
      ensures program == name && argv == args && langOverride == None
    {
      program, argv, langOverride := name, args, None;
    }

    method ConsoleScriptMain() returns (route: Route)
      modifies this
      ensures argv == Strip(old(argv), VERBS).1
      ensures langOverride == if argv == old(argv) then old(langOverride) else Strip(old(argv), VERBS).0
      ensures RightRoute(program, argv, route)
      ensures route == Decide(program, old(argv)) || (route == UnifiedHelp && old(argv) != [] && OnlySettings(old(argv)))
    {
      hide Strip, HelpBeforeVerb, ChooseTarget, OnlySettings, RightRoute, VERBS, OPERATOR_VERBS, AGENT_VERBS;
      var langValue, stripped := StripLangBeforeVerb(argv, VERBS);
      AbsentExactlyWhenUnchanged(argv, VERBS);
      RouteChangesExactly(program, argv);
      if langValue.Some? {
        argv := stripped;
        langOverride := langValue;
      }
      DecideIsRight(program, argv);
      if program == "jrag" && UnifiedHelpRequest(argv) {
        return UnifiedHelp;
      }
      route := Delegate(ChooseTarget(program, argv));
    }
  }
}
