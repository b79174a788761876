/** Releasing in lockstep (scripts/bump_version.py): reading the current version
    with a TOML reader, checking the target, and rewriting both project files.

    The reader does not follow the rewrite's line walk.  Where the walk finds plain
    text properly between two quotes, a reader's choice, whether the version is
    taken from that line or from elsewhere, is an arbitrary function of the text
    around it, with the digits of pins blanked: neither they nor such text is TOML
    syntax.  Of any other text the reading is an arbitrary function of all of it. */
module Release {

  import opened Common
  import opened VersionBump

  datatype Seen = ScannedLine | Elsewhere(version: Option<string>)

  // `sees` chooses for delimited version lines, `whole` reads all other texts.
  datatype Reader = Reader(py: Python, sees: (string, string) -> Seen, whole: string -> Option<string>)

  const BLANK := "0.0.0"

  function Blanked(u: Python, t: string): string {
    Repin(u, t, BLANK)
  }

  // No escape, no control character, and nothing that could end a literal string.
  predicate PlainText(v: string) {
    && (forall i :: 0 <= i < |v| ==> (v[i] >= ' ' || v[i] == '\t') && v[i] != '\\' && v[i] != '\U{7F}')
    && (forall i :: 0 <= i < |v| - 2 ==> !(v[i] == v[i + 1] == v[i + 2] == '\''))
  }

  // The closing quote, first in `after`, is not followed by another.
  predicate Closed(after: string) {
    |after| < 2 || after[1] != '"'
  }

  // Plain text stands between the quotes of the version line, and these are no part
  // of a run of three.
  predicate Delimited(u: Python, t: string) {
    var s, v := Surroundings(u, t), Version(u, t);
    s.Some? && v.Some? && PlainText(v.value) && (v.value == "" ==> Closed(s.value.1))
  }

  // The choice for plain text between these surroundings.  A quoted text that
  // another quote follows at once is no value, so a file read there is invalid.
  function Chosen(w: Reader, before: string, after: string): Seen {
    var seen := w.sees(Blanked(w.py, before), Blanked(w.py, after));
    if seen.ScannedLine? && !Closed(Blanked(w.py, after)) then Elsewhere(None) else seen
  }

  // Where the version is read once a plain one has been written to the line.
  function Settled(w: Reader, t: string): Seen {
    var s := Surroundings(w.py, t);
    if s.None? then Elsewhere(w.whole(t)) else Chosen(w, s.value.0, s.value.1)
  }

  function Read(w: Reader, t: string): Option<string> {
    if !Delimited(w.py, t) then w.whole(t) else Reading(Settled(w, t), Version(w.py, t).value)
  }

  // What is read if the line holds `v`.
  function Reading(seen: Seen, v: string): Option<string> {
    match seen
    case ScannedLine => Some(v)
    case Elsewhere(version) => version
  }

  // A plain version written to the line is what is read.
  predicate Follows(w: Reader, t: string) {
    Settled(w, t).ScannedLine?
  }

  // The version is read from the line as it stands.
  predicate FromLine(w: Reader, t: string) {
    Delimited(w.py, t) && Follows(w, t)
  }

  // With `v` written to the line, `v` is read, from there or anyway.
  predicate EndsOn(w: Reader, t: string, v: string) {
    Follows(w, t) || Settled(w, t) == Elsewhere(Some(v))
  }

  // A plain version is plain text.
  lemma NumericIsPlain(u: Python, v: string)
    requires Numeric(u, v)
    ensures PlainText(v) && Quotable(v) && v != ""
  {
    NumericChars(u, v);
    forall i | 0 <= i < |v| ensures v[i] >= ' ' && v[i] != '\\' && v[i] != '\U{7F}' && v[i] != '\'' {
      assert Digit(u, v[i]) || v[i] == '.';
    }
  }

  lemma SurroundedExactly(u: Python, t: string)
    ensures Surroundings(u, t).Some? <==> Version(u, t).Some?
  {
  }

  lemma QuoteOpensAfter(u: Python, t: string)
    requires Surroundings(u, t).Some?
    ensures var after := Surroundings(u, t).value.1; after != "" && after[0] == '"'
  {
    hide Lines, Join, Header, InProject, Opening, Quote;
    var lines := Lines(t);
    var i := VersionLine(u, lines, 0);
    SpanParts(u, lines[i]);
  }

  // Blanking pins moves no character right behind the closing quote.
  lemma BlankedClosed(u: Python, after: string)
    requires after != "" && after[0] == '"'
    ensures Closed(Blanked(u, after)) <==> Closed(after)
  {
    hide Repin;
    assert ['"'] + after[1..] == after;
    RepinSkip(u, ['"'], after[1..], BLANK);
    if after[1..] != "" {
      RepinFirst(u, after[1..], BLANK);
    } else {
      RepinSame(u, "", BLANK);
    }
  }

  // The reader follows a version line exactly if it looks there at all and no
  // further quote stands right behind the closing one.
  lemma FollowsExactly(w: Reader, t: string)
    requires Surroundings(w.py, t).Some?
    ensures var (before, after) := Surroundings(w.py, t).value;
            Follows(w, t) <==> w.sees(Blanked(w.py, before), Blanked(w.py, after)) == ScannedLine && (|after| < 2 || after[1] != '"')
  {
    hide Surroundings, Blanked;
    QuoteOpensAfter(w.py, t);
    BlankedClosed(w.py, Surroundings(w.py, t).value.1);
  }

  // ---- What the rewrites do to the reader ----

  // The version rewrite keeps the reader's choice, and what is read then is decided
  // by it.
  lemma ReplacedRead(w: Reader, t: string, v: string)
    requires Numeric(w.py, v)
    ensures Settled(w, Replaced(w.py, t, v)) == Settled(w, t)
    ensures Version(w.py, t).None? ==> Replaced(w.py, t, v) == t
    ensures Read(w, Replaced(w.py, t, v)) == Reading(Settled(w, t), v)
  {
    hide Numeric, Surroundings, Chosen, PlainText;
    NumericIsPlain(w.py, v);
    ReplacedSurroundings(w.py, t, v);
    SurroundedExactly(w.py, t);
    NoLineNoChange(w, t, v);
    hide Version, Replaced;
    if Version(w.py, t).Some? {
      ReadsBack(w.py, t, v);
    }
  }

  // Where the line is delimited, or there is none, what is read from elsewhere is
  // read before and after.
  lemma ReadBefore(w: Reader, t: string)
    requires Delimited(w.py, t) || Version(w.py, t).None?
    ensures Settled(w, t).Elsewhere? ==> Read(w, t) == Settled(w, t).version
    ensures FromLine(w, t) ==> Read(w, t) == Version(w.py, t)
    ensures FromLine(w, t) <==> Follows(w, t)
  {
    SurroundedExactly(w.py, t);
  }

  // Where a file is read can be seen on it: write two different versions to its
  // line, and compare what is read.
  lemma FollowsSeen(w: Reader, t: string, a: string, b: string)
    requires Numeric(w.py, a) && Numeric(w.py, b) && a != b
    ensures Follows(w, t) <==> Read(w, Replaced(w.py, t, a)) != Read(w, Replaced(w.py, t, b))
  {
    hide Numeric, Settled, Read, Replaced;
    ReplacedRead(w, t, a);
    ReplacedRead(w, t, b);
  }

  // The pin rewrite keeps the choice wherever there is a version line ...
  lemma RepinnedSettled(w: Reader, t: string, v: string)
    requires Numeric(w.py, v) && Version(w.py, t).Some?
    ensures Settled(w, Repin(w.py, t, v)) == Settled(w, t)
  {
    hide Numeric, Surroundings, Repin, Version;
    SurroundedExactly(w.py, t);
    RepinnedSurroundings(w.py, t, v);
    var s := Surroundings(w.py, t).value;
    RepinTwice(w.py, s.0, v, BLANK);
    RepinTwice(w.py, s.1, v, BLANK);
  }

  // ... and pins are rewritten alike whatever was done to them and to the line
  // before.
  lemma RewriteForgotten(w: Reader, t: string, v: string, x: string)
    requires Numeric(w.py, v) && Numeric(w.py, x)
    ensures Settled(w, Repin(w.py, Repin(w.py, Replaced(w.py, t, v), v), x)) == Settled(w, Repin(w.py, t, x))
  {
    hide Numeric, Settled, Repin, Replaced, Version;
    ReplacedRead(w, t, v);
    RepinTwice(w.py, Replaced(w.py, t, v), v, x);
    if Version(w.py, t).Some? {
      NumericIsPlain(w.py, v);
      ReadsBack(w.py, t, v);
      RepinnedSettled(w, Replaced(w.py, t, v), x);
      RepinnedSettled(w, t, x);
    }
  }

  // What is read from the rewritten shim.
  lemma ShimRead(w: Reader, t: string, v: string)
    requires Numeric(w.py, v)
    ensures Read(w, Repin(w.py, Replaced(w.py, t, v), v)) == Reading(Settled(w, Repin(w.py, t, v)), v)
    ensures PinsAre(w.py, Repin(w.py, Replaced(w.py, t, v), v), v)
  {
    hide Numeric, Settled, Repin, Replaced, Version, PinsAre, PlainText;
    var u, r := w.py, Replaced(w.py, t, v);
    RepinsEveryPin(u, r, v);
    ReplacedRead(w, t, v);
    NumericIsPlain(u, v);
    NumericChars(u, v);
    if Version(u, t).Some? {
      ReadsBack(u, t, v);
      RepinKeepsVersion(u, r, v);
      RepinSame(u, v, v);
      RepinnedSettled(w, r, v);
      RepinnedSettled(w, t, v);
      DelimitedBy(u, Repin(u, r, v), v);
    } else {
      RepinKeepsVersion(u, t, v);
      Undelimited(w, Repin(u, t, v));
    }
  }

  lemma DelimitedBy(u: Python, t: string, v: string)
    requires Version(u, t) == Some(v) && PlainText(v) && v != ""
    ensures Delimited(u, t)
  {
    SurroundedExactly(u, t);
  }

  lemma Undelimited(w: Reader, t: string)
    requires Version(w.py, t).None?
    ensures !Delimited(w.py, t) && Settled(w, t) == Elsewhere(w.whole(t))
  {
    SurroundedExactly(w.py, t);
  }

  // ---- One call ----

  datatype Repo = Repo(root: string, shim: string)

  // Which of the two writes fails, if any; a failing write changes nothing.
  datatype Fault = NoFault | RootWrite | ShimWrite

  datatype Call = Call(target: string, apply: bool, fault: Fault)

  datatype Exit = Unreadable | Rejected | Raised | Checked | WriteFailed | Bumped

  function Bump(w: Reader, r: Repo, c: Call): (Repo, Exit) {
    var current := Read(w, r.root);
    if current.None? then (r, Unreadable)
    else
      match Validate(w.py, c.target, current.value)
      case Malformed => (r, Rejected)
      case NotGreater => (r, Rejected)
      case Unparseable => (r, Raised)
      case Accepted =>
        if !c.apply then (r, Checked)
        else if c.fault.RootWrite? then (r, WriteFailed)
        else
          var root := Replaced(w.py, r.root, c.target);
          if c.fault.ShimWrite? then (r.(root := root), WriteFailed)
          else (Repo(root, Repin(w.py, Replaced(w.py, r.shim, c.target), c.target)), Bumped)
  }

  lemma NoLineNoChange(w: Reader, t: string, v: string)
    ensures Version(w.py, t).None? ==> Replaced(w.py, t, v) == t
  {
  }

  lemma BumpedRepo(w: Reader, r: Repo, c: Call)
    requires Bump(w, r, c).1.Bumped?
    ensures Bump(w, r, c).0 == Repo(Replaced(w.py, r.root, c.target), Repin(w.py, Replaced(w.py, r.shim, c.target), c.target))
  {
    hide Read, Replaced, Repin, Validate;
  }

  // The root version was rewritten, whatever became of the shim.
  predicate Rewrote(exit: Exit, c: Call) {
    exit.Bumped? || (exit.WriteFailed? && c.fault.ShimWrite?)
  }

  lemma BumpedIsWellFormed(w: Reader, r: Repo, c: Call)
    requires Rewrote(Bump(w, r, c).1, c)
    ensures WellFormed(w.py, c.target) && Read(w, r.root).Some?
    ensures var (a, b) := (Triple(w.py, Read(w, r.root).value), Triple(w.py, c.target));
            a.Some? && b.Some? && Less(a.value, b.value)
    ensures Bump(w, r, c).0.root == Replaced(w.py, r.root, c.target)
  {
    hide Triple, Read, WellFormed, Replaced, Repin;
  }

  // X.Y.Z, perhaps with a line feed behind it.
  predicate Writable(u: Python, v: string) {
    Numeric(u, v) || (v != "" && v[|v| - 1] == '\n' && Numeric(u, v[..|v| - 1]))
  }

  // How a call ends, and that only a bump or a failed shim write changes a file.
  lemma ExitsExactly(w: Reader, r: Repo, c: Call)
    ensures var (after, exit) := Bump(w, r, c);
            && (exit.Unreadable? <==> Read(w, r.root).None?)
            && (Read(w, r.root).Some? ==>
                  var (x, y) := (Triple(w.py, Read(w, r.root).value), Triple(w.py, c.target));
                  var comparable := Writable(w.py, c.target) && x.Some? && y.Some?;
                  var higher := comparable && var ((a, b, d), (major, minor, patch)) := (x.value, y.value);
                                              a < major || (a == major && b < minor) || (a == major && b == minor && d < patch);
                  && (exit.Raised? <==> Writable(w.py, c.target) && !comparable)
                  && (exit.Rejected? <==> !Writable(w.py, c.target) || (comparable && !higher))
                  && (exit.Checked? <==> higher && !c.apply)
                  && (exit.WriteFailed? <==> higher && c.apply && !c.fault.NoFault?)
                  && (exit.Bumped? <==> higher && c.apply && c.fault.NoFault?))
            && (after != r ==> exit.Bumped? || (exit.WriteFailed? && c.fault.ShimWrite? && after.shim == r.shim))
  {
    hide Read, Triple, Numeric, Replaced, Repin;
  }

  // ---- What a completed bump achieves ----

  ghost predicate LinesHold(w: Reader, r: Repo, v: string) {
    Version(w.py, r.root) == Some(v) && Version(w.py, r.shim) == Some(v) && PinsAre(w.py, r.shim, v)
  }

  // As far as the line walk can tell, both files and every pin are on the target
  // exactly when it ends in no line feed and both files have a version line.
  lemma LinesHoldExactly(w: Reader, r: Repo, c: Call)
    requires Bump(w, r, c).1.Bumped?
    ensures c.target != ""
    ensures LinesHold(w, Bump(w, r, c).0, c.target)
       <==> c.target[|c.target| - 1] != '\n' && Version(w.py, r.root).Some? && Version(w.py, r.shim).Some?
  {
    hide Version, Replaced, Numeric, Repin, PinsAre, Validate, Bump, WellFormed;
    var u, v := w.py, c.target;
    BumpedIsWellFormed(w, r, c);
    BumpedRepo(w, r, c);
    PlainExactly(u, v);
    NoLineNoChange(w, r.root, v);
    NoLineNoChange(w, r.shim, v);
    if Numeric(u, v) {
      RepinsEveryPin(u, Replaced(u, r.shim, v), v);
      NumericIsPlain(u, v);
      NumericChars(u, v);
      RepinSame(u, v, v);
      RepinKeepsVersion(u, Replaced(u, r.shim, v), v);
      if Version(u, r.root).Some? { ReadsBack(u, r.root, v); }
      if Version(u, r.shim).Some? { ReadsBack(u, r.shim, v); }
    } else if Version(u, Replaced(u, r.root, v)).Some? {
      VersionHasNoBreak(u, Replaced(u, r.root, v), '\n');
    }
  }

  // As the TOML reader sees it.
  ghost predicate InStep(w: Reader, r: Repo, v: string) {
    Read(w, r.root) == Some(v) && Read(w, r.shim) == Some(v) && PinsAre(w.py, r.shim, v)
  }

  // For a plain target, what is read from both files and every pin is the target
  // exactly when both files end on it.  A root whose line is delimited, or that has
  // none, does so exactly if it is read from its line, and is otherwise read as
  // before; a root without a version line is not even changed.  Success is reported
  // in every case.
  lemma BumpedExactly(w: Reader, r: Repo, c: Call)
    requires Bump(w, r, c).1.Bumped? && PlainCall(c)
    ensures Read(w, Bump(w, r, c).0.root) == Reading(Settled(w, r.root), c.target)
    ensures InStep(w, Bump(w, r, c).0, c.target) <==> EndsOn(w, r.root, c.target) && EndsOn(w, Repin(w.py, r.shim, c.target), c.target)
    ensures Delimited(w.py, r.root) || Version(w.py, r.root).None? ==>
              && (EndsOn(w, r.root, c.target) <==> FromLine(w, r.root))
              && (!FromLine(w, r.root) ==> Read(w, Bump(w, r, c).0.root) == Read(w, r.root))
    ensures Version(w.py, r.root).None? ==> Bump(w, r, c).0.root == r.root
    ensures Version(w.py, r.shim).Some? ==> (EndsOn(w, Repin(w.py, r.shim, c.target), c.target) <==> EndsOn(w, r.shim, c.target))
  {
    hide Version, Replaced, Numeric, Repin, PinsAre, Validate, Settled, Read, Bump, WellFormed, Delimited, Triple;
    var v := c.target;
    BumpedIsWellFormed(w, r, c);
    BumpedRepo(w, r, c);
    PlainExactly(w.py, v);
    ReplacedRead(w, r.root, v);
    ShimRead(w, r.shim, v);
    NoLineNoChange(w, r.root, v);
    if Delimited(w.py, r.root) || Version(w.py, r.root).None? { ReadBefore(w, r.root); }
    if Version(w.py, r.shim).Some? { RepinnedSettled(w, r.shim, v); }
  }

  // ---- A bump that breaks the root ----

  const HEAD := "[project]\n"
  const LINE := "version = \"\"\"1.0.0\"\"\"\n"

  lemma TwoLines()
    ensures Lines(HEAD + LINE) == [HEAD, LINE]
  {
    assert |HEAD| == 10 && |LINE| == 22;
    assert IsLine(HEAD, false) && IsLine(LINE, true);
    LinesUnique([HEAD, LINE]);
    NothingJoined();
    JoinHead(LINE, []);
    JoinHead(HEAD, [LINE]);
    assert [HEAD] + [LINE] == [HEAD, LINE] && [LINE] + [] == [LINE];
    assert LINE + "" == LINE;
  }

  lemma NothingJoined()
    ensures Join([]) == ""
  {
  }

  lemma HeadIsProject(u: Python)
    ensures Header(u, HEAD) && Strip(u, HEAD) == PROJECT
  {
    var n := |HEAD| - 1;
    assert HEAD[n] == '\n' && HEAD[..n] == PROJECT && HEAD[0] == '[' && PROJECT[n - 1] == ']' && PROJECT[0] == '[';
    FewSpaces(u);
    hide Space;
    assert HEAD[0..] == HEAD;
    assert TrimEnd(u, PROJECT) == PROJECT;
    assert TrimEnd(u, HEAD) == PROJECT;
  }

  lemma FewSpaces(u: Python)
    ensures Space(u, ' ') && Space(u, '\n')
    ensures !Space(u, 'v') && !Space(u, '=') && !Space(u, '"') && !Space(u, '[') && !Space(u, ']')
  {
  }

  lemma SkipIs(u: Python, l: string, i: nat, j: nat)
    requires i <= j < |l| && !Space(u, l[j]) && forall k :: i <= k < j ==> Space(u, l[k])
    ensures SkipSpaces(u, l, i) == j
  {
    hide SkipSpaces;
    assert SkipSpaces(u, l, i) <= j;
  }

  lemma LineLetters()
    ensures |LINE| == 22 && LINE[0] == 'v' && LINE[7] == ' ' && LINE[8] == '=' && LINE[9] == ' ' && LINE[10] == '"' && LINE[11] == '"'
    ensures LINE[12] == '"' && KeyAt(LINE, 0) && |KEY| == 7
  {
    assert LINE[0..7] == KEY;
  }

  // The walk takes the first two of the three quotes for an empty value.
  lemma LineSpan(u: Python)
    ensures Opening(u, LINE) == Some(11) && ValueSpan(u, LINE) == Some((11, 11))
  {
    LineLetters();
    FewSpaces(u);
    hide Space, SkipSpaces, KeyAt, LINE;
    SkipIs(u, LINE, 0, 0);
    SkipIs(u, LINE, 7, 8);
    SkipIs(u, LINE, 9, 10);
  }

  lemma LinesRead(u: Python)
    ensures VersionLine(u, [HEAD, LINE], 0) == 1 && ValueSpan(u, LINE) == Some((11, 11))
  {
    var lines := [HEAD, LINE];
    HeadIsProject(u);
    LineSpan(u);
    VersionLineIsNoHeader(u, LINE);
    hide Header, Strip, ValueSpan, Opening, HEAD, LINE;
    assert InProject(u, lines, 1) && !InProject(u, lines, 0);
    assert VersionAt(u, lines, 1) && !VersionAt(u, lines, 0);
    assert VersionLine(u, lines, 1) == 1;
  }

  lemma TripleQuotedLine(u: Python)
    ensures Version(u, HEAD + LINE) == Some("")
    ensures Surroundings(u, HEAD + LINE).Some? && Surroundings(u, HEAD + LINE).value.1 == LINE[11..]
  {
    TwoLines();
    LinesRead(u);
    LineLetters();
    NothingJoined();
    hide Lines, Join, ValueSpan, VersionLine, LINE, HEAD;
    assert [HEAD, LINE][2..] == [] && LINE[11..] + "" == LINE[11..] && LINE[11..11] == "";
  }

  lemma NoPinBehind(u: Python)
    ensures Blanked(u, LINE[11..]) == LINE[11..] && !Closed(LINE[11..])
  {
    var after := LINE[11..];
    assert after == "\"\"1.0.0\"\"\"\n";
    assert '=' !in after;
    hide Repin;
    RepinSame(u, after, BLANK);
  }

  lemma DigitLetters(u: Python)
    ensures Digit(u, '0') && Digit(u, '1') && !Digit(u, '.')
    ensures Digits(u, "1") && Digits(u, "0") && Decimal(u, "1") == 1 && Decimal(u, "0") == 0
  {
    assert "1"[..0] == "" && "0"[..0] == "";
  }

  lemma ThreeDigits(u: Python, s: string)
    requires |s| == 5 && s[1] == s[3] == '.' && Digit(u, s[0]) && Digit(u, s[2]) && Digit(u, s[4])
    ensures Numeric(u, s)
  {
    DotIsNoDigit(u);
    hide Digit;
    assert DigitsEnd(u, s, 0) == 1 && DigitsEnd(u, s, 2) == 3 && DigitsEnd(u, s, 4) == 5;
  }

  lemma OneHigher(u: Python)
    ensures Numeric(u, "1.0.1") && Validate(u, "1.0.1", "1.0.0") == Accepted
  {
    var a, b := "1.0.0", "1.0.1";
    DigitLetters(u);
    hide Digit, Digits, Decimal, Triple, Validate;
    ThreeDigits(u, b);
    assert a[..1] == b[..1] == "1" && a[2..3] == b[2..3] == a[4..] == "0" && b[4..] == "1";
    TripleReads(u, a, 1, 3);
    TripleReads(u, b, 1, 3);
    AcceptsExactly(u, b, a);
  }

  lemma TripleQuotesSettled(w: Reader)
    requires forall before, after :: w.sees(before, after) == ScannedLine
    ensures !Delimited(w.py, HEAD + LINE) && Settled(w, HEAD + LINE) == Elsewhere(None)
  {
    TripleQuotedLine(w.py);
    NoPinBehind(w.py);
    hide Version, Surroundings, Blanked, Closed, HEAD, LINE;
  }

  lemma BreaksBy(w: Reader, r: Repo, c: Call)
    requires Settled(w, r.root) == Elsewhere(None) && Read(w, r.root).Some?
    requires Validate(w.py, c.target, Read(w, r.root).value) == Accepted && Numeric(w.py, c.target)
    requires c.apply && c.fault.NoFault?
    ensures BreaksRoot(w, r, c)
  {
    hide Settled, Validate, Replaced, Repin, Read, Numeric, Bump, EndsOn, InStep, Delimited, FromLine, Version;
    NumericEndsInDigit(w.py, c.target);
    AcceptedBumps(w, r, c);
    BumpedExactly(w, r, c);
  }

  lemma AcceptedBumps(w: Reader, r: Repo, c: Call)
    requires Read(w, r.root).Some? && Validate(w.py, c.target, Read(w, r.root).value) == Accepted
    requires c.apply && c.fault.NoFault?
    ensures Bump(w, r, c).1.Bumped?
  {
    hide Validate, Replaced, Repin, Read;
  }

  lemma ReadWhole(w: Reader, t: string)
    requires !Delimited(w.py, t)
    ensures Read(w, t) == w.whole(t)
  {
    hide Delimited, Settled;
  }

  // A root whose version stands in triple quotes is read before the bump and, even
  // by a reader that takes it from that very line, cannot be read after it.
  lemma TripleQuotesBreak(w: Reader, c: Call, shim: string)
    requires (forall before, after :: w.sees(before, after) == ScannedLine) && w.whole(HEAD + LINE) == Some("1.0.0")
    requires c == Call("1.0.1", true, NoFault)
    ensures BreaksRoot(w, Repo(HEAD + LINE, shim), c)
  {
    hide Delimited, Settled, Validate, Numeric, Read, BreaksRoot;
    TripleQuotesSettled(w);
    ReadWhole(w, HEAD + LINE);
    OneHigher(w.py);
    BreaksBy(w, Repo(HEAD + LINE, shim), c);
  }

  ghost predicate BreaksRoot(w: Reader, r: Repo, c: Call) {
    && PlainCall(c) && Bump(w, r, c).1.Bumped?
    && Read(w, r.root).Some? && Read(w, Bump(w, r, c).0.root).None?
  }

  // ---- Any sequence of calls ----

  // The repository afterwards, how often the root version was rewritten, and the
  // target written last.
  datatype History = History(repo: Repo, rewrites: nat, last: string)

  function Calls(w: Reader, r: Repo, cs: seq<Call>): History {
    if cs == [] then History(r, 0, "")
    else
      var before, c := Calls(w, r, cs[..|cs| - 1]), cs[|cs| - 1];
      var (after, exit) := Bump(w, before.repo, c);
      if Rewrote(exit, c) then History(after, before.rewrites + 1, c.target) else before.(repo := after)
  }

  predicate PlainCall(c: Call) {
    c.target == "" || c.target[|c.target| - 1] != '\n'
  }

  // What a caller can check: no target ends in a line feed.
  ghost predicate Plain(cs: seq<Call>) {
    forall c :: c in cs ==> PlainCall(c)
  }

  // Both are read, and the numbers read from `b` are higher: the major one, or
  // behind equal major ones the minor one, or behind two equal ones the patch.
  ghost predicate Rises(w: Reader, a: string, b: string) {
    && Read(w, a).Some? && Read(w, b).Some?
    && var (x, y) := (Triple(w.py, Read(w, a).value), Triple(w.py, Read(w, b).value));
       x.Some? && y.Some?
       && var ((a, b, c), (major, minor, patch)) := (x.value, y.value);
          a < major || (a == major && b < minor) || (a == major && b == minor && c < patch)
  }

  // Unchanged without a rewrite; with one, what is read is strictly higher if the
  // reader follows the line, and settled from the first rewrite on if not.
  ghost predicate Forward(w: Reader, a: string, b: string, rewrites: nat) {
    && Settled(w, b) == Settled(w, a)
    && (rewrites == 0 ==> a == b)
    && (rewrites > 0 && Follows(w, a) ==> Rises(w, a, b))
    && (rewrites > 0 && !Follows(w, a) ==> Read(w, b) == Settled(w, a).version)
  }

  lemma ForwardCompose(w: Reader, a: string, b: string, c: string, m: nat, n: nat)
    requires Forward(w, a, b, m) && Forward(w, b, c, n)
    ensures Forward(w, a, c, m + n)
  {
    hide Read, Triple, Settled;
  }

  lemma BumpForward(w: Reader, r: Repo, c: Call)
    requires PlainCall(c)
    ensures var (after, exit) := Bump(w, r, c); Forward(w, r.root, after.root, if Rewrote(exit, c) then 1 else 0)
  {
    hide Version, Replaced, Numeric, Repin, Triple, Settled, Read, Validate;
    var (after, exit) := Bump(w, r, c);
    if Rewrote(exit, c) {
      BumpedIsWellFormed(w, r, c);
      PlainExactly(w.py, c.target);
      ReplacedRead(w, r.root, c.target);
    }
  }

  // Over any sequence of calls, whatever fails, where the root is read never changes.
  // Read from its line, the version strictly rises with every rewrite; read from
  // elsewhere, it is one and the same from the first rewrite on.
  lemma {:induction false} CallsRaiseVersion(w: Reader, r: Repo, cs: seq<Call>)
    requires Plain(cs)
    ensures Forward(w, r.root, Calls(w, r, cs).repo.root, Calls(w, r, cs).rewrites)
  {
    hide Read, Bump, Forward, Settled;
    if cs == [] {
      ForwardSelf(w, r.root);
    } else {
      var front, c := cs[..|cs| - 1], cs[|cs| - 1];
      var before := Calls(w, r, front);
      CallsRaiseVersion(w, r, front);
      BumpForward(w, before.repo, c);
      var (after, exit) := Bump(w, before.repo, c);
      ForwardCompose(w, r.root, before.repo.root, after.root, before.rewrites, if Rewrote(exit, c) then 1 else 0);
    }
  }

  lemma ForwardSelf(w: Reader, a: string)
    ensures Forward(w, a, a, 0)
  {
  }

  // And with a delimited line, or none, it is the one read at the start.
  lemma ElsewhereStays(w: Reader, r: Repo, cs: seq<Call>)
    requires Plain(cs) && (Delimited(w.py, r.root) || Version(w.py, r.root).None?) && !FromLine(w, r.root)
    ensures Read(w, Calls(w, r, cs).repo.root) == Read(w, r.root)
  {
    hide Read, Calls, Settled, Delimited, Version;
    ReadBefore(w, r.root);
    CallsRaiseVersion(w, r, cs);
  }

  // Both files as the last completed bump, to `v`, left them, as far as readers and
  // pins are concerned; `o` is where they started.
  ghost predicate LeftBy(w: Reader, o: Repo, r: Repo, v: string) {
    && Numeric(w.py, v)
    && Settled(w, r.root) == Settled(w, o.root) && ShimAlike(w, o.shim, r.shim)
    && Read(w, r.root) == Reading(Settled(w, o.root), v)
    && Read(w, r.shim) == Reading(Settled(w, Repin(w.py, o.shim, v)), v)
    && PinsAre(w.py, r.shim, v)
  }

  ghost predicate ShimAlike(w: Reader, s: string, t: string) {
    forall x :: Numeric(w.py, x) ==> Settled(w, Repin(w.py, t, x)) == Settled(w, Repin(w.py, s, x))
  }

  lemma ShimAlikeStep(w: Reader, s: string, t: string, v: string)
    requires Numeric(w.py, v) && ShimAlike(w, s, t)
    ensures ShimAlike(w, s, Repin(w.py, Replaced(w.py, t, v), v))
  {
    hide Settled, Repin, Replaced, Numeric;
    forall x | Numeric(w.py, x)
      ensures Settled(w, Repin(w.py, Repin(w.py, Replaced(w.py, t, v), v), x)) == Settled(w, Repin(w.py, s, x))
    {
      RewriteForgotten(w, t, v, x);
    }
  }

  lemma {:induction false} CallsShimAlike(w: Reader, r: Repo, cs: seq<Call>)
    requires Plain(cs)
    ensures ShimAlike(w, r.shim, Calls(w, r, cs).repo.shim)
  {
    hide ShimAlike, Bump;
    if cs == [] {
      ShimAlikeSelf(w, r.shim);
    } else {
      var before := Calls(w, r, cs[..|cs| - 1]).repo;
      CallsShimAlike(w, r, cs[..|cs| - 1]);
      BumpShimAlike(w, r.shim, before, cs[|cs| - 1]);
    }
  }

  lemma ShimAlikeSelf(w: Reader, s: string)
    ensures ShimAlike(w, s, s)
  {
  }

  lemma BumpShimAlike(w: Reader, s: string, r: Repo, c: Call)
    requires PlainCall(c) && ShimAlike(w, s, r.shim)
    ensures ShimAlike(w, s, Bump(w, r, c).0.shim)
  {
    hide ShimAlike, Read, Replaced, Repin, Validate, WellFormed, Numeric;
    if Bump(w, r, c).1.Bumped? {
      BumpedIsWellFormed(w, r, c);
      PlainExactly(w.py, c.target);
      ShimAlikeStep(w, s, r.shim, c.target);
    }
  }

  lemma BumpLeaves(w: Reader, o: Repo, r: Repo, c: Call)
    requires PlainCall(c) && Bump(w, r, c).1.Bumped? && Settled(w, r.root) == Settled(w, o.root) && ShimAlike(w, o.shim, r.shim)
    ensures LeftBy(w, o, Bump(w, r, c).0, c.target)
  {
    hide ShimAlike, Read, Replaced, Repin, Validate, WellFormed, Numeric, Settled, Bump, PinsAre;
    var v := c.target;
    BumpedIsWellFormed(w, r, c);
    BumpedRepo(w, r, c);
    PlainExactly(w.py, v);
    ReplacedRead(w, r.root, v);
    ShimRead(w, r.shim, v);
    ShimAlikeAt(w, o.shim, r.shim, v);
    ShimAlikeStep(w, o.shim, r.shim, v);
  }

  lemma ShimAlikeAt(w: Reader, s: string, t: string, v: string)
    requires ShimAlike(w, s, t) && Numeric(w.py, v)
    ensures Settled(w, Repin(w.py, t, v)) == Settled(w, Repin(w.py, s, v))
  {
  }

  lemma NextLeaves(w: Reader, o: Repo, r: Repo, v: string, c: Call)
    requires PlainCall(c) && !c.fault.ShimWrite? && LeftBy(w, o, r, v)
    ensures var (after, exit) := Bump(w, r, c); LeftBy(w, o, after, if Rewrote(exit, c) then c.target else v)
  {
    hide LeftBy, Read, Replaced, Repin, Validate, WellFormed;
    if Bump(w, r, c).1.Bumped? {
      LeftAlike(w, o, r, v);
      BumpLeaves(w, o, r, c);
    }
  }

  lemma LeftAlike(w: Reader, o: Repo, r: Repo, v: string)
    requires LeftBy(w, o, r, v)
    ensures Settled(w, r.root) == Settled(w, o.root) && ShimAlike(w, o.shim, r.shim)
  {
  }

  lemma LeftInStep(w: Reader, o: Repo, r: Repo, v: string)
    requires LeftBy(w, o, r, v)
    ensures InStep(w, r, v) <==> EndsOn(w, o.root, v) && EndsOn(w, Repin(w.py, o.shim, v), v)
  {
    hide Read, Settled, Repin, Numeric, ShimAlike, PinsAre;
  }

  // From a completed bump on, for as long as no shim write fails, both files and all
  // pins are on the target written last exactly if both files end on it; the next
  // completed bump repairs a shim write that did fail.
  lemma {:induction false} LockstepFromBumpOn(w: Reader, r: Repo, cs: seq<Call>, c: Call, later: seq<Call>)
    requires Plain(cs + [c] + later)
    requires Bump(w, Calls(w, r, cs).repo, c).1.Bumped?
    requires forall d :: d in later ==> !d.fault.ShimWrite?
    ensures var end := Calls(w, r, cs + [c] + later);
            InStep(w, end.repo, end.last) <==> EndsOn(w, r.root, end.last) && EndsOn(w, Repin(w.py, r.shim, end.last), end.last)
  {
    hide Bump, Calls, InStep, EndsOn, LeftBy;
    CallsLeave(w, r, cs, c, later);
    var end := Calls(w, r, cs + [c] + later);
    LeftInStep(w, r, end.repo, end.last);
  }

  lemma {:induction false} CallsLeave(w: Reader, r: Repo, cs: seq<Call>, c: Call, later: seq<Call>)
    requires Plain(cs + [c] + later)
    requires Bump(w, Calls(w, r, cs).repo, c).1.Bumped?
    requires forall d :: d in later ==> !d.fault.ShimWrite?
    ensures var end := Calls(w, r, cs + [c] + later); LeftBy(w, r, end.repo, end.last)
    decreases |later|
  {
    hide Bump, LeftBy, Settled, ShimAlike;
    var all := cs + [c] + later;
    if later == [] {
      assert all == cs + [c] && all[..|all| - 1] == cs && all[|all| - 1] == c;
      assert Plain(cs) && PlainCall(c);
      CallsRaiseVersion(w, r, cs);
      CallsShimAlike(w, r, cs);
      BumpLeaves(w, r, Calls(w, r, cs).repo, c);
    } else {
      var front, d := later[..|later| - 1], later[|later| - 1];
      assert all[..|all| - 1] == cs + [c] + front && all[|all| - 1] == d;
      assert Plain(cs + [c] + front) && PlainCall(d);
      CallsLeave(w, r, cs, c, front);
      var before := Calls(w, r, cs + [c] + front);
      NextLeaves(w, r, before.repo, before.last, d);
    }
  }

  class Checkout {
    var root: string
    var shim: string

    constructor (root: string, shim: string)
      ensures Now() == Repo(root, shim)
    {
      this.root, this.shim := root, shim;
    }

    function Now(): Repo
      reads this
    {
      Repo(root, shim)
    }

    method WriteLockstep(w: Reader, v: string, fault: Fault) returns (ok: bool)
      modifies this
      ensures ok == fault.NoFault?
      ensures root == if fault.RootWrite? then old(root) else Replaced(w.py, old(root), v)
      ensures shim == if ok then Repin(w.py, Replaced(w.py, old(shim), v), v) else old(shim)
    {
      var text := ReplaceProjectVersion(w.py, root, v);
      if fault.RootWrite? {
        return false;
      }
      root := text;
      var shimText := ReplaceProjectVersion(w.py, shim, v);
      shimText := Repin(w.py, shimText, v);
      if fault.ShimWrite? {
        return false;
      }
      shim := shimText;
      return true;
    }

    method RunCall(w: Reader, c: Call) returns (exit: Exit)
      modifies this
      ensures (Now(), exit) == Bump(w, old(Now()), c)
    {
      hide Read, Replaced, Repin, Validate;
      var current := Read(w, root);
      if current.None? {
        return Unreadable;
      }
      var verdict := Validate(w.py, c.target, current.value);
      if verdict.Unparseable? {
        return Raised;
      }
      if !verdict.Accepted? {
        return Rejected;
      }
      if !c.apply {
        return Checked;
      }
      var ok := WriteLockstep(w, c.target, c.fault);
      return if ok then Bumped else WriteFailed;
    }
  }

}
