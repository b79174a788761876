/** Serialized table optimization with commit-conflict retry
    (src/java_codebase_rag/lance_optimize.py, `optimize_lance_tables`).

    The database is a world of arbitrary outcomes.  `Interrupt` stands for the
    exceptions that are not ordinary errors: cancellation and keyboard interrupt.
    Backoff is counted in units of the base delay of 0.1 seconds. */
module OptimizeRetry {

  const MAX_ATTEMPTS := 6

  datatype Step = Works | Raises | Interrupt
  datatype Attempt = Succeeds | Retryable | Fatal | Cancelled

  datatype World = World(
    connect: Step, list: Step, close: Step,
    existing: set<string>,
    open: string -> Step,
    attempt: (string, nat) -> Attempt,
    sleepInterrupted: (string, nat) -> bool,
    indexingInterrupted: string -> bool)

  datatype Status = Ok | Skipped | ListFailed | OpenFailed | OptimizeFailed

  predicate Fine(s: Status) {
    s == Ok || s == Skipped
  }

  datatype Outcome = Returned(results: map<string, Status>) | Raised | Interrupted

  datatype Event = Running | Done | Failed

  // ---- One table: what the attempts must look like ----

  // The first `k` attempts hit retryable conflicts and each backoff completes.
  ghost predicate RetriedTo(w: World, name: string, k: nat) {
    forall i :: 0 <= i < k ==> w.attempt(name, i) == Retryable && !w.sleepInterrupted(name, i)
  }

  ghost predicate SucceedsAt(w: World, name: string, k: nat) {
    k < MAX_ATTEMPTS && RetriedTo(w, name, k) && w.attempt(name, k) == Succeeds
  }

  ghost predicate FailsAt(w: World, name: string, k: nat) {
    k < MAX_ATTEMPTS && RetriedTo(w, name, k) &&
    (w.attempt(name, k) == Fatal || (w.attempt(name, k) == Retryable && k == MAX_ATTEMPTS - 1))
  }

  ghost predicate StopsAt(w: World, name: string, k: nat) {
    k < MAX_ATTEMPTS && RetriedTo(w, name, k) &&
    (w.attempt(name, k) == Cancelled ||
     (w.attempt(name, k) == Retryable && k < MAX_ATTEMPTS - 1 && w.sleepInterrupted(name, k)))
  }

  ghost predicate EndsAt(w: World, name: string, k: nat) {
    SucceedsAt(w, name, k) || FailsAt(w, name, k) || StopsAt(w, name, k)
  }

  function Pow2(n: nat): nat {
    if n == 0 then 1 else 2 * Pow2(n - 1)
  }

  // `last` is the attempt that ended the loop, `slept` the completed backoff.
  method RetryOptimize(w: World, name: string) returns (r: Attempt, ghost last: nat, slept: nat)
    ensures r == Succeeds || r == Fatal || r == Cancelled
    ensures r == Succeeds ==> SucceedsAt(w, name, last)
    ensures r == Fatal ==> FailsAt(w, name, last)
    ensures r == Cancelled ==> StopsAt(w, name, last)
    ensures slept + 1 == Pow2(last)
  {
    r, last, slept := Fatal, 0, 0;
    var attempt, delay := 0, 1;
    while attempt < MAX_ATTEMPTS
      invariant 0 <= attempt < MAX_ATTEMPTS
      invariant RetriedTo(w, name, attempt)
      invariant delay == Pow2(attempt) == slept + 1
      decreases MAX_ATTEMPTS - attempt
    {
      var outcome := w.attempt(name, attempt);
      last := attempt;
      if outcome == Succeeds || outcome == Cancelled {
        return outcome, attempt, slept;
      }
      if outcome == Retryable && attempt < MAX_ATTEMPTS - 1 {
        if w.sleepInterrupted(name, attempt) {
          return Cancelled, attempt, slept;
        }
        slept := slept + delay;
        delay := 2 * delay;
        attempt := attempt + 1;
        continue;
      }
      return Fatal, attempt, slept;
    }
  }

  // The three endings exclude each other and one of them always holds.
  lemma EndingUnique(w: World, name: string)
    ensures exists k :: EndsAt(w, name, k)
    ensures forall j, k :: EndsAt(w, name, j) && EndsAt(w, name, k) ==> j == k
  {
    var k := EndingFrom(w, name, 0);
  }

  lemma {:induction false} EndingFrom(w: World, name: string, i: nat) returns (k: nat)
    requires i < MAX_ATTEMPTS && RetriedTo(w, name, i)
    ensures EndsAt(w, name, k)
    decreases MAX_ATTEMPTS - i
  {
    if w.attempt(name, i) == Retryable && i < MAX_ATTEMPTS - 1 && !w.sleepInterrupted(name, i) {
      k := EndingFrom(w, name, i + 1);
    } else {
      k := i;
    }
  }

  // Total backoff of one table is below 2^5 - 1 base delays: 3.1 seconds.
  lemma BackoffBounded(w: World, name: string, last: nat, slept: nat)
    requires EndsAt(w, name, last)
    requires slept + 1 == Pow2(last)
    ensures slept <= 31
  {
    Pow2Grows(last, 5);
    assert Pow2(5) == 32 by {
      assert Pow2(4) == 16 by { assert Pow2(2) == 4; }
    }
  }

  lemma {:induction false} Pow2Grows(m: nat, n: nat)
    requires m <= n
    ensures Pow2(m) <= Pow2(n)
  {
    if m < n {
      Pow2Grows(m, n - 1);
    }
  }

  // ---- All tables ----

  // What the status of a finished table means.
  ghost predicate Explains(w: World, name: string, s: Status) {
    match s
    case Skipped => name !in w.existing
    case OpenFailed => name in w.existing && w.open(name) == Raises
    case Ok => name in w.existing && w.open(name) == Works && exists k :: SucceedsAt(w, name, k)
    case OptimizeFailed => name in w.existing && w.open(name) == Works && exists k :: FailsAt(w, name, k)
    case ListFailed => false
  }

  // A finished table that could be opened is ok exactly when one of the six
  // attempts succeeds after nothing but retryable conflicts, and failed exactly when
  // one of them fails for good, be it the sixth with such a conflict.
  lemma OkExactly(w: World, name: string, s: Status)
    requires Explains(w, name, s) && name in w.existing && w.open(name) == Works
    ensures s == Ok <==>
              exists k :: 0 <= k < 6 && w.attempt(name, k) == Succeeds
                          && forall i :: 0 <= i < k ==> w.attempt(name, i) == Retryable && !w.sleepInterrupted(name, i)
    ensures s == OptimizeFailed <==>
              exists k :: 0 <= k < 6 && (w.attempt(name, k) == Fatal || (k == 5 && w.attempt(name, k) == Retryable))
                          && forall i :: 0 <= i < k ==> w.attempt(name, i) == Retryable && !w.sleepInterrupted(name, i)
  {
    StatusByEnding(w, name, s);
    assert forall k: nat :: SucceedsAt(w, name, k) <==>
             k < 6 && w.attempt(name, k) == Succeeds
             && forall i :: 0 <= i < k ==> w.attempt(name, i) == Retryable && !w.sleepInterrupted(name, i);
    assert forall k: nat :: FailsAt(w, name, k) <==>
             k < 6 && (w.attempt(name, k) == Fatal || (k == 5 && w.attempt(name, k) == Retryable))
             && forall i :: 0 <= i < k ==> w.attempt(name, i) == Retryable && !w.sleepInterrupted(name, i);
  }

  // Five conflicts in a row are waited out; the sixth attempt decides.
  lemma SixthDecides(w: World, name: string, s: Status)
    requires Explains(w, name, s) && name in w.existing && w.open(name) == Works
    requires forall i :: 0 <= i < 5 ==> w.attempt(name, i) == Retryable && !w.sleepInterrupted(name, i)
    ensures s == if w.attempt(name, 5) == Succeeds then Ok else OptimizeFailed
    ensures EndsAt(w, name, 5) && Pow2(5) == 31 + 1
  {
    OkExactly(w, name, s);
  }

  lemma StatusByEnding(w: World, name: string, s: Status)
    requires Explains(w, name, s) && name in w.existing && w.open(name) == Works
    ensures s == Ok <==> exists k :: SucceedsAt(w, name, k)
    ensures s == OptimizeFailed <==> exists k :: FailsAt(w, name, k)
  {
    EndingUnique(w, name);
    if k :| SucceedsAt(w, name, k) && s == OptimizeFailed {
      var j :| FailsAt(w, name, j);
      assert EndsAt(w, name, j) && EndsAt(w, name, k);
    }
  }

  // The places where an interrupt can hit a table.
  ghost predicate CutShort(w: World, name: string) {
    && name in w.existing
    && (w.open(name) == Interrupt
        || (w.open(name) == Works && exists k :: StopsAt(w, name, k))
        || (w.open(name) == Works && w.indexingInterrupted(name) && exists k :: SucceedsAt(w, name, k)))
  }

  // A table gets its status exactly when nothing interrupts it.
  method OptimizeTable(w: World, name: string) returns (interrupted: bool, s: Status)
    ensures !interrupted ==> Explains(w, name, s)
    ensures interrupted <==> CutShort(w, name)
  {
    if name !in w.existing {
      return false, Skipped;
    }
    match w.open(name)
    case Interrupt => return true, OpenFailed;
    case Raises => return false, OpenFailed;
    case Works =>
      var r, last, _ := RetryOptimize(w, name);
      EndingUnique(w, name);
      assert EndsAt(w, name, last);
      if r == Cancelled {
        return true, OptimizeFailed;
      }
      assert !(exists k :: StopsAt(w, name, k)) by {
        if k :| StopsAt(w, name, k) {
          assert EndsAt(w, name, k);
        }
      }
      if r == Succeeds {
        // Index creation swallows ordinary errors, not interrupts.
        return w.indexingInterrupted(name), Ok;
      }
      assert !(exists k :: SucceedsAt(w, name, k)) by {
        if k :| SucceedsAt(w, name, k) {
          assert EndsAt(w, name, k);
        }
      }
      return false, OptimizeFailed;
  }

  ghost predicate AllExplained(w: World, results: map<string, Status>) {
    forall n :: n in results ==> Explains(w, n, results[n])
  }

  ghost predicate AllFine(results: map<string, Status>) {
    forall n :: n in results ==> Fine(results[n])
  }

  // A table that goes wrong for good, in opening or in optimizing.
  ghost predicate TableFails(w: World, name: string) {
    name in w.existing && (w.open(name) == Raises || (w.open(name) == Works && exists k :: FailsAt(w, name, k)))
  }

  lemma FineExactly(w: World, name: string, s: Status)
    requires Explains(w, name, s)
    ensures Fine(s) <==> !TableFails(w, name)
  {
    EndingUnique(w, name);
    if s == Ok {
      var k :| SucceedsAt(w, name, k);
      forall j ensures !FailsAt(w, name, j) {
        assert EndsAt(w, name, k);
        if FailsAt(w, name, j) {
          assert EndsAt(w, name, j);
        }
      }
    }
  }

  // How many tables are completed before one is cut short; all, if none is.
  ghost function FirstCut(w: World, names: seq<string>): (k: nat)
    ensures k <= |names| && (forall i :: 0 <= i < k ==> !CutShort(w, names[i]))
    ensures k < |names| ==> CutShort(w, names[k])
  {
    if names == [] || CutShort(w, names[0]) then 0 else 1 + FirstCut(w, names[1..])
  }

  // Exactly the given tables, each with the status that the database explains.
  ghost predicate Completed(w: World, names: seq<string>, results: map<string, Status>) {
    (forall n :: n in results <==> n in names) && AllExplained(w, results)
  }

  ghost predicate SomeFails(w: World, names: seq<string>) {
    exists i :: 0 <= i < |names| && TableFails(w, names[i])
  }

  lemma FailureShows(w: World, names: seq<string>, results: map<string, Status>)
    requires Completed(w, names, results)
    ensures AllFine(results) <==> !SomeFails(w, names)
  {
    forall n | n in results ensures Fine(results[n]) <==> !TableFails(w, n) {
      FineExactly(w, n, results[n]);
    }
    if SomeFails(w, names) {
      var i :| 0 <= i < |names| && TableFails(w, names[i]);
      assert names[i] in results;
    }
  }

  // The loop over the known tables; `failed` is the flag the events are built from.
  method OptimizeAll(w: World, names: seq<string>) returns (interrupted: bool, results: map<string, Status>, failed: bool)
    ensures interrupted <==> FirstCut(w, names) < |names|
    ensures Completed(w, names[..FirstCut(w, names)], results)
    ensures failed <==> SomeFails(w, names[..FirstCut(w, names)])
  {
    results, failed := map[], false;
    for i := 0 to |names|
      invariant forall j :: 0 <= j < i ==> !CutShort(w, names[j])
      invariant Completed(w, names[..i], results)
      invariant failed <==> !AllFine(results)
    {
      var stop, s := OptimizeTable(w, names[i]);
      if stop {
        CutIs(w, names, i);
        FailureShows(w, names[..i], results);
        return true, results, failed;
      }
      Extend(w, names, i, results, s);
      results := results[names[i] := s];
      if !Fine(s) {
        failed := true;
      }
    }
    CutIs(w, names, |names|);
    FailureShows(w, names[..|names|], results);
    return false, results, failed;
  }

  lemma {:induction false} CutIs(w: World, names: seq<string>, k: nat)
    requires k <= |names| && (forall i :: 0 <= i < k ==> !CutShort(w, names[i]))
    requires k < |names| ==> CutShort(w, names[k])
    ensures FirstCut(w, names) == k
  {
    hide CutShort;
    var c := FirstCut(w, names);
    assert c < |names| ==> CutShort(w, names[c]);
  }

  lemma Extend(w: World, names: seq<string>, i: nat, results: map<string, Status>, s: Status)
    requires i < |names| && Completed(w, names[..i], results) && Explains(w, names[i], s)
    ensures Completed(w, names[..i + 1], results[names[i] := s])
    ensures AllFine(results[names[i] := s]) <==> AllFine(results) && Fine(s)
  {
    var more := results[names[i] := s];
    assert names[..i + 1] == names[..i] + [names[i]];
    assert more[names[i]] == s;
    if names[i] in results {
      SameStatus(w, names[i], results[names[i]], s);
      assert more == results;
    } else {
      assert forall n :: n in results ==> more[n] == results[n];
    }
  }

  lemma SameStatus(w: World, name: string, s: Status, t: Status)
    requires Explains(w, name, s) && Explains(w, name, t)
    ensures s == t
  {
    EndingUnique(w, name);
  }

  // ---- The whole run, with its progress events ----

  ghost predicate ListingFailed(w: World) {
    w.connect == Works && w.list == Raises
  }

  // An ordinary error outside the tables ends the run: connecting or closing.
  ghost predicate RunRaises(w: World) {
    w.connect == Raises || (w.connect == Works && w.close == Raises)
  }

  // Cancellation or a keyboard interrupt ends the run.
  ghost predicate RunInterrupted(w: World, names: seq<string>) {
    w.connect == Interrupt ||
    (w.connect == Works && w.close != Raises &&
     (w.close == Interrupt || w.list == Interrupt || (w.list == Works && FirstCut(w, names) < |names|)))
  }

  // A table completed before the run ended went wrong.
  ghost predicate FailedBeforeCut(w: World, names: seq<string>) {
    w.connect == Works && w.list == Works && SomeFails(w, names[..FirstCut(w, names)])
  }

  // What a normal return holds.
  ghost predicate Reported(w: World, names: seq<string>, results: map<string, Status>) {
    if ListingFailed(w) then (forall n :: n in results <==> n in names) && forall n :: n in results ==> results[n] == ListFailed
    else Completed(w, names, results)
  }

  // How the run ends is decided by the database alone.
  ghost predicate EndsAs(w: World, names: seq<string>, outcome: Outcome) {
    && (outcome.Raised? <==> RunRaises(w))
    && (outcome.Interrupted? <==> RunInterrupted(w, names))
    && (outcome.Returned? ==> Reported(w, names, outcome.results))
  }

  method RunConnected(w: World, names: seq<string>) returns (outcome: Outcome, failed: bool)
    ensures EndsAs(w, names, outcome)
    ensures failed <==> ListingFailed(w) || FailedBeforeCut(w, names)
  {
    failed := false;
    if w.connect == Raises { return Raised, false; }
    if w.connect == Interrupt { return Interrupted, false; }
    if w.list == Interrupt {
      outcome := Interrupted;
    } else if w.list == Raises {
      failed := true;
      outcome := Returned(map n | n in names :: ListFailed);
    } else {
      var interrupted, results;
      interrupted, results, failed := OptimizeAll(w, names);
      assert !interrupted ==> names[..FirstCut(w, names)] == names;
      outcome := if interrupted then Interrupted else Returned(results);
    }
    // The connection is closed on every path; an exception there replaces the result.
    if w.close == Raises {
      outcome := Raised;
    } else if w.close == Interrupt {
      outcome := Interrupted;
    }
  }

  // The terminal event as the database decides it.
  ghost function Terminal(w: World, names: seq<string>): Event {
    if RunRaises(w) || ListingFailed(w) || FailedBeforeCut(w, names) then Failed else Done
  }

  // Always one running event, then exactly one terminal event.
  method OptimizeLanceTables(w: World, names: seq<string>, onProgress: bool) returns (outcome: Outcome, events: seq<Event>)
    ensures EndsAs(w, names, outcome)
    ensures events == if onProgress then [Running, Terminal(w, names)] else []
  {
    events := if onProgress then [Running] else [];
    var failed;
    outcome, failed := RunConnected(w, names);
    if outcome.Raised? {
      failed := true;
    }
    if onProgress {
      events := events + [if failed then Failed else Done];
    }
  }

  // Barring an interrupt, `Done` is reported exactly for a return in which every
  // table is ok or skipped.
  lemma DoneExactly(w: World, names: seq<string>, outcome: Outcome)
    requires names != [] && EndsAs(w, names, outcome) && !outcome.Interrupted?
    ensures Terminal(w, names) == Done <==> outcome.Returned? && AllFine(outcome.results)
  {
    if outcome.Returned? {
      if ListingFailed(w) {
        assert names[0] in outcome.results;
      } else {
        assert names[..FirstCut(w, names)] == names;
        FailureShows(w, names, outcome.results);
      }
    }
  }

  // An interrupted run reports `Done` exactly when the listing did not fail and no
  // table completed before the interrupt went wrong, whatever was still to come.
  lemma InterruptedDoneExactly(w: World, names: seq<string>)
    requires RunInterrupted(w, names)
    ensures Terminal(w, names) == Done
       <==> (w.connect == Works ==> w.list != Raises)
            && (w.connect == Works && w.list == Works ==> forall i :: 0 <= i < FirstCut(w, names) ==> !TableFails(w, names[i]))
  {
    hide TableFails, CutShort, FirstCut;
    var front := names[..FirstCut(w, names)];
    assert forall i :: 0 <= i < |front| ==> front[i] == names[i];
  }

  // So a run cancelled in the middle of its first table reports success.
  lemma CancelledRunSaysDone()
    ensures exists w, names: seq<string> :: RunInterrupted(w, names) && Terminal(w, names) == Done && CutsFirst(w, names)
  {
    var t := "java";
    var w := World(Works, Works, Works, {t}, name => Works, (name, k) => Cancelled, (name, k) => false, name => false);
    var names := [t];
    assert StopsAt(w, t, 0);
    assert CutShort(w, names[0]);
    CutIs(w, names, 0);
    assert RunInterrupted(w, names) && CutsFirst(w, names);
    InterruptedDoneExactly(w, names);
  }

  ghost predicate CutsFirst(w: World, names: seq<string>) {
    names != [] && CutShort(w, names[0])
  }
}
