/** The crash-and-resume protocol of the grid driver
    (bench/run_bench.py, `write_cell`, `cell_completed`, `run_grid`).

    A run directory survives crashes; everything else is lost.  A pass over the
    grid is given a budget of elementary steps and dies when it is used up, so
    quantifying over budgets quantifies over every crash point.  The append to
    the aggregate file is atomic; cell results are arbitrary. */
module Resume {

  import opened Common

  // What one execution of a cell yields: the JSON line, and how much of it is
  // on disk when a crash hits the middle of the temporary file's write.
  datatype World = World(line: (string, nat) -> string, cut: (string, nat) -> nat) {
    function Line(rid: string, run: nat): (l: string)
      ensures l != ""
    {
      line(rid, run) + "\n"
    }

    function Partial(rid: string, run: nat): string {
      var l := Line(rid, run);
      l[..if cut(rid, run) <= |l| then cut(rid, run) else |l|]
    }
  }

  // `done` are the per-cell files, `tmp` the files about to replace them, `log`
  // the aggregate file.  `runs` counts executions and `replaced` lists the
  // replace events; both only record history.
  datatype Disk = Disk(done: map<string, string>, tmp: map<string, string>, log: seq<(string, string)>,
                       runs: nat, replaced: seq<string>)
  {
    // The per-cell file exists and is non-empty.
    predicate Completed(rid: string) {
      rid in done && |done[rid]| > 0
    }
  }

  const STEPS := 5

  // The disk after the first `k` steps of executing a cell: run it, write part
  // of the temporary file, the rest of it, replace, append.
  function CellSteps(w: World, d: Disk, rid: string, k: nat): Disk {
    var l := w.Line(rid, d.runs);
    var d1 := d.(runs := d.runs + 1);
    if k == 0 then d
    else if k == 1 then d1
    else if k == 2 then d1.(tmp := d.tmp[rid := w.Partial(rid, d.runs)])
    else if k == 3 then d1.(tmp := d.tmp[rid := l])
    else
      var d4 := d1.(tmp := d.tmp - {rid}, done := d.done[rid := l], replaced := d.replaced + [rid]);
      if k == 4 then d4 else d4.(log := d.log + [(rid, l)])
  }

  datatype Pass = Pass(disk: Disk, crashed: bool, results: seq<string>)

  // One invocation over `rids`.
  function RunPass(w: World, d: Disk, rids: seq<string>, resume: bool, budget: nat): Pass
    decreases |rids|
  {
    if rids == [] then Pass(d, false, [])
    else if resume && d.Completed(rids[0]) then RunPass(w, d, rids[1..], resume, budget)
    else if budget < STEPS then Pass(CellSteps(w, d, rids[0], budget), true, [])
    else
      var rest := RunPass(w, CellSteps(w, d, rids[0], STEPS), rids[1..], resume, budget - STEPS);
      rest.(results := [rids[0]] + rest.results)
  }

  datatype History = History(disk: Disk, crashes: nat, lastCrashed: bool)

  // A first invocation, fresh or resuming, then restarts that all resume.
  function RunAll(w: World, d: Disk, rids: seq<string>, resume: bool, budgets: seq<nat>): History {
    if budgets == [] then History(d, 0, true)
    else
      var last := |budgets| - 1;
      var before := RunAll(w, d, rids, resume, budgets[..last]);
      var p := RunPass(w, before.disk, rids, resume || last > 0, budgets[last]);
      History(p.disk, before.crashes + if p.crashed then 1 else 0, p.crashed)
  }

  const EMPTY := Disk(map[], map[], [], 0, [])

  // ---- The invariant ----

  ghost predicate CompleteFile(w: World, rid: string, content: string) {
    exists run :: content == w.Line(rid, run)
  }

  // A per-cell file is absent or complete, and was put in place exactly once.
  ghost predicate CellFilesSound(w: World, d: Disk) {
    && (forall rid :: rid in d.done ==> CompleteFile(w, rid, d.done[rid]))
    && Distinct(d.replaced)
    && (forall rid :: rid in d.done <==> rid in d.replaced)
  }

  // The aggregate holds completed cells' own lines, each at most once.
  ghost predicate LogSound(d: Disk) {
    && (forall i :: 0 <= i < |d.log| ==> d.log[i].0 in d.done && d.done[d.log[i].0] == d.log[i].1)
    && (forall i, j :: 0 <= i < j < |d.log| ==> d.log[i].0 != d.log[j].0)
  }

  // Every crash loses at most one execution or one aggregate line.
  ghost predicate LossesBounded(d: Disk, crashes: nat) {
    |d.log| <= |d.replaced| <= d.runs <= |d.log| + crashes
  }

  ghost predicate Consistent(w: World, d: Disk, crashes: nat) {
    CellFilesSound(w, d) && LogSound(d) && LossesBounded(d, crashes)
  }

  lemma ReplaceSound(w: World, d: Disk, e: Disk, rid: string, l: string)
    requires CellFilesSound(w, d) && rid !in d.done && CompleteFile(w, rid, l)
    requires e.done == d.done[rid := l] && e.replaced == d.replaced + [rid]
    ensures CellFilesSound(w, e)
  {
    assert forall i :: 0 <= i < |d.replaced| ==> d.replaced[i] in d.done;
    forall r ensures r in e.done <==> r in e.replaced {
      assert r in e.replaced <==> r in d.replaced || r == rid;
    }
  }

  lemma AppendSound(d: Disk, e: Disk, rid: string, l: string)
    requires LogSound(d) && rid !in d.done
    requires e.done == d.done[rid := l] && (e.log == d.log || e.log == d.log + [(rid, l)])
    ensures LogSound(e)
  {
  }

  lemma CellStepsConsistent(w: World, d: Disk, rid: string, k: nat, crashes: nat)
    requires Consistent(w, d, crashes) && rid !in d.done && k <= STEPS
    ensures Consistent(w, CellSteps(w, d, rid, k), crashes + if k < STEPS then 1 else 0)
    ensures CellSteps(w, d, rid, k).done.Keys == d.done.Keys + if k >= 4 then {rid} else {}
    ensures forall r :: r in d.done ==> CellSteps(w, d, rid, k).done[r] == d.done[r]
  {
    hide CellFilesSound, LogSound, CompleteFile;
    var e, l := CellSteps(w, d, rid, k), w.Line(rid, d.runs);
    if k >= 4 {
      LineCompletes(w, rid, d.runs);
      ReplaceSound(w, d, e, rid, l);
      AppendSound(d, e, rid, l);
    } else {
      SameSound(w, d, e);
    }
  }

  lemma LineCompletes(w: World, rid: string, run: nat)
    ensures CompleteFile(w, rid, w.Line(rid, run))
  {
  }

  lemma SameSound(w: World, d: Disk, e: Disk)
    requires CellFilesSound(w, d) && LogSound(d) && e.done == d.done && e.replaced == d.replaced && e.log == d.log
    ensures CellFilesSound(w, e) && LogSound(e)
  {
  }

  lemma CompletedMeansDone(w: World, d: Disk, crashes: nat, rid: string)
    requires Consistent(w, d, crashes)
    ensures d.Completed(rid) <==> rid in d.done
  {
    if rid in d.done {
      var run :| d.done[rid] == w.Line(rid, run);
    }
  }

  ghost predicate Keeps(d: Disk, e: Disk) {
    forall rid :: rid in d.done ==> rid in e.done && e.done[rid] == d.done[rid]
  }

  ghost predicate AllDone(d: Disk, rids: seq<string>) {
    forall i :: 0 <= i < |rids| ==> rids[i] in d.done
  }

  ghost predicate NoneDone(d: Disk, rids: seq<string>) {
    Distinct(rids) && forall i :: 0 <= i < |rids| ==> rids[i] !in d.done
  }

  lemma NoneDoneLater(d: Disk, e: Disk, rids: seq<string>)
    requires rids != [] && NoneDone(d, rids) && e.done.Keys == d.done.Keys + {rids[0]}
    ensures NoneDone(e, rids[1..])
  {
    assert forall i :: 0 <= i < |rids| - 1 ==> rids[1..][i] == rids[i + 1];
  }

  ghost function Crashes(p: Pass): nat {
    if p.crashed then 1 else 0
  }

  // A pass keeps the invariant ...
  lemma {:induction false} PassConsistent(w: World, d: Disk, rids: seq<string>, resume: bool, budget: nat, crashes: nat)
    requires Consistent(w, d, crashes)
    requires resume || NoneDone(d, rids)
    ensures var p := RunPass(w, d, rids, resume, budget); Consistent(w, p.disk, crashes + Crashes(p))
    decreases |rids|
  {
    if rids != [] {
      CompletedMeansDone(w, d, crashes, rids[0]);
      if resume && d.Completed(rids[0]) {
        PassConsistent(w, d, rids[1..], resume, budget, crashes);
      } else if budget < STEPS {
        CellStepsConsistent(w, d, rids[0], budget, crashes);
      } else {
        var e := CellSteps(w, d, rids[0], STEPS);
        CellStepsConsistent(w, d, rids[0], STEPS, crashes);
        if !resume { NoneDoneLater(d, e, rids); }
        PassConsistent(w, e, rids[1..], resume, budget - STEPS, crashes);
      }
    }
  }

  // ... and the cells completed so far ...
  lemma {:induction false} PassKeeps(w: World, d: Disk, rids: seq<string>, resume: bool, budget: nat, crashes: nat)
    requires Consistent(w, d, crashes)
    requires resume || NoneDone(d, rids)
    ensures Keeps(d, RunPass(w, d, rids, resume, budget).disk)
    decreases |rids|
  {
    if rids != [] {
      CompletedMeansDone(w, d, crashes, rids[0]);
      if resume && d.Completed(rids[0]) {
        PassKeeps(w, d, rids[1..], resume, budget, crashes);
      } else {
        var e := CellSteps(w, d, rids[0], if budget < STEPS then budget else STEPS);
        CellStepsConsistent(w, d, rids[0], if budget < STEPS then budget else STEPS, crashes);
        if budget >= STEPS {
          if !resume { NoneDoneLater(d, e, rids); }
          PassKeeps(w, e, rids[1..], resume, budget - STEPS, crashes);
        }
      }
    }
  }

  // ... and, unless it crashes, completes every cell.
  lemma {:induction false} PassCompletes(w: World, d: Disk, rids: seq<string>, resume: bool, budget: nat)
    ensures var p := RunPass(w, d, rids, resume, budget);
            d.done.Keys <= p.disk.done.Keys && (!p.crashed ==> AllDone(p.disk, rids))
    decreases |rids|
  {
    if rids != [] {
      if resume && d.Completed(rids[0]) {
        PassCompletes(w, d, rids[1..], resume, budget);
      } else if budget >= STEPS {
        PassCompletes(w, CellSteps(w, d, rids[0], STEPS), rids[1..], resume, budget - STEPS);
      }
    }
  }

  // A resuming pass that does not crash leaves no per-cell file empty, whatever it
  // found.
  lemma {:induction false} PassFills(w: World, d: Disk, rids: seq<string>, budget: nat, i: nat)
    requires i < |rids| && !RunPass(w, d, rids, true, budget).crashed
    ensures var e := RunPass(w, d, rids, true, budget).disk; rids[i] in e.done && e.done[rids[i]] != ""
    decreases |rids|
  {
    var e := if d.Completed(rids[0]) then d else CellSteps(w, d, rids[0], STEPS);
    var left := if d.Completed(rids[0]) then budget else budget - STEPS;
    if i > 0 {
      PassFills(w, e, rids[1..], left, i - 1);
    } else {
      FilledStays(w, e, rids[1..], left, rids[0]);
    }
  }

  lemma {:induction false} FilledStays(w: World, d: Disk, rids: seq<string>, budget: nat, rid: string)
    requires rid in d.done && d.done[rid] != ""
    ensures var e := RunPass(w, d, rids, true, budget).disk; rid in e.done && e.done[rid] != ""
    decreases |rids|
  {
    if rids != [] {
      if d.Completed(rids[0]) {
        FilledStays(w, d, rids[1..], budget, rid);
      } else if budget >= STEPS {
        FilledStays(w, CellSteps(w, d, rids[0], STEPS), rids[1..], budget - STEPS, rid);
      }
    }
  }

  // What a pass reports as its results are the cells it put in place, except that a
  // crash right before the aggregate line hides the last of them.
  lemma {:induction false} PassResults(w: World, d: Disk, rids: seq<string>, resume: bool, budget: nat)
    ensures var p := RunPass(w, d, rids, resume, budget);
            && d.replaced + p.results <= p.disk.replaced
            && |p.disk.replaced| <= |d.replaced| + |p.results| + Crashes(p)
            && |p.disk.log| == |d.log| + |p.results|
    decreases |rids|
  {
    if rids != [] {
      if resume && d.Completed(rids[0]) {
        PassResults(w, d, rids[1..], resume, budget);
      } else if budget >= STEPS {
        var e := CellSteps(w, d, rids[0], STEPS);
        PassResults(w, e, rids[1..], resume, budget - STEPS);
        var rest := RunPass(w, e, rids[1..], resume, budget - STEPS).results;
        assert d.replaced + ([rids[0]] + rest) == d.replaced + [rids[0]] + rest;
      }
    }
  }

  // Resuming where all is completed runs nothing and changes nothing.
  lemma {:induction false} IdlePass(w: World, d: Disk, rids: seq<string>, budget: nat)
    requires forall i :: 0 <= i < |rids| ==> rids[i] in d.done && d.done[rids[i]] != ""
    ensures RunPass(w, d, rids, true, budget) == Pass(d, false, [])
    decreases |rids|
  {
    if rids != [] {
      assert d.Completed(rids[0]);
      IdlePass(w, d, rids[1..], budget);
    }
  }

  // Temporary files belong to cells of the grid that are not completed.
  ghost predicate TemporariesPending(d: Disk, rids: seq<string>) {
    forall rid :: rid in d.tmp ==> rid in rids && rid !in d.done
  }

  lemma {:induction false} PassTemporaries(w: World, d: Disk, rids: seq<string>, all: seq<string>, resume: bool, budget: nat)
    requires TemporariesPending(d, all) && (resume || NoneDone(d, rids))
    requires forall rid :: rid in d.done ==> d.done[rid] != ""
    requires forall i :: 0 <= i < |rids| ==> rids[i] in all
    ensures TemporariesPending(RunPass(w, d, rids, resume, budget).disk, all)
    decreases |rids|
  {
    if rids != [] {
      var k := if budget < STEPS then budget else STEPS;
      var e := CellSteps(w, d, rids[0], k);
      if resume && d.Completed(rids[0]) {
        PassTemporaries(w, d, rids[1..], all, resume, budget);
      } else {
        assert TemporariesPending(e, all);
        if budget >= STEPS {
          if !resume { NoneDoneLater(d, e, rids); }
          PassTemporaries(w, e, rids[1..], all, resume, budget - STEPS);
        }
      }
    }
  }

  lemma {:induction false} RunsTemporaries(w: World, rids: seq<string>, resume: bool, budgets: seq<nat>)
    requires resume || Distinct(rids)
    ensures TemporariesPending(RunAll(w, EMPTY, rids, resume, budgets).disk, rids)
  {
    if budgets != [] {
      hide Consistent, RunPass;
      var last := |budgets| - 1;
      RunsTemporaries(w, rids, resume, budgets[..last]);
      RunsConsistent(w, rids, resume, budgets[..last]);
      var before := RunAll(w, EMPTY, rids, resume, budgets[..last]);
      forall rid | rid in before.disk.done ensures before.disk.done[rid] != "" {
        CompletedMeansDone(w, before.disk, before.crashes, rid);
      }
      assert last == 0 ==> before.disk == EMPTY;
      PassTemporaries(w, before.disk, rids, rids, resume || last > 0, budgets[last]);
    }
  }

  // No temporary file survives a history that ends without a crash.
  lemma NoTemporariesLeft(w: World, rids: seq<string>, resume: bool, budgets: seq<nat>)
    requires resume || Distinct(rids)
    ensures var h := RunAll(w, EMPTY, rids, resume, budgets); !h.lastCrashed ==> h.disk.tmp == map[]
  {
    hide RunAll, Consistent;
    RunsTemporaries(w, rids, resume, budgets);
    RunsConsistent(w, rids, resume, budgets);
  }

  ghost predicate PassCrashes(w: World, rids: seq<string>, resume: bool, budgets: seq<nat>, i: int) {
    0 <= i < |budgets| && RunAll(w, EMPTY, rids, resume, budgets[..i + 1]).lastCrashed
  }

  lemma OneMoreCrash(w: World, rids: seq<string>, resume: bool, budgets: seq<nat>)
    requires budgets != []
    ensures var h := RunAll(w, EMPTY, rids, resume, budgets);
            h.crashes == RunAll(w, EMPTY, rids, resume, budgets[..|budgets| - 1]).crashes + if h.lastCrashed then 1 else 0
  {
    hide RunPass, EMPTY;
  }

  ghost function CrashedPasses(w: World, rids: seq<string>, resume: bool, budgets: seq<nat>): set<int> {
    set i | 0 <= i < |budgets| && PassCrashes(w, rids, resume, budgets, i)
  }

  lemma CrashedPassesStep(w: World, rids: seq<string>, resume: bool, budgets: seq<nat>)
    requires budgets != []
    ensures var last := |budgets| - 1;
            && last !in CrashedPasses(w, rids, resume, budgets[..last])
            && CrashedPasses(w, rids, resume, budgets)
               == CrashedPasses(w, rids, resume, budgets[..last])
                  + if RunAll(w, EMPTY, rids, resume, budgets).lastCrashed then {last} else {}
  {
    hide RunAll;
    var last := |budgets| - 1;
    assert budgets[..last + 1] == budgets;
    forall i | 0 <= i < last
      ensures PassCrashes(w, rids, resume, budgets[..last], i) <==> PassCrashes(w, rids, resume, budgets, i)
    {
      assert budgets[..last][..i + 1] == budgets[..i + 1];
    }
  }

  // The crashes of a history are those of its passes.
  lemma {:induction false} CrashesCounted(w: World, rids: seq<string>, resume: bool, budgets: seq<nat>)
    ensures RunAll(w, EMPTY, rids, resume, budgets).crashes == |CrashedPasses(w, rids, resume, budgets)|
  {
    if budgets != [] {
      hide RunAll, CrashedPasses;
      CrashesCounted(w, rids, resume, budgets[..|budgets| - 1]);
      CrashedPassesStep(w, rids, resume, budgets);
      OneMoreCrash(w, rids, resume, budgets);
    }
  }

  // ---- Main results ----

  // Over any sequence of crashes and resumes from an empty run directory.
  lemma {:induction false} RunsConsistent(w: World, rids: seq<string>, resume: bool, budgets: seq<nat>)
    requires resume || Distinct(rids)
    ensures var h := RunAll(w, EMPTY, rids, resume, budgets);
            && Consistent(w, h.disk, h.crashes)
            && (!h.lastCrashed ==> AllDone(h.disk, rids))
  {
    if budgets != [] {
      var last := |budgets| - 1;
      RunsConsistent(w, rids, resume, budgets[..last]);
      var before := RunAll(w, EMPTY, rids, resume, budgets[..last]);
      assert last == 0 ==> before.disk == EMPTY;
      PassConsistent(w, before.disk, rids, resume || last > 0, budgets[last], before.crashes);
      PassCompletes(w, before.disk, rids, resume || last > 0, budgets[last]);
    }
  }

  // One more run after at least one keeps all completed cells.
  lemma NextRunKeeps(w: World, rids: seq<string>, resume: bool, budgets: seq<nat>, next: nat)
    requires resume || Distinct(rids)
    requires budgets != []
    ensures Keeps(RunAll(w, EMPTY, rids, resume, budgets).disk, RunAll(w, EMPTY, rids, resume, budgets + [next]).disk)
  {
    var all, before := budgets + [next], RunAll(w, EMPTY, rids, resume, budgets);
    assert all[..|all| - 1] == budgets;
    RunsConsistent(w, rids, resume, budgets);
    PassKeeps(w, before.disk, rids, true, next, before.crashes);
  }

  // A completed cell is never touched again, whatever happens later.
  lemma {:induction false} CompletedCellsStay(w: World, rids: seq<string>, resume: bool, budgets: seq<nat>, later: seq<nat>)
    requires resume || Distinct(rids)
    requires budgets != []
    ensures Keeps(RunAll(w, EMPTY, rids, resume, budgets).disk, RunAll(w, EMPTY, rids, resume, budgets + later).disk)
  {
    if later == [] {
      assert budgets + later == budgets;
    } else {
      var front, next := later[..|later| - 1], later[|later| - 1];
      CompletedCellsStay(w, rids, resume, budgets, front);
      NextRunKeeps(w, rids, resume, budgets + front, next);
      assert budgets + later == budgets + front + [next];
    }
  }

  // Five steps for every cell and the pass cannot crash.
  lemma {:induction false} AmpleBudget(w: World, d: Disk, rids: seq<string>, resume: bool, budget: nat)
    requires budget >= 5 * |rids|
    ensures !RunPass(w, d, rids, resume, budget).crashed
    decreases |rids|
  {
    if rids != [] {
      if resume && d.Completed(rids[0]) {
        AmpleBudget(w, d, rids[1..], resume, budget);
      } else {
        AmpleBudget(w, CellSteps(w, d, rids[0], STEPS), rids[1..], resume, budget - STEPS);
      }
    }
  }

  lemma {:induction false} FreshPassReplacesAll(w: World, d: Disk, rids: seq<string>, budget: nat)
    requires budget >= STEPS * |rids|
    ensures RunPass(w, d, rids, false, budget).disk.replaced == d.replaced + rids
    decreases |rids|
  {
    if rids == [] {
      assert d.replaced + rids == d.replaced;
    } else {
      FreshPassReplacesAll(w, CellSteps(w, d, rids[0], STEPS), rids[1..], budget - STEPS);
      assert d.replaced + rids == (d.replaced + [rids[0]]) + rids[1..];
    }
  }

  // Distinct ids are exactly what a first, non-resuming pass needs for each
  // cell to be completed at most once.
  lemma FreshPassNeedsDistinctIds(w: World, rids: seq<string>, budget: nat)
    requires budget >= STEPS * |rids|
    ensures Distinct(RunPass(w, EMPTY, rids, false, budget).disk.replaced) <==> Distinct(rids)
  {
    FreshPassReplacesAll(w, EMPTY, rids, budget);
    assert EMPTY.replaced + rids == rids;
  }

  // ---- The program ----

  // What the pass does with its next cell, with `results` collected so far.
  lemma NextCell(w: World, d: Disk, rids: seq<string>, i: nat, resume: bool, left: nat, results: seq<string>)
    requires i < |rids|
    ensures var p := RunPass(w, d, rids[i..], resume, left);
            p.(results := results + p.results) ==
            if resume && d.Completed(rids[i]) then
              var q := RunPass(w, d, rids[i + 1..], resume, left); q.(results := results + q.results)
            else if left < STEPS then Pass(CellSteps(w, d, rids[i], left), true, results)
            else
              var q := RunPass(w, CellSteps(w, d, rids[i], STEPS), rids[i + 1..], resume, left - STEPS);
              q.(results := results + [rids[i]] + q.results)
  {
    hide CellSteps;
    assert rids[i..][0] == rids[i] && rids[i..][1..] == rids[i + 1..];
    assert results + [] == results;
    if left >= STEPS {
      var q := RunPass(w, CellSteps(w, d, rids[i], STEPS), rids[i + 1..], resume, left - STEPS);
      assert results + ([rids[i]] + q.results) == results + [rids[i]] + q.results;
    }
  }

  lemma PassEnds(w: World, d: Disk, rids: seq<string>, resume: bool, left: nat)
    ensures RunPass(w, d, rids[|rids|..], resume, left) == Pass(d, false, [])
  {
  }

  class RunDir {
    var done: map<string, string>
    var tmp: map<string, string>
    var log: seq<(string, string)>
    var runs: nat
    var replaced: seq<string>

    function Contents(): Disk
      reads this
    {
      Disk(done, tmp, log, runs, replaced)
    }

    constructor ()
      ensures Contents() == EMPTY
    {
      done, tmp, log, runs, replaced := map[], map[], [], 0, [];
    }

    // `steps` counts down to the crash; the first step runs the cell itself.
    method ExecuteCell(w: World, rid: string, budget: nat) returns (crashed: bool)
      modifies this
      ensures Contents() == CellSteps(w, old(Contents()), rid, budget)
      ensures crashed <==> budget < 5
    {
      if budget == 0 {
        return true;
      }
      var run := runs;
      var line := w.Line(rid, run);
      runs := runs + 1;
      crashed := WriteCell(rid, line, w.Partial(rid, run), budget - 1);
    }

    method WriteCell(rid: string, line: string, cut: string, budget: nat) returns (crashed: bool)
      modifies this
      ensures runs == old(runs)
      ensures tmp == if budget == 0 then old(tmp) else if budget == 1 then old(tmp)[rid := cut]
                     else if budget == 2 then old(tmp)[rid := line] else old(tmp) - {rid}
      ensures done == if budget >= 3 then old(done)[rid := line] else old(done)
      ensures replaced == if budget >= 3 then old(replaced) + [rid] else old(replaced)
      ensures log == if budget >= 4 then old(log) + [(rid, line)] else old(log)
      ensures crashed <==> budget < 4
    {
      if budget == 0 { return true; }
      tmp := tmp[rid := cut];
      if budget == 1 { return true; }
      tmp := tmp[rid := line];
      if budget == 2 { return true; }
      done, replaced := done[rid := tmp[rid]], replaced + [rid];
      tmp := tmp - {rid};
      if budget == 3 { return true; }
      log := log + [(rid, line)];
      return false;
    }

    method RunGrid(w: World, rids: seq<string>, resume: bool, budget: nat) returns (crashed: bool, results: seq<string>)
      modifies this
      ensures Pass(Contents(), crashed, results) == RunPass(w, old(Contents()), rids, resume, budget)
    {
      hide RunPass;
      results := [];
      var left: nat := budget;
      ghost var whole := RunPass(w, Contents(), rids, resume, budget);
      for i := 0 to |rids|
        invariant var p := RunPass(w, Contents(), rids[i..], resume, left);
                  whole == p.(results := results + p.results)
      {
        var rid := rids[i];
        NextCell(w, Contents(), rids, i, resume, left, results);
        if resume && Contents().Completed(rid) {
          continue;
        }
        var died := ExecuteCell(w, rid, left);
        if died {
          return true, results;
        }
        left := left - STEPS;
        results := results + [rid];
      }
      PassEnds(w, Contents(), rids, resume, left);
      assert results + [] == results;
      return false, results;
    }
  }
}
