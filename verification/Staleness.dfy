/** The bounded staleness walk (src/java_codebase_rag/prime.py, `_staleness_since`)
    and the freshness it decides (src/java_codebase_rag/jrag.py, `_prime_state`).

    Times are exact reals; `mtime` is absent when the file is gone by the time it
    is examined. */
module Staleness {

  import opened Common

  datatype File = File(name: string, mtime: Option<real>)
  datatype Tree = Dir(files: seq<File>, entries: seq<Entry>)
  datatype Entry = Entry(name: string, dir: Tree)

  const SKIP_DIRS: set<string> := {".git", "target", "build", "node_modules", ".java-codebase-rag"}

  // ---- os.path.splitext ----

  // Position of the last dot of `name` before `n`, or `n` if there is none.
  function LastDot(name: string, n: nat): (k: nat)
    requires n <= |name|
    ensures k <= n
    ensures k < n ==> name[k] == '.' && forall i :: k < i < n ==> name[i] != '.'
    ensures k == n ==> forall i :: 0 <= i < n ==> name[i] != '.'
  {
    if n == 0 then 0
    else if name[n - 1] == '.' then n - 1
    else
      var k := LastDot(name, n - 1);
      if k == n - 1 then n else k
  }

  predicate HasStem(stem: string) {
    exists i :: 0 <= i < |stem| && stem[i] != '.'
  }

  // Leading dots do not start an extension.
  function Extension(name: string): string {
    var k := LastDot(name, |name|);
    if k < |name| && HasStem(name[..k]) then name[k..] else ""
  }

  predicate IsSource(name: string) {
    Extension(name) == ".java" || Extension(name) == ".kt"
  }

  lemma LastDotOf(stem: string, ext: string)
    requires ext != "" && ext[0] == '.' && forall i :: 1 <= i < |ext| ==> ext[i] != '.'
    ensures LastDot(stem + ext, |stem + ext|) == |stem|
  {
    var name := stem + ext;
    assert name[|stem|] == '.';
    assert forall i :: |stem| < i < |name| ==> name[i] == ext[i - |stem|];
  }

  // A source name ends in one of two extensions, and something other than dots
  // stands before it.
  lemma SourceNames(name: string)
    ensures IsSource(name) <==>
            exists stem, i :: 0 <= i < |stem| && stem[i] != '.' && (name == stem + ".java" || name == stem + ".kt")
  {
    if IsSource(name) {
      var k := LastDot(name, |name|);
      assert name == name[..k] + Extension(name);
    }
    if stem :| HasStem(stem) && (name == stem + ".java" || name == stem + ".kt") {
      var ext := if name == stem + ".java" then ".java" else ".kt";
      LastDotOf(stem, ext);
      assert name[..|stem|] == stem && name[|stem|..] == ext;
    }
  }

  // ---- What the walk sees ----

  function SourcesOf(files: seq<File>): seq<File> {
    if files == [] then []
    else SourcesOf(files[..|files| - 1]) + if IsSource(files[|files| - 1].name) then [files[|files| - 1]] else []
  }

  // Source files in the order of a top-down walk that prunes SKIP_DIRS.
  ghost function Sources(t: Tree): seq<File>
    decreases t, 0
  {
    SourcesOf(t.files) + SourcesBelow(t.entries)
  }

  ghost function SourcesBelow(es: seq<Entry>): seq<File>
    decreases es, 1
  {
    if es == [] then []
    else (if es[0].name in SKIP_DIRS then [] else Sources(es[0].dir)) + SourcesBelow(es[1..])
  }

  ghost predicate Reachable(t: Tree, f: File)
    decreases t
  {
    || (f in t.files && IsSource(f.name))
    || exists e :: e in t.entries && e.name !in SKIP_DIRS && Reachable(e.dir, f)
  }

  lemma {:induction false} SourcesOfAll(files: seq<File>, f: File)
    ensures f in SourcesOf(files) <==> f in files && IsSource(f.name)
  {
    if files != [] {
      var front := files[..|files| - 1];
      SourcesOfAll(front, f);
      assert files == front + [files[|files| - 1]];
    }
  }

  lemma {:induction false} SourcesAreReachable(t: Tree, f: File)
    ensures f in Sources(t) <==> Reachable(t, f)
    decreases t, 0
  {
    SourcesOfAll(t.files, f);
    SourcesBelowAreReachable(t.entries, f);
  }

  lemma {:induction false} SourcesBelowAreReachable(es: seq<Entry>, f: File)
    ensures f in SourcesBelow(es) <==> exists e :: e in es && e.name !in SKIP_DIRS && Reachable(e.dir, f)
    decreases es, 1
  {
    if es != [] {
      SourcesAreReachable(es[0].dir, f);
      SourcesBelowAreReachable(es[1..], f);
      assert forall e :: e in es <==> e == es[0] || e in es[1..];
    }
  }

  // ---- The verdict ----

  predicate Newer(f: File, builtAt: real) {
    f.mtime.Some? && f.mtime.value > builtAt
  }

  ghost function CountNewer(fs: seq<File>, builtAt: real): (n: nat)
    ensures n <= |fs|
  {
    if fs == [] then 0 else CountNewer(fs[..|fs| - 1], builtAt) + if Newer(fs[|fs| - 1], builtAt) then 1 else 0
  }

  function Max0(i: int): nat {
    if i < 0 then 0 else i
  }

  function Min(a: int, b: int): int {
    if a < b then a else b
  }

  // What a walk meeting `fs` in this order must report: unknown when the cap is
  // exceeded and nothing among the first files was newer, otherwise the number
  // of newer files, saturated at the cap.
  ghost function Verdict(fs: seq<File>, builtAt: real, cap: int): Option<int> {
    if |fs| > Max0(cap) && CountNewer(fs[..Max0(cap)], builtAt) == 0 then None
    else Some(Min(Max0(cap), CountNewer(fs, builtAt)))
  }

  lemma RemoveOne(gs: seq<File>, f: File, builtAt: real) returns (others: seq<File>)
    requires f in multiset(gs)
    ensures multiset(gs) == multiset(others) + multiset{f}
    ensures CountNewer(gs, builtAt) == CountNewer(others, builtAt) + if Newer(f, builtAt) then 1 else 0
  {
    var i :| 0 <= i < |gs| && gs[i] == f;
    var a, b := gs[..i], gs[i + 1..];
    others := a + b;
    assert gs == (a + [f]) + b;
    CountConcat(a, b, builtAt);
    CountConcat(a + [f], b, builtAt);
    assert (a + [f])[..i] == a;
  }

  lemma {:induction false} CountIsMultiset(fs: seq<File>, gs: seq<File>, builtAt: real)
    requires multiset(fs) == multiset(gs)
    ensures CountNewer(fs, builtAt) == CountNewer(gs, builtAt)
    decreases |fs|
  {
    if fs == [] {
      assert |multiset(gs)| == |gs|;
    } else {
      var front, f := fs[..|fs| - 1], fs[|fs| - 1];
      assert fs == front + [f];
      var others := RemoveOne(gs, f, builtAt);
      assert multiset(fs) == multiset(front) + multiset{f};
      assert multiset(front) == multiset(fs) - multiset{f};
      assert multiset(others) == multiset(gs) - multiset{f};
      CountIsMultiset(front, others, builtAt);
    }
  }

  lemma {:induction false} CountConcat(a: seq<File>, b: seq<File>, builtAt: real)
    ensures CountNewer(a + b, builtAt) == CountNewer(a, builtAt) + CountNewer(b, builtAt)
  {
    if b == [] {
      assert a + b == a;
    } else {
      CountConcat(a, b[..|b| - 1], builtAt);
      assert (a + b)[..|a + b| - 1] == a + b[..|b| - 1];
    }
  }

  // Known verdicts do not depend on the order of the walk.
  lemma VerdictOrderFree(fs: seq<File>, gs: seq<File>, builtAt: real, cap: int)
    requires multiset(fs) == multiset(gs)
    requires Verdict(fs, builtAt, cap).Some? && Verdict(gs, builtAt, cap).Some?
    ensures Verdict(fs, builtAt, cap) == Verdict(gs, builtAt, cap)
  {
    CountIsMultiset(fs, gs, builtAt);
  }

  lemma {:induction false} CountZero(fs: seq<File>, builtAt: real)
    ensures CountNewer(fs, builtAt) == 0 <==> forall f :: f in fs ==> !Newer(f, builtAt)
  {
    if fs != [] {
      var front := fs[..|fs| - 1];
      CountZero(front, builtAt);
      assert fs == front + [fs[|fs| - 1]];
    }
  }

  ghost predicate ChangedAt(fs: seq<File>, builtAt: real, i: int) {
    0 <= i < |fs| && fs[i].mtime.Some? && fs[i].mtime.value > builtAt
  }

  lemma {:induction false} CountIsCardinality(fs: seq<File>, builtAt: real)
    ensures CountNewer(fs, builtAt) == |set i | 0 <= i < |fs| && ChangedAt(fs, builtAt, i)|
  {
    if fs != [] {
      var n := |fs| - 1;
      CountIsCardinality(fs[..n], builtAt);
      var before, all := (set i | 0 <= i < n && ChangedAt(fs[..n], builtAt, i)), (set i | 0 <= i < |fs| && ChangedAt(fs, builtAt, i));
      assert all == before + if ChangedAt(fs, builtAt, n) then {n} else {};
    }
  }

  // Within the cap the walk reports how many source files are newer, beyond it at
  // most the cap; unknown is reported exactly when files are left over and none
  // among the first `cap` is newer.
  lemma VerdictExactly(fs: seq<File>, builtAt: real, cap: nat)
    ensures |fs| <= cap ==> Verdict(fs, builtAt, cap) == Some(|set i | 0 <= i < |fs| && ChangedAt(fs, builtAt, i)|)
    ensures Verdict(fs, builtAt, cap).None? <==> |fs| > cap && forall i :: 0 <= i < cap ==> !ChangedAt(fs, builtAt, i)
    ensures var n := |set i | 0 <= i < |fs| && ChangedAt(fs, builtAt, i)|;
            Verdict(fs, builtAt, cap).Some? && |fs| > cap ==> Verdict(fs, builtAt, cap).value == if n < cap then n else cap
  {
    CountIsCardinality(fs, builtAt);
    if |fs| > cap {
      CountZero(fs[..cap], builtAt);
      assert forall i :: 0 <= i < cap ==> fs[..cap][i] == fs[i] && fs[i] in fs[..cap];
      assert forall i :: 0 <= i < cap ==> (ChangedAt(fs, builtAt, i) <==> Newer(fs[..cap][i], builtAt));
    }
  }

  // "fresh" is reported exactly when the walk stayed within the cap and no
  // reachable source file that could be examined is newer than the index.
  lemma FreshExactly(t: Tree, builtAt: real, cap: int)
    ensures Freshness(Verdict(Sources(t), builtAt, cap)) == "fresh" <==>
            && |Sources(t)| <= (if cap < 0 then 0 else cap)
            && forall f :: Reachable(t, f) && f.mtime.Some? ==> f.mtime.value <= builtAt
    ensures Freshness(Verdict(Sources(t), builtAt, cap)) != "fresh" ==> Freshness(Verdict(Sources(t), builtAt, cap)) == "stale"
  {
    hide Sources, Reachable, Verdict;
    FreshVerdict(Sources(t), builtAt, cap);
    forall f ensures f in Sources(t) <==> Reachable(t, f) {
      SourcesAreReachable(t, f);
    }
  }

  lemma FreshVerdict(fs: seq<File>, builtAt: real, cap: int)
    ensures Freshness(Verdict(fs, builtAt, cap)) == "fresh" <==>
            |fs| <= Max0(cap) && forall f :: f in fs ==> !Newer(f, builtAt)
  {
    CountZero(fs, builtAt);
    if |fs| > Max0(cap) {
      var n := Max0(cap);
      CountConcat(fs[..n], fs[n..], builtAt);
      assert fs == fs[..n] + fs[n..];
      assert n == 0 ==> fs[..n] == [];
    }
  }

  function Freshness(changed: Option<int>): string {
    if changed.None? || changed.value > 0 then "stale" else "fresh"
  }

  // ---- The program ----

  function TreeSize(t: Tree): (n: nat)
    ensures n > 0
    decreases t, 0
  {
    1 + EntriesSize(t.entries)
  }

  function EntriesSize(es: seq<Entry>): nat
    decreases es, 1
  {
    if es == [] then 0 else TreeSize(es[0].dir) + EntriesSize(es[1..])
  }

  function Pruned(es: seq<Entry>): seq<Tree> {
    if es == [] then []
    else (if es[0].name in SKIP_DIRS then [] else [es[0].dir]) + Pruned(es[1..])
  }

  ghost function SourcesPending(ts: seq<Tree>): seq<File> {
    if ts == [] then [] else Sources(ts[0]) + SourcesPending(ts[1..])
  }

  ghost function PendingSize(ts: seq<Tree>): nat {
    if ts == [] then 0 else TreeSize(ts[0]) + PendingSize(ts[1..])
  }

  lemma {:induction false} PendingConcat(ts: seq<Tree>, us: seq<Tree>)
    ensures SourcesPending(ts + us) == SourcesPending(ts) + SourcesPending(us)
    ensures PendingSize(ts + us) == PendingSize(ts) + PendingSize(us)
  {
    hide Sources, TreeSize;
    if ts == [] {
      assert ts + us == us;
    } else {
      PendingConcat(ts[1..], us);
      assert (ts + us)[1..] == ts[1..] + us;
    }
  }

  lemma {:induction false} PrunedPending(es: seq<Entry>)
    ensures SourcesPending(Pruned(es)) == SourcesBelow(es) && PendingSize(Pruned(es)) <= EntriesSize(es)
    decreases |es|
  {
    if es != [] {
      PrunedPending(es[1..]);
      var first := if es[0].name in SKIP_DIRS then [] else [es[0].dir];
      PendingConcat(first, Pruned(es[1..]));
      assert first != [] ==> first[1..] == [];
    }
  }

  // The counters after meeting `seen` without leaving the walk early.
  ghost predicate Counting(seen: seq<File>, builtAt: real, cap: int, visited: int, changed: int) {
    && visited == |seen| && changed == CountNewer(seen, builtAt)
    && (changed > 0 ==> changed < cap)
    && (changed == 0 ==> visited <= Max0(cap))
  }

  lemma {:induction false} CountGrows(a: seq<File>, b: seq<File>, builtAt: real)
    requires a <= b
    ensures CountNewer(a, builtAt) <= CountNewer(b, builtAt)
  {
    assert b == a + b[|a|..];
    CountConcat(a, b[|a|..], builtAt);
  }

  // The walk gives up: one file too many and none newer.
  lemma GivesUp(all: seq<File>, seen: seq<File>, f: File, builtAt: real, cap: int)
    requires seen + [f] <= all && CountNewer(seen, builtAt) == 0 && |seen| == Max0(cap)
    ensures Verdict(all, builtAt, cap) == None
  {
    assert all[..Max0(cap)] == (seen + [f])[..|seen|] == seen;
  }

  // The walk saturates: the cap is reached.
  lemma Saturates(all: seq<File>, seen: seq<File>, builtAt: real, cap: int)
    requires seen <= all && CountNewer(seen, builtAt) == cap && 0 < cap
    requires |seen| <= cap || CountNewer(seen[..|seen| - 1], builtAt) > 0
    requires forall n :: cap <= n < |seen| ==> CountNewer(seen[..n], builtAt) > 0
    ensures Verdict(all, builtAt, cap) == Some(cap)
  {
    CountGrows(seen, all, builtAt);
    if |all| > cap {
      if |seen| <= cap {
        assert seen <= all[..cap];
        CountGrows(seen, all[..cap], builtAt);
      } else {
        assert all[..cap] == seen[..cap];
      }
    }
  }

  lemma Completes(all: seq<File>, builtAt: real, cap: int, visited: int, changed: int)
    requires Counting(all, builtAt, cap, visited, changed) && PastCap(all, builtAt, cap)
    ensures Verdict(all, builtAt, cap) == Some(changed)
  {
  }

  // Once past the cap the walk has met something newer.
  ghost predicate PastCap(seen: seq<File>, builtAt: real, cap: int) {
    forall n :: Max0(cap) <= n < |seen| ==> CountNewer(seen[..n], builtAt) > 0
  }

  lemma Starts(builtAt: real, cap: int)
    ensures Counting([], builtAt, cap, 0, 0) && PastCap([], builtAt, cap)
  {
  }

  lemma NextFile(seen: seq<File>, f: File, builtAt: real, cap: int)
    requires PastCap(seen, builtAt, cap)
    requires |seen| < Max0(cap) || CountNewer(seen, builtAt) > 0
    ensures PastCap(seen + [f], builtAt, cap)
    ensures CountNewer(seen + [f], builtAt) == CountNewer(seen, builtAt) + if Newer(f, builtAt) then 1 else 0
  {
    var more := seen + [f];
    assert more[..|seen|] == seen;
    forall n | Max0(cap) <= n < |more| ensures CountNewer(more[..n], builtAt) > 0 {
      assert more[..n] == seen[..n];
    }
  }

  method StalenessSince(builtAt: real, root: Tree, cap: int) returns (r: Option<int>)
    ensures r == Verdict(Sources(root), builtAt, cap)
  {
    hide Sources, Verdict, CountNewer, PastCap, SourcesOf, TreeSize, EntriesSize;
    Starts(builtAt, cap);
    ghost var all, seen := Sources(root), [];
    var changed, visited := 0, 0;
    var pending := [root];
    PendingOne(root);
    while pending != []
      invariant all == seen + SourcesPending(pending)
      invariant Counting(seen, builtAt, cap, visited, changed) && PastCap(seen, builtAt, cap)
      decreases PendingSize(pending)
    {
      var dir, rest := pending[0], pending[1..];
      var dirnames := Pruned(dir.entries);
      ghost var before, later := seen, SourcesBelow(dir.entries) + SourcesPending(rest);
      PrunedPending(dir.entries);
      PendingConcat(dirnames, rest);
      PendingHead(pending);
      assert all == before + SourcesOf(dir.files) + later;
      SourcesNone(dir.files);
      for i := 0 to |dir.files|
        invariant seen == before + SourcesOf(dir.files[..i])
        invariant Counting(seen, builtAt, cap, visited, changed) && PastCap(seen, builtAt, cap)
      {
        var f := dir.files[i];
        SourcesStep(dir.files, i);
        if !IsSource(f.name) {
          continue;
        }
        ghost var more := seen + [f];
        assert more <= all by {
          SourcesPrefix(dir.files, i + 1);
          assert more == before + SourcesOf(dir.files[..i + 1]);
        }
        visited := visited + 1;
        if visited > cap && changed == 0 {
          GivesUp(all, seen, f, builtAt, cap);
          return None;
        }
        NextFile(seen, f, builtAt, cap);
        seen := more;
        if f.mtime.None? {
          continue;
        }
        if f.mtime.value > builtAt {
          changed := changed + 1;
          if changed >= cap {
            Saturates(all, seen, builtAt, cap);
            return Some(cap);
          }
        }
      }
      assert dir.files[..|dir.files|] == dir.files;
      pending := dirnames + rest;
    }
    assert all == seen;
    Completes(all, builtAt, cap, visited, changed);
    return Some(changed);
  }

  lemma PendingOne(t: Tree)
    ensures SourcesPending([t]) == Sources(t)
  {
    assert [t][1..] == [];
  }

  lemma PendingHead(ts: seq<Tree>)
    requires ts != []
    ensures SourcesPending(ts) == SourcesOf(ts[0].files) + (SourcesBelow(ts[0].entries) + SourcesPending(ts[1..]))
    ensures PendingSize(ts) > EntriesSize(ts[0].entries) + PendingSize(ts[1..])
  {
  }

  lemma SourcesNone(files: seq<File>)
    ensures SourcesOf(files[..0]) == []
  {
  }

  lemma SourcesStep(files: seq<File>, i: nat)
    requires i < |files|
    ensures SourcesOf(files[..i + 1]) == SourcesOf(files[..i]) + if IsSource(files[i].name) then [files[i]] else []
  {
    assert files[..i + 1][..i] == files[..i];
  }

  lemma {:induction false} SourcesPrefix(files: seq<File>, i: nat)
    requires i <= |files|
    ensures SourcesOf(files[..i]) <= SourcesOf(files)
    decreases |files| - i
  {
    if i < |files| {
      SourcesPrefix(files, i + 1);
      SourcesStep(files, i);
    } else {
      assert files[..i] == files;
    }
  }
}
