/** Build-layout detection (src/java_codebase_rag/installer.py, `detect_java_layout`).

    A directory tree is a value; the pruning rule is an arbitrary predicate on
    the path of the parent and the child's name.  Symbolic links are not part of
    this model. */
module JavaLayout {

  // `marker`: the directory holds one of the build files.
  datatype Tree = Dir(marker: bool, entries: seq<Entry>)
  datatype Entry = Entry(name: string, dir: Tree)

  type Path = seq<string>
  type Keep = (Path, string) -> bool

  datatype Layout = SingleModule | SiblingModules(roots: seq<string>) | MultiSystem(systemDirs: seq<string>) | NoJava

  ghost predicate WellNamed(t: Tree) {
    && (forall i, j :: 0 <= i < j < |t.entries| ==> t.entries[i].name != t.entries[j].name)
    && forall e :: e in t.entries ==> WellNamed(e.dir)
  }

  // ---- Which directories the walk may visit ----

  // `rel` leads from `t`, which lies at `at`, to a marker directory without
  // passing a pruned name.
  ghost predicate MarkerAt(t: Tree, at: Path, rel: Path, keep: Keep)
    decreases |rel|
  {
    if rel == [] then t.marker
    else exists i :: 0 <= i < |t.entries| && t.entries[i].name == rel[0] && keep(at, rel[0])
                     && MarkerAt(t.entries[i].dir, at + [rel[0]], rel[1..], keep)
  }

  // A marker directory with no marker directory above it.
  ghost predicate TopMarker(t: Tree, at: Path, rel: Path, keep: Keep) {
    MarkerAt(t, at, rel, keep) && forall k :: 0 <= k < |rel| ==> !MarkerAt(t, at, rel[..k], keep)
  }

  // ---- The walk ----

  // Recorded paths of the top-down walk of `t`: a marker directory is a leaf.
  function Walk(t: Tree, at: Path, keep: Keep): seq<Path>
    decreases t, 0
  {
    if t.marker then [at] else WalkAll(t.entries, at, keep)
  }

  function WalkAll(es: seq<Entry>, at: Path, keep: Keep): seq<Path>
    decreases es, 1
  {
    if es == [] then []
    else
      (if keep(at, es[0].name) then Walk(es[0].dir, at + [es[0].name], keep) else [])
      + WalkAll(es[1..], at, keep)
  }

  lemma {:induction false} WalkExtends(t: Tree, at: Path, keep: Keep)
    ensures forall p :: p in Walk(t, at, keep) ==> at <= p
    decreases t, 0
  {
    if !t.marker {
      WalkAllExtends(t.entries, at, keep);
    }
  }

  lemma {:induction false} WalkAllExtends(es: seq<Entry>, at: Path, keep: Keep)
    ensures forall p :: p in WalkAll(es, at, keep) ==> |p| > |at| && at <= p && exists i :: 0 <= i < |es| && es[i].name == p[|at|]
    decreases es, 1
  {
    if es != [] {
      var name := es[0].name;
      WalkExtends(es[0].dir, at + [name], keep);
      WalkAllExtends(es[1..], at, keep);
      forall p | p in WalkAll(es, at, keep)
        ensures |p| > |at| && at <= p && exists i :: 0 <= i < |es| && es[i].name == p[|at|]
      {
        if p in WalkAll(es[1..], at, keep) {
          var i :| 0 <= i < |es| - 1 && es[1..][i].name == p[|at|];
          assert es[i + 1].name == p[|at|];
        } else {
          var below := at + [name];
          assert keep(at, name) && p in Walk(es[0].dir, below, keep) && below <= p;
          assert p[|at|] == below[|at|] == es[0].name;
        }
      }
    }
  }

  // Where a path continues below `t`: in the entry its next name selects.
  ghost predicate InEntry(es: seq<Entry>, at: Path, rel: Path, keep: Keep, i: int) {
    0 <= i < |es| && rel != [] && es[i].name == rel[0] && keep(at, rel[0])
  }

  ghost predicate DistinctNames(es: seq<Entry>) {
    forall i, j :: 0 <= i < j < |es| ==> es[i].name != es[j].name
  }

  lemma {:induction false} WalkAllIn(es: seq<Entry>, at: Path, rel: Path, keep: Keep)
    requires DistinctNames(es) && rel != []
    ensures at + rel in WalkAll(es, at, keep) <==>
            exists i :: InEntry(es, at, rel, keep, i) && at + rel in Walk(es[i].dir, at + [rel[0]], keep)
    decreases |es|
  {
    if es != [] {
      var p, name, rest := at + rel, es[0].name, es[1..];
      assert forall i, j :: 0 <= i < j < |rest| ==> rest[i] == es[i + 1] && rest[j] == es[j + 1];
      WalkAllIn(rest, at, rel, keep);
      WalkExtends(es[0].dir, at + [name], keep);
      if keep(at, name) && p in Walk(es[0].dir, at + [name], keep) {
        assert p[|at|] == (at + [name])[|at|];
        assert InEntry(es, at, rel, keep, 0);
      }
      if p in WalkAll(rest, at, keep) {
        var i :| InEntry(rest, at, rel, keep, i) && p in Walk(rest[i].dir, at + [rel[0]], keep);
        assert InEntry(es, at, rel, keep, i + 1);
      }
      if exists i :: InEntry(es, at, rel, keep, i) && p in Walk(es[i].dir, at + [rel[0]], keep) {
        var i :| InEntry(es, at, rel, keep, i) && p in Walk(es[i].dir, at + [rel[0]], keep);
        if i > 0 {
          assert InEntry(rest, at, rel, keep, i - 1);
        }
      }
    }
  }

  lemma MarkerBelow(t: Tree, at: Path, rel: Path, keep: Keep, i: int)
    requires WellNamed(t) && InEntry(t.entries, at, rel, keep, i)
    ensures MarkerAt(t, at, rel, keep) <==> MarkerAt(t.entries[i].dir, at + [rel[0]], rel[1..], keep)
  {
    if MarkerAt(t, at, rel, keep) {
      var j :| 0 <= j < |t.entries| && t.entries[j].name == rel[0] && keep(at, rel[0])
               && MarkerAt(t.entries[j].dir, at + [rel[0]], rel[1..], keep);
      assert i == j;
    }
  }

  lemma TopMarkerBelow(t: Tree, at: Path, rel: Path, keep: Keep, i: int)
    requires WellNamed(t) && !t.marker && InEntry(t.entries, at, rel, keep, i)
    ensures TopMarker(t, at, rel, keep) <==> TopMarker(t.entries[i].dir, at + [rel[0]], rel[1..], keep)
  {
    var d, below, rest := t.entries[i].dir, at + [rel[0]], rel[1..];
    MarkerBelow(t, at, rel, keep, i);
    forall k | 0 <= k < |rest|
      ensures MarkerAt(d, below, rest[..k], keep) <==> MarkerAt(t, at, rel[..k + 1], keep)
    {
      assert rel[..k + 1][1..] == rest[..k] && rel[..k + 1][0] == rel[0];
      MarkerBelow(t, at, rel[..k + 1], keep, i);
    }
    if TopMarker(d, below, rest, keep) {
      forall k | 0 <= k < |rel| ensures !MarkerAt(t, at, rel[..k], keep) {
        if k > 0 {
          assert MarkerAt(d, below, rest[..k - 1], keep) <==> MarkerAt(t, at, rel[..k], keep);
        }
      }
    }
  }

  // The walk records exactly the topmost marker directories.
  lemma {:induction false} WalkFindsTopMarkers(t: Tree, at: Path, rel: Path, keep: Keep)
    requires WellNamed(t)
    ensures at + rel in Walk(t, at, keep) <==> TopMarker(t, at, rel, keep)
    decreases |rel|
  {
    if t.marker {
      assert rel != [] ==> MarkerAt(t, at, rel[..0], keep);
      assert at + rel == at <==> rel == [];
    } else if rel == [] {
      WalkAllExtends(t.entries, at, keep);
    } else {
      WalkAllIn(t.entries, at, rel, keep);
      forall i | InEntry(t.entries, at, rel, keep, i)
        ensures at + rel in Walk(t.entries[i].dir, at + [rel[0]], keep) <==> TopMarker(t, at, rel, keep)
      {
        TopMarkerBelow(t, at, rel, keep, i);
        assert at + rel == at + [rel[0]] + rel[1..];
        WalkFindsTopMarkers(t.entries[i].dir, at + [rel[0]], rel[1..], keep);
      }
      if TopMarker(t, at, rel, keep) {
        var i :| 0 <= i < |t.entries| && t.entries[i].name == rel[0] && keep(at, rel[0])
                 && MarkerAt(t.entries[i].dir, at + [rel[0]], rel[1..], keep);
        assert InEntry(t.entries, at, rel, keep, i);
      }
    }
  }

  // ---- What that means for the recorded set ----

  // No recorded directory lies inside another.
  lemma RecordedAntichain(t: Tree, keep: Keep, p: Path, q: Path)
    requires WellNamed(t) && p in Walk(t, [], keep) && q in Walk(t, [], keep) && p <= q
    ensures p == q
  {
    assert [] + p == p && [] + q == q;
    WalkFindsTopMarkers(t, [], p, keep);
    WalkFindsTopMarkers(t, [], q, keep);
    assert q[..|p|] == p && q[..|q|] == q;
  }

  lemma {:induction false} ShortestMarker(t: Tree, keep: Keep, q: Path, n: nat) returns (p: Path)
    requires n <= |q| && MarkerAt(t, [], q[..n], keep)
    ensures p <= q && TopMarker(t, [], p, keep)
  {
    if k :| 0 <= k < n && MarkerAt(t, [], q[..k], keep) {
      p := ShortestMarker(t, keep, q, k);
    } else {
      p := q[..n];
      forall k | 0 <= k < |p| ensures !MarkerAt(t, [], p[..k], keep) {
        assert p[..k] == q[..k];
      }
    }
  }

  // Every unpruned marker directory lies at or below exactly one recorded one.
  lemma RecordedCovers(t: Tree, keep: Keep, q: Path)
    requires WellNamed(t) && MarkerAt(t, [], q, keep)
    ensures exists p :: p in Walk(t, [], keep) && p <= q
    ensures forall p, p' :: p in Walk(t, [], keep) && p' in Walk(t, [], keep) && p <= q && p' <= q ==> p == p'
  {
    assert q[..|q|] == q;
    var p := ShortestMarker(t, keep, q, |q|);
    WalkFindsTopMarkers(t, [], p, keep);
    assert [] + p == p;
    forall p, p' | p in Walk(t, [], keep) && p' in Walk(t, [], keep) && p <= q && p' <= q ensures p == p' {
      if |p| <= |p'| {
        assert p <= p' by { assert p == q[..|p|] == p'[..|p|]; }
        RecordedAntichain(t, keep, p, p');
      } else {
        assert p' <= p by { assert p' == q[..|p'|] == p[..|p'|]; }
        RecordedAntichain(t, keep, p', p);
      }
    }
  }

  // ---- Sorted sets of names ----

  predicate Less(a: string, b: string) {
    b != "" && (a == "" || a[0] < b[0] || (a[0] == b[0] && Less(a[1..], b[1..])))
  }

  lemma {:induction false} LessTotal(a: string, b: string)
    ensures !Less(a, a)
    ensures a == b || Less(a, b) || Less(b, a)
  {
    if a != "" {
      LessTotal(a[1..], if b == "" then "" else b[1..]);
      if b != "" && a[0] == b[0] && a[1..] == b[1..] {
        assert a == [a[0]] + a[1..] && b == [b[0]] + b[1..];
      }
    }
  }

  lemma {:induction false} LessTransitive(a: string, b: string, c: string)
    requires Less(a, b) && Less(b, c)
    ensures Less(a, c)
  {
    if a != "" && a[0] == b[0] == c[0] {
      LessTransitive(a[1..], b[1..], c[1..]);
    }
  }

  // At the first place where they differ, `a` ends or has the smaller character.
  ghost predicate Before(a: string, b: string) {
    exists i :: 0 <= i <= |a| && i < |b| && a[..i] == b[..i] && (i == |a| || a[i] < b[i])
  }

  lemma FirstsAgree(a: string, b: string)
    requires Before(a, b) && a != "" && !(a[0] < b[0])
    ensures a[0] == b[0]
  {
    var i :| 0 <= i <= |a| && i < |b| && a[..i] == b[..i] && (i == |a| || a[i] < b[i]);
    assert i > 0;
    assert a[0] == a[..i][0] == b[..i][0];
  }

  lemma {:induction false} LessExactly(a: string, b: string)
    ensures Less(a, b) <==> Before(a, b)
  {
    if a == "" {
      assert b != "" ==> a[..0] == b[..0];
    } else if b != "" && a[0] < b[0] {
      assert a[..0] == b[..0];
    } else if b != "" && a[0] == b[0] {
      LessExactly(a[1..], b[1..]);
      if Before(a, b) {
        var i :| 0 <= i <= |a| && i < |b| && a[..i] == b[..i] && (i == |a| || a[i] < b[i]);
        assert i > 0;
        assert a[1..][..i - 1] == a[..i][1..] == b[..i][1..] == b[1..][..i - 1];
        assert Before(a[1..], b[1..]);
      }
      if Before(a[1..], b[1..]) {
        var i :| 0 <= i <= |a[1..]| && i < |b[1..]| && a[1..][..i] == b[1..][..i] && (i == |a[1..]| || a[1..][i] < b[1..][i]);
        assert a[..i + 1] == [a[0]] + a[1..][..i] == [b[0]] + b[1..][..i] == b[..i + 1];
      }
    } else if Before(a, b) {
      FirstsAgree(a, b);
    }
  }

  ghost predicate Increasing(s: seq<string>) {
    forall i, j :: 0 <= i < j < |s| ==> Before(s[i], s[j])
  }

  lemma IncreasingByLess(s: seq<string>)
    ensures Increasing(s) <==> forall i, j :: 0 <= i < j < |s| ==> Less(s[i], s[j])
  {
    hide Less, Before;
    forall i, j | 0 <= i < j < |s| ensures Less(s[i], s[j]) <==> Before(s[i], s[j]) { LessExactly(s[i], s[j]); }
  }

  method InsertSorted(s: seq<string>, x: string) returns (r: seq<string>)
    requires Increasing(s) && x !in s
    ensures Increasing(r) && forall y :: y in r <==> y in s || y == x
  {
    hide Before, Increasing;
    IncreasingByLess(s);
    var k := 0;
    while k < |s| && Less(s[k], x)
      invariant 0 <= k <= |s|
      invariant forall i :: 0 <= i < k ==> Less(s[i], x)
    {
      k := k + 1;
    }
    r := s[..k] + [x] + s[k..];
    forall j | k <= j < |s| ensures Less(x, s[j]) {
      LessTotal(s[k], x);
      if k < j { LessTransitive(x, s[k], s[j]); }
    }
    forall i, j | 0 <= i < k <= j < |s| ensures Less(s[i], s[j]) {
      LessTransitive(s[i], x, s[j]);
    }
    IncreasingByLess(r);
  }

  method SortedNames(names: set<string>) returns (r: seq<string>)
    ensures Increasing(r) && forall y :: y in r <==> y in names
  {
    r := [];
    var todo := names;
    while todo != {}
      invariant Increasing(r) && todo <= names
      invariant forall y :: y in r <==> y in names && y !in todo
    {
      var x :| x in todo;
      r := InsertSorted(r, x);
      todo := todo - {x};
    }
  }

  // ---- Detection ----

  function TreeSize(t: Tree): (n: nat)
    ensures n > 0
    decreases t, 0
  {
    1 + EntriesSize(t.entries)
  }

  function EntriesSize(es: seq<Entry>): nat
    decreases es, 1
  {
    if es == [] then 0 else TreeSize(es[0].dir) + EntriesSize(es[1..])
  }

  // Pending directories of the walk, with their paths.
  ghost function WalkPending(ps: seq<(Path, Tree)>, keep: Keep): seq<Path> {
    if ps == [] then [] else Walk(ps[0].1, ps[0].0, keep) + WalkPending(ps[1..], keep)
  }

  ghost function PendingSize(ps: seq<(Path, Tree)>): nat {
    if ps == [] then 0 else TreeSize(ps[0].1) + PendingSize(ps[1..])
  }

  function Children(es: seq<Entry>, at: Path, keep: Keep): seq<(Path, Tree)> {
    if es == [] then []
    else (if keep(at, es[0].name) then [(at + [es[0].name], es[0].dir)] else []) + Children(es[1..], at, keep)
  }

  lemma {:induction false} PendingConcat(ps: seq<(Path, Tree)>, qs: seq<(Path, Tree)>, keep: Keep)
    ensures WalkPending(ps + qs, keep) == WalkPending(ps, keep) + WalkPending(qs, keep)
    ensures PendingSize(ps + qs) == PendingSize(ps) + PendingSize(qs)
  {
    if ps == [] {
      assert ps + qs == qs;
    } else {
      PendingConcat(ps[1..], qs, keep);
      assert (ps + qs)[1..] == ps[1..] + qs;
    }
  }

  lemma {:induction false} ChildrenPending(es: seq<Entry>, at: Path, keep: Keep)
    ensures WalkPending(Children(es, at, keep), keep) == WalkAll(es, at, keep)
    ensures PendingSize(Children(es, at, keep)) <= EntriesSize(es)
    decreases |es|
  {
    if es != [] {
      ChildrenPending(es[1..], at, keep);
      var first := if keep(at, es[0].name) then [(at + [es[0].name], es[0].dir)] else [];
      PendingConcat(first, Children(es[1..], at, keep), keep);
      assert first != [] ==> first[1..] == [];
    }
  }

  // The walk with its in-place pruning, on an explicit stack.
  method DiscoverMarkers(root: Tree, keep: Keep) returns (discovered: seq<Path>)
    ensures discovered == Walk(root, [], keep)
  {
    discovered := [];
    var pending: seq<(Path, Tree)> := [([], root)];
    assert pending[1..] == [];
    while pending != []
      invariant discovered + WalkPending(pending, keep) == Walk(root, [], keep)
      decreases PendingSize(pending)
    {
      var (dirpath, t) := pending[0];
      var dirnames := Children(t.entries, dirpath, keep);
      ChildrenPending(t.entries, dirpath, keep);
      if t.marker {
        discovered := discovered + [dirpath];
        dirnames := [];
      }
      PendingConcat(dirnames, pending[1..], keep);
      pending := dirnames + pending[1..];
    }
  }

  ghost predicate HasMarker(root: Tree, keep: Keep, name: string) {
    exists q :: q != [] && q[0] == name && MarkerAt(root, [], q, keep)
  }

  // The names are in the order of the entries they belong to, each of them once.
  ghost predicate InOrder(es: seq<Entry>, names: seq<string>) {
    forall a, b, i, j | 0 <= a < b < |names| && 0 <= i < |es| && 0 <= j < |es| :: es[i].name == names[a] && es[j].name == names[b] ==> i < j
  }

  lemma InOrderStep(es: seq<Entry>, names: seq<string>, i: nat)
    requires DistinctNames(es) && InOrder(es, names) && i < |es|
    requires forall name :: name in names ==> exists j :: 0 <= j < i && es[j].dir.marker && es[j].name == name
    ensures InOrder(es, names + [es[i].name])
  {
    forall a | 0 <= a < |names| ensures exists j :: 0 <= j < i && es[j].name == names[a] {
      assert names[a] in names;
    }
  }

  method DetectJavaLayout(root: Tree, keep: Keep) returns (r: Layout)
    requires WellNamed(root)
    ensures r.SingleModule? <==> root.marker
    ensures r.SiblingModules? <==> !root.marker && exists i :: 0 <= i < |root.entries| && root.entries[i].dir.marker
    ensures r.SiblingModules? ==>
              forall name :: name in r.roots <==> exists i :: 0 <= i < |root.entries| && root.entries[i].dir.marker && root.entries[i].name == name
    ensures r.SiblingModules? ==> InOrder(root.entries, r.roots)
    ensures r.MultiSystem? ==>
              Increasing(r.systemDirs) && forall name :: name in r.systemDirs <==> HasMarker(root, keep, name)
    ensures r.NoJava? ==> forall q :: !MarkerAt(root, [], q, keep)
    ensures r.MultiSystem? ==> exists q :: MarkerAt(root, [], q, keep)
  {
    hide Walk, MarkerAt;
    if root.marker {
      return SingleModule;
    }
    var siblings := [];
    for i := 0 to |root.entries|
      invariant forall name :: name in siblings <==>
                  exists j :: 0 <= j < i && root.entries[j].dir.marker && root.entries[j].name == name
      invariant InOrder(root.entries, siblings)
    {
      if root.entries[i].dir.marker {
        InOrderStep(root.entries, siblings, i);
        siblings := siblings + [root.entries[i].name];
      }
    }
    assert siblings != [] ==> siblings[0] in siblings;
    assert forall j :: 0 <= j < |root.entries| && root.entries[j].dir.marker ==> root.entries[j].name in siblings;
    if siblings != [] {
      return SiblingModules(siblings);
    }
    var discovered := DiscoverMarkers(root, keep);
    if discovered == [] {
      NothingDiscovered(root, keep);
      return NoJava;
    }
    var systemSet: set<string> := {};
    for i := 0 to |discovered|
      invariant forall n :: n in systemSet <==> exists j :: 0 <= j < i && discovered[j] != [] && discovered[j][0] == n
    {
      if discovered[i] != [] {
        systemSet := systemSet + {discovered[i][0]};
      }
    }
    forall n ensures n in systemSet <==> HasMarker(root, keep, n) {
      TopLevelNames(root, keep, n);
    }
    SomethingDiscovered(root, keep);
    var names := SortedNames(systemSet);
    return MultiSystem(names);
  }

  lemma NothingDiscovered(root: Tree, keep: Keep)
    requires WellNamed(root) && Walk(root, [], keep) == []
    ensures forall q :: !MarkerAt(root, [], q, keep)
  {
    forall q ensures !MarkerAt(root, [], q, keep) {
      if MarkerAt(root, [], q, keep) {
        RecordedCovers(root, keep, q);
      }
    }
  }

  lemma SomethingDiscovered(root: Tree, keep: Keep)
    requires WellNamed(root) && Walk(root, [], keep) != []
    ensures exists q :: MarkerAt(root, [], q, keep)
  {
    var p := Walk(root, [], keep)[0];
    assert [] + p == p;
    WalkFindsTopMarkers(root, [], p, keep);
  }

  // Top-level names of recorded directories are those with a marker below.
  lemma TopLevelNames(root: Tree, keep: Keep, n: string)
    requires WellNamed(root) && !root.marker
    ensures var w := Walk(root, [], keep);
            (exists j :: 0 <= j < |w| && w[j] != [] && w[j][0] == n) <==> HasMarker(root, keep, n)
  {
    var w := Walk(root, [], keep);
    if j :| 0 <= j < |w| && w[j] != [] && w[j][0] == n {
      assert [] + w[j] == w[j];
      WalkFindsTopMarkers(root, [], w[j], keep);
      assert MarkerAt(root, [], w[j], keep);
    }
    if HasMarker(root, keep, n) {
      var q :| q != [] && q[0] == n && MarkerAt(root, [], q, keep);
      RecordedCovers(root, keep, q);
      var p :| p in w && p <= q;
      assert [] + p == p;
      WalkFindsTopMarkers(root, [], p, keep);
      assert p != [] && p[0] == q[0];
    }
  }
}
