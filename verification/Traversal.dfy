/** Edge lists of traversal commands (src/java_codebase_rag/jrag.py): removal of
    duplicates (`_dedupe_traversal_edges`) and the truncation of `_cmd_hierarchy`
    and `_cmd_connection`, with the node map that goes with it. */
module Traversal {

  // An absent or empty target is "".
  datatype Edge = Edge(otherId: string, edgeType: string, row: int)

  function Key(e: Edge): (string, string) {
    (e.otherId, e.edgeType)
  }

  // ---- Removing duplicates ----

  ghost predicate FirstOfKey(es: seq<Edge>, i: int)
    requires 0 <= i < |es|
  {
    es[i].otherId != "" && forall j :: 0 <= j < i ==> Key(es[j]) != Key(es[i])
  }

  // The edges that are the first of their key, in order.
  ghost function Firsts(es: seq<Edge>, n: nat): seq<Edge>
    requires n <= |es|
  {
    if n == 0 then [] else Firsts(es, n - 1) + if FirstOfKey(es, n - 1) then [es[n - 1]] else []
  }

  method DedupeTraversalEdges(edges: seq<Edge>) returns (out: seq<Edge>)
    ensures out == Firsts(edges, |edges|)
  {
    var seen: set<(string, string)> := {};
    out := [];
    for i := 0 to |edges|
      invariant out == Firsts(edges, i)
      invariant forall k :: k in seen <==> exists j :: 0 <= j < i && edges[j].otherId != "" && Key(edges[j]) == k
    {
      var e := edges[i];
      if e.otherId == "" {
        continue;
      }
      if Key(e) in seen {
        var j :| 0 <= j < i && Key(edges[j]) == Key(e);
        assert !FirstOfKey(edges, i);
        continue;
      }
      assert FirstOfKey(edges, i);
      seen := seen + {Key(e)};
      out := out + [e];
    }
  }

  ghost predicate DistinctKeys(es: seq<Edge>) {
    && (forall i :: 0 <= i < |es| ==> es[i].otherId != "")
    && forall i, j :: 0 <= i < j < |es| ==> Key(es[i]) != Key(es[j])
  }

  ghost predicate SomeFirst(es: seq<Edge>, n: nat, e: Edge)
    requires n <= |es|
  {
    exists i :: 0 <= i < n && es[i] == e && FirstOfKey(es, i)
  }

  // What survives is the first of its key ...
  lemma {:induction false} FirstsAreFirst(es: seq<Edge>, n: nat)
    requires n <= |es|
    ensures forall e :: e in Firsts(es, n) ==> SomeFirst(es, n, e)
  {
    if n != 0 {
      FirstsAreFirst(es, n - 1);
      forall e | e in Firsts(es, n) ensures SomeFirst(es, n, e) {
        if e in Firsts(es, n - 1) {
          assert SomeFirst(es, n - 1, e);
        } else {
          assert es[n - 1] == e && FirstOfKey(es, n - 1);
        }
      }
    }
  }

  // ... no two have the same key ...
  lemma {:induction false} FirstsDistinct(es: seq<Edge>, n: nat)
    requires n <= |es|
    ensures DistinctKeys(Firsts(es, n))
    ensures var out := Firsts(es, n);
            forall i, j :: 0 <= i < j < |out| ==> out[i].otherId != out[j].otherId || out[i].edgeType != out[j].edgeType
  {
    if n != 0 {
      FirstsDistinct(es, n - 1);
      FirstsAreFirst(es, n - 1);
      var front := Firsts(es, n - 1);
      assert forall k :: 0 <= k < |front| ==> SomeFirst(es, n - 1, front[k]);
    }
    var out := Firsts(es, n);
    forall i, j | 0 <= i < j < |out| ensures out[i].otherId != out[j].otherId || out[i].edgeType != out[j].edgeType {
      assert Key(out[i]) != Key(out[j]);
    }
  }

  // ... and every non-empty key has one.
  lemma KeySurvives(es: seq<Edge>, i: nat)
    requires i < |es| && es[i].otherId != ""
    ensures var out := Firsts(es, |es|); exists k :: 0 <= k < |out| && out[k].otherId == es[i].otherId && out[k].edgeType == es[i].edgeType
  {
    KeyKept(es, |es|, i);
  }

  lemma {:induction false} KeyKept(es: seq<Edge>, n: nat, i: nat)
    requires i < n <= |es| && es[i].otherId != ""
    ensures exists k :: 0 <= k < |Firsts(es, n)| && Key(Firsts(es, n)[k]) == Key(es[i])
    decreases n
  {
    var front, all := Firsts(es, n - 1), Firsts(es, n);
    if FirstOfKey(es, n - 1) && i == n - 1 {
      assert all[|front|] == es[i];
    } else {
      var j := i;
      if i == n - 1 {
        j :| 0 <= j < i && Key(es[j]) == Key(es[i]);
      }
      KeyKept(es, n - 1, j);
      var k :| 0 <= k < |front| && Key(front[k]) == Key(es[j]);
      assert all[k] == front[k];
    }
  }

  lemma {:induction false} DistinctUnchanged(es: seq<Edge>, n: nat)
    requires n <= |es| && DistinctKeys(es)
    ensures Firsts(es, n) == es[..n]
  {
    if n != 0 {
      DistinctUnchanged(es, n - 1);
      assert FirstOfKey(es, n - 1);
      assert es[..n] == es[..n - 1] + [es[n - 1]];
    }
  }

  lemma DedupeTwice(es: seq<Edge>)
    ensures var out := Firsts(es, |es|); Firsts(out, |out|) == out
  {
    var out := Firsts(es, |es|);
    FirstsDistinct(es, |es|);
    DistinctUnchanged(out, |out|);
    assert out[..|out|] == out;
  }

  // ---- Truncation ----

  function ClampedLimit(raw: int): int {
    if raw < 499 then raw else 499
  }

  // The limit asked for, as long as the store can return one row more than that.
  lemma ClampExactly(raw: int)
    ensures ClampedLimit(raw) <= raw && ClampedLimit(raw) + 1 <= 500
    ensures ClampedLimit(raw) == raw || ClampedLimit(raw) + 1 == 500
    ensures ClampedLimit(raw) >= 0 ==> FetchBound(ClampedLimit(raw) + 1) == ClampedLimit(raw) + 1
    ensures ClampedLimit(raw) < 0 ==> FetchBound(ClampedLimit(raw) + 1) == 1
  {
  }

  // A sequence slice `[:limit]`: a negative bound counts from the end.
  function Slice<T>(s: seq<T>, limit: int): (r: seq<T>)
    ensures r <= s
    ensures 0 <= limit ==> |r| == if |s| < limit then |s| else limit
    ensures limit < 0 ==> |r| == if |s| + limit < 0 then 0 else |s| + limit
  {
    if 0 <= limit then (if |s| < limit then s else s[..limit])
    else if |s| + limit < 0 then []
    else s[..|s| + limit]
  }

  // In a hierarchy a group is fetched up to one row over the limit, then cut.
  function Fetched<T>(all: seq<T>, limit: int): seq<T> {
    Slice(all, limit + 1)
  }

  function Shown<T>(all: seq<T>, limit: int): (r: seq<T>)
    ensures r <= all
  {
    Slice(Fetched(all, limit), limit)
  }

  // A displayed direction keeps to its bound exactly for limits from -1 on, and
  // below that for directions so small that the two cuts leave nothing.
  lemma ShownBounded<T>(all: seq<T>, limit: int)
    ensures |Shown(all, limit)| <= (if limit < 0 then 0 else limit) <==> limit >= -1 || |all| + 2 * limit + 1 <= 0
  {
    var n := |all| + limit + 1;
    if limit < -1 {
      assert |Fetched(all, limit)| == if n < 0 then 0 else n;
    }
  }

  // One fetched neighbour: the edge to show and the node it leads to.
  datatype Hit<N> = Hit(edge: Edge, node: N, inbound: bool, keepExisting: bool)

  function Edges<N>(hits: seq<Hit<N>>): (es: seq<Edge>)
    ensures |es| == |hits| && forall i :: 0 <= i < |hits| ==> es[i] == hits[i].edge
  {
    seq(|hits|, i requires 0 <= i < |hits| => hits[i].edge)
  }

  function Targets(es: seq<Edge>): (ids: set<string>)
    ensures forall id :: id in ids <==> exists i :: 0 <= i < |es| && es[i].otherId == id
  {
    set i | 0 <= i < |es| :: es[i].otherId
  }

  ghost predicate Leads<N>(hits: seq<Hit<N>>, i: int, id: string) {
    0 <= i < |hits| && hits[i].edge.otherId == id
  }

  ghost predicate Overwrites<N>(hits: seq<Hit<N>>, i: int, id: string) {
    Leads(hits, i, id) && !hits[i].keepExisting
  }

  // The node that an id stands for: of the hits that overwrite what is there, the
  // last; if there is none, the root's own node or else the first hit's.
  ghost predicate Wins<N>(n: N, id: string, root: string, rootNode: N, hits: seq<Hit<N>>) {
    if exists i :: Overwrites(hits, i, id)
    then exists i :: Overwrites(hits, i, id) && n == hits[i].node && forall k :: i < k < |hits| ==> !Overwrites(hits, k, id)
    else if id == root then n == rootNode
    else exists i :: Leads(hits, i, id) && n == hits[i].node && forall k :: 0 <= k < i ==> !Leads(hits, k, id)
  }

  ghost predicate Led<N>(hits: seq<Hit<N>>, id: string) {
    exists i :: Leads(hits, i, id)
  }

  ghost predicate LastNode<N>(n: N, id: string, hits: seq<Hit<N>>) {
    exists i :: Leads(hits, i, id) && n == hits[i].node && forall k :: i < k < |hits| ==> !Leads(hits, k, id)
  }

  ghost predicate FirstNode<N>(n: N, id: string, hits: seq<Hit<N>>) {
    exists i :: Leads(hits, i, id) && n == hits[i].node && forall k :: 0 <= k < i ==> !Leads(hits, k, id)
  }

  lemma TaggedLeads<N>(hits: seq<Hit<N>>, inbound: bool, keep: bool, id: string)
    ensures var t := Tagged(hits, inbound, keep);
            && (forall i :: Leads(t, i, id) <==> Leads(hits, i, id))
            && (forall i :: Overwrites(t, i, id) <==> Leads(hits, i, id) && !keep)
  {
  }

  lemma JoinedLeads<N>(a: seq<Hit<N>>, b: seq<Hit<N>>, id: string)
    ensures forall i :: Leads(a + b, i, id) <==> Leads(a, i, id) || Leads(b, i - |a|, id)
    ensures forall i :: Overwrites(a + b, i, id) <==> Overwrites(a, i, id) || Overwrites(b, i - |a|, id)
    ensures forall i :: Leads(a, i, id) ==> i < |a| && (a + b)[i] == a[i]
    ensures forall i :: Leads(b, i, id) ==> i >= 0 && (a + b)[i + |a|] == b[i]
    ensures Led(a + b, id) <==> Led(a, id) || Led(b, id)
  {
    forall i | Leads(b, i, id) ensures Leads(a + b, i + |a|, id) {}
  }

  // The node map that a sequence of hits leads to.
  ghost predicate NodesFrom<N>(nodes: map<string, N>, root: string, rootNode: N, hits: seq<Hit<N>>) {
    && nodes.Keys == {root} + Targets(Edges(hits))
    && forall id :: id in nodes ==> Wins(nodes[id], id, root, rootNode, hits)
  }

  lemma KeysStep<N>(hits: seq<Hit<N>>, h: Hit<N>)
    ensures Targets(Edges(hits + [h])) == Targets(Edges(hits)) + {h.edge.otherId}
  {
    var more := hits + [h];
    assert Edges(more)[|hits|].otherId == h.edge.otherId;
    assert forall i :: 0 <= i < |hits| ==> Edges(more)[i] == Edges(hits)[i];
    forall id ensures id in Targets(Edges(more)) <==> id in Targets(Edges(hits)) || id == h.edge.otherId {
      if id in Targets(Edges(hits)) {
        var i :| 0 <= i < |hits| && Edges(hits)[i].otherId == id;
        assert Edges(more)[i].otherId == id;
      }
    }
  }

  lemma LeadsStep<N>(hits: seq<Hit<N>>, h: Hit<N>, id: string)
    ensures forall i :: Leads(hits + [h], i, id) <==> Leads(hits, i, id) || (i == |hits| && h.edge.otherId == id)
    ensures forall i :: Overwrites(hits + [h], i, id) <==> Overwrites(hits, i, id) || (i == |hits| && h.edge.otherId == id && !h.keepExisting)
  {
  }

  // Another hit leaves the other ids alone, and so does one that keeps what is there.
  lemma WinnerStays<N>(n: N, id: string, root: string, rootNode: N, hits: seq<Hit<N>>, h: Hit<N>)
    requires Wins(n, id, root, rootNode, hits)
    requires h.edge.otherId != id || (h.keepExisting && (id == root || exists i :: Leads(hits, i, id)))
    ensures Wins(n, id, root, rootNode, hits + [h])
  {
    var more := hits + [h];
    LeadsStep(hits, h, id);
    assert forall i :: 0 <= i < |hits| ==> more[i] == hits[i];
    hide Leads, Overwrites;
    if i :| Overwrites(hits, i, id) && n == hits[i].node && forall k :: i < k < |hits| ==> !Overwrites(hits, k, id) {
      assert Overwrites(more, i, id);
    } else if i :| Leads(hits, i, id) && n == hits[i].node && forall k :: 0 <= k < i ==> !Leads(hits, k, id) {
      LeadsWithin(hits, i, id);
      assert Leads(more, i, id);
    }
  }

  lemma LeadsWithin<N>(hits: seq<Hit<N>>, i: int, id: string)
    requires Leads(hits, i, id)
    ensures 0 <= i < |hits|
  {
  }

  lemma NewWins<N>(root: string, rootNode: N, hits: seq<Hit<N>>, h: Hit<N>)
    requires !h.keepExisting || (h.edge.otherId != root && forall i :: !Leads(hits, i, h.edge.otherId))
    ensures Wins(h.node, h.edge.otherId, root, rootNode, hits + [h])
  {
    var more, id := hits + [h], h.edge.otherId;
    LeadsStep(hits, h, id);
    assert more[|hits|] == h && Leads(more, |hits|, id);
    assert !h.keepExisting ==> Overwrites(more, |hits|, id);
  }

  lemma LedTo<N>(hits: seq<Hit<N>>, id: string)
    ensures id in Targets(Edges(hits)) <==> exists i :: Leads(hits, i, id)
  {
    if id in Targets(Edges(hits)) {
      var i :| 0 <= i < |Edges(hits)| && Edges(hits)[i].otherId == id;
      assert Leads(hits, i, id);
    }
  }

  lemma NodesFromStep<N>(nodes: map<string, N>, root: string, rootNode: N, hits: seq<Hit<N>>, h: Hit<N>)
    requires NodesFrom(nodes, root, rootNode, hits)
    ensures NodesFrom(if h.keepExisting && h.edge.otherId in nodes then nodes else nodes[h.edge.otherId := h.node], root, rootNode, hits + [h])
  {
    hide Wins, Leads;
    var next := if h.keepExisting && h.edge.otherId in nodes then nodes else nodes[h.edge.otherId := h.node];
    KeysStep(hits, h);
    LedTo(hits, h.edge.otherId);
    forall id | id in next ensures Wins(next[id], id, root, rootNode, hits + [h]) {
      if id == h.edge.otherId && !(h.keepExisting && id in nodes) {
        NewWins(root, rootNode, hits, h);
      } else {
        WinnerStays(nodes[id], id, root, rootNode, hits, h);
      }
    }
  }

  lemma NothingCollected<N>(root: string, rootNode: N)
    ensures NodesFrom(map[root := rootNode], root, rootNode, [])
  {
  }

  method Collect<N>(root: string, rootNode: N, hits: seq<Hit<N>>) returns (nodes: map<string, N>)
    ensures NodesFrom(nodes, root, rootNode, hits)
  {
    hide NodesFrom;
    nodes := map[root := rootNode];
    NothingCollected(root, rootNode);
    assert hits[..0] == [];
    for i := 0 to |hits|
      invariant NodesFrom(nodes, root, rootNode, hits[..i])
    {
      var h := hits[i];
      assert hits[..i + 1] == hits[..i] + [h];
      NodesFromStep(nodes, root, rootNode, hits[..i], h);
      if !(h.keepExisting && h.edge.otherId in nodes) {
        nodes := nodes[h.edge.otherId := h.node];
      }
    }
    assert hits[..|hits|] == hits;
  }

  // Some neighbour is not displayed.
  predicate HierarchyLoses<N>(up: seq<Hit<N>>, down: seq<Hit<N>>, limit: int) {
    |Shown(up, limit)| < |up| || |Shown(down, limit)| < |down|
  }

  predicate HierarchyFlags<N>(up: seq<Hit<N>>, down: seq<Hit<N>>, limit: int) {
    |Fetched(up, limit)| > limit || |Fetched(down, limit)| > limit
  }

  // The truncation flag tells the truth exactly unless the limit is negative and
  // there is nothing to show.
  lemma HierarchyFlagTrueExactly<N>(up: seq<Hit<N>>, down: seq<Hit<N>>, limit: int)
    ensures (HierarchyFlags(up, down, limit) <==> HierarchyLoses(up, down, limit)) <==> limit >= 0 || up != [] || down != []
  {
    ShownLess(up, limit);
    ShownLess(down, limit);
  }

  lemma ShownLess<T>(all: seq<T>, limit: int)
    ensures limit >= 0 ==> (|Shown(all, limit)| < |all| <==> |Fetched(all, limit)| > limit)
    ensures limit < 0 ==> (|Shown(all, limit)| < |all| <==> all != [])
  {
  }

  // `up` and `down` are all neighbours of either direction.  Each direction is
  // truncated on its own, so neither can displace the other.
  method Hierarchy<N>(root: string, rootNode: N, up: seq<Hit<N>>, down: seq<Hit<N>>, rawLimit: int)
    returns (nodes: map<string, N>, edges: seq<Edge>, truncated: bool)
    ensures var limit := ClampedLimit(rawLimit);
            && edges == Edges(Shown(up, limit)) + Edges(Shown(down, limit))
            && (truncated <==> HierarchyFlags(up, down, limit))
    ensures nodes.Keys == {root} + Targets(edges)
    ensures var hits := Fetched(up, ClampedLimit(rawLimit)) + Fetched(down, ClampedLimit(rawLimit));
            forall id :: id in nodes ==> LastNode(nodes[id], id, hits) || (id == root && nodes[id] == rootNode && !Led(hits, id))
  {
    hide NodesFrom, Slice, Wins;
    var limit := ClampedLimit(rawLimit);
    var fetchedUp, fetchedDown := Fetched(up, limit), Fetched(down, limit);
    var hits := Neighbours(up, down, limit);
    var all := Collect(root, rootNode, hits);
    var upEdges, downEdges := Edges(fetchedUp), Edges(fetchedDown);
    truncated := |upEdges| > limit || |downEdges| > limit;
    edges := Slice(upEdges, limit) + Slice(downEdges, limit);
    EdgesSlice(fetchedUp, limit);
    EdgesSlice(fetchedDown, limit);
    ShownTargets(fetchedUp, fetchedDown, limit);
    assert Edges(hits) == Edges(fetchedUp + fetchedDown);
    AllReferenced(all, root, rootNode, hits, edges);
    nodes := KeepReferenced(all, root, edges);
    forall id | id in nodes
      ensures LastNode(nodes[id], id, fetchedUp + fetchedDown) || (id == root && nodes[id] == rootNode && !Led(fetchedUp + fetchedDown, id))
    {
      WinnerOf(all, id, root, rootNode, hits);
      LastNeighbour(nodes[id], id, root, rootNode, fetchedUp, fetchedDown);
    }
  }

  // The rows a hierarchy collects its nodes from; each overwrites what is there.
  function Neighbours<N>(up: seq<Hit<N>>, down: seq<Hit<N>>, limit: int): seq<Hit<N>> {
    Tagged(Fetched(up, limit), false, false) + Tagged(Fetched(down, limit), true, false)
  }

  lemma WinnerOf<N>(all: map<string, N>, id: string, root: string, rootNode: N, hits: seq<Hit<N>>)
    requires NodesFrom(all, root, rootNode, hits) && id in all
    ensures Wins(all[id], id, root, rootNode, hits)
    ensures id == root || Led(hits, id)
  {
    hide Wins;
    LedTo(hits, id);
  }

  lemma LastNeighbour<N>(n: N, id: string, root: string, rootNode: N, up: seq<Hit<N>>, down: seq<Hit<N>>)
    requires var hits := Tagged(up, false, false) + Tagged(down, true, false);
             Wins(n, id, root, rootNode, hits) && (id == root || Led(hits, id))
    ensures LastNode(n, id, up + down) || (id == root && n == rootNode && !Led(up + down, id))
  {
    var hits := Tagged(up, false, false) + Tagged(down, true, false);
    TaggedLeads(up, false, false, id);
    TaggedLeads(down, true, false, id);
    JoinedLeads(Tagged(up, false, false), Tagged(down, true, false), id);
    JoinedLeads(up, down, id);
    assert forall i :: 0 <= i < |hits| ==> hits[i].node == (up + down)[i].node;
    hide Tagged, Leads, Overwrites;
    assert forall i :: Leads(up + down, i, id) <==> Overwrites(hits, i, id);
    assert forall i :: Leads(hits, i, id) <==> Overwrites(hits, i, id);
  }

  lemma AllReferenced<N>(all: map<string, N>, root: string, rootNode: N, hits: seq<Hit<N>>, edges: seq<Edge>)
    requires NodesFrom(all, root, rootNode, hits) && Targets(edges) <= Targets(Edges(hits))
    ensures {root} + Targets(edges) <= all.Keys
  {
  }

  // A limit of -5 shows eleven of twenty neighbours.
  method NegativeLimitRun<N>(root: string, rootNode: N, up: seq<Hit<N>>) returns (edges: seq<Edge>)
    requires |up| == 20
    ensures |edges| == 11
  {
    var nodes, shown, truncated := Hierarchy(root, rootNode, up, [], -5);
    edges := shown;
  }

  method KeepReferenced<N>(all: map<string, N>, root: string, edges: seq<Edge>) returns (nodes: map<string, N>)
    requires {root} + Targets(edges) <= all.Keys
    ensures nodes.Keys == {root} + Targets(edges)
    ensures forall id :: id in nodes ==> nodes[id] == all[id]
  {
    var referenced := {root} + Targets(edges);
    nodes := map id | id in all && id in referenced :: all[id];
  }

  lemma ShownTargets<N>(a: seq<Hit<N>>, b: seq<Hit<N>>, limit: int)
    ensures Targets(Slice(Edges(a), limit) + Slice(Edges(b), limit)) <= Targets(Edges(a + b))
  {
    var shown := Slice(Edges(a), limit) + Slice(Edges(b), limit);
    forall id | id in Targets(shown) ensures id in Targets(Edges(a + b)) {
      var i :| 0 <= i < |shown| && shown[i].otherId == id;
      var n := |Slice(Edges(a), limit)|;
      var j := if i < n then i else i - n + |a|;
      assert Edges(a + b)[j] == shown[i];
    }
  }

  function Section<N>(hits: seq<Hit<N>>, inbound: bool): seq<Hit<N>> {
    if hits == [] then []
    else Section(hits[..|hits| - 1], inbound) + if hits[|hits| - 1].inbound == inbound then [hits[|hits| - 1]] else []
  }

  lemma {:induction false} SectionMembers<N>(hits: seq<Hit<N>>, inbound: bool, h: Hit<N>)
    ensures h in Section(hits, inbound) <==> h in hits && h.inbound == inbound
  {
    if hits != [] {
      SectionMembers(hits[..|hits| - 1], inbound, h);
      assert hits == hits[..|hits| - 1] + [hits[|hits| - 1]];
    }
  }

  // What a connection view can draw on: the stored clients that call into the
  // service, the producers found to feed its listeners, and its own clients and
  // producers.  A direction that is not asked for has no rows.  Clients are
  // filtered by the two predicates after they are fetched.
  datatype Rows<!N> = Rows(clientsIn: seq<Hit<N>>, producersIn: seq<Hit<N>>, clientsOut: seq<Hit<N>>, producersOut: seq<Hit<N>>,
                           keepIn: Hit<N> -> bool, keepOut: Hit<N> -> bool)

  // The store returns at least one row and at most five hundred.
  function FetchBound(limit: int): nat {
    if limit < 1 then 1 else if limit > 500 then 500 else limit
  }

  function Stored<T>(all: seq<T>, limit: int): (r: seq<T>)
    ensures r <= all
  {
    Slice(all, FetchBound(limit + 1))
  }

  function Filter<T>(s: seq<T>, keep: T -> bool): (r: seq<T>)
    ensures |r| <= |s| && forall x :: x in r ==> x in s
  {
    if s == [] then []
    else
      assert s == s[..|s| - 1] + [s[|s| - 1]];
      Filter(s[..|s| - 1], keep) + if keep(s[|s| - 1]) then [s[|s| - 1]] else []
  }

  function Tagged<N>(hits: seq<Hit<N>>, inbound: bool, keepExisting: bool): (r: seq<Hit<N>>)
    ensures |r| == |hits| && Edges(r) == Edges(hits)
    ensures forall i :: 0 <= i < |r| ==> r[i] == hits[i].(inbound := inbound, keepExisting := keepExisting)
  {
    seq(|hits|, i requires 0 <= i < |hits| => hits[i].(inbound := inbound, keepExisting := keepExisting))
  }

  function ClientsIn<N>(rows: Rows<N>, limit: int): seq<Hit<N>> {
    Slice(Filter(Stored(rows.clientsIn, limit), rows.keepIn), limit + 1)
  }

  // Clients overwrite a node, these producers keep what is there.
  function Inbound<N>(rows: Rows<N>, limit: int): seq<Hit<N>> {
    Tagged(ClientsIn(rows, limit), true, false) + Tagged(rows.producersIn, true, true)
  }

  function Outbound<N>(rows: Rows<N>, limit: int): seq<Hit<N>> {
    Tagged(Slice(Filter(Stored(rows.clientsOut, limit), rows.keepOut), limit + 1), false, false)
    + Tagged(Slice(Stored(rows.producersOut, limit), limit + 1), false, false)
  }

  // An id shown stands for the last outbound row of that id; if there is none, for
  // the last inbound client; if there is none either, for the first producer.
  ghost predicate ConnectionNode<N>(n: N, id: string, rows: Rows<N>, limit: int) {
    if Led(Outbound(rows, limit), id) then LastNode(n, id, Outbound(rows, limit))
    else if Led(ClientsIn(rows, limit), id) then LastNode(n, id, ClientsIn(rows, limit))
    else FirstNode(n, id, rows.producersIn)
  }

  lemma OutboundOverwrites<N>(rows: Rows<N>, limit: int, id: string)
    ensures forall i :: Overwrites(Outbound(rows, limit), i, id) <==> Leads(Outbound(rows, limit), i, id)
  {
    hide Slice, Stored, Filter;
  }

  lemma ConnectionWinner<N>(n: N, id: string, root: string, rootNode: N, rows: Rows<N>, limit: int)
    requires id != root && Wins(n, id, root, rootNode, Inbound(rows, limit) + Outbound(rows, limit))
    ensures ConnectionNode(n, id, rows, limit)
  {
    var clients, producers, outbound := ClientsIn(rows, limit), rows.producersIn, Outbound(rows, limit);
    var x, y := Tagged(clients, true, false), Tagged(producers, true, true);
    assert Inbound(rows, limit) + outbound == x + y + outbound;
    OutboundOverwrites(rows, limit, id);
    hide Inbound, Outbound, ClientsIn;
    TaggedLeads(clients, true, false, id);
    TaggedLeads(producers, true, true, id);
    assert forall i :: 0 <= i < |clients| ==> x[i].node == clients[i].node;
    assert forall i :: 0 <= i < |producers| ==> y[i].node == producers[i].node;
    WinnerOfThree(n, id, root, rootNode, x, y, outbound);
    SameNodes(n, id, x, clients);
    SameNodes(n, id, y, producers);
  }

  lemma SameNodes<N>(n: N, id: string, a: seq<Hit<N>>, b: seq<Hit<N>>)
    requires |a| == |b| && (forall i :: 0 <= i < |a| ==> a[i].node == b[i].node) && forall i :: Leads(a, i, id) <==> Leads(b, i, id)
    ensures LastNode(n, id, a) <==> LastNode(n, id, b)
    ensures FirstNode(n, id, a) <==> FirstNode(n, id, b)
    ensures Led(a, id) <==> Led(b, id)
  {
  }

  lemma LastOverwrite<N>(n: N, id: string, root: string, rootNode: N, hits: seq<Hit<N>>) returns (i: nat)
    requires Wins(n, id, root, rootNode, hits) && exists k :: Overwrites(hits, k, id)
    ensures i < |hits| && Overwrites(hits, i, id) && n == hits[i].node && forall k :: i < k < |hits| ==> !Overwrites(hits, k, id)
  {
    i :| Overwrites(hits, i, id) && n == hits[i].node && forall k :: i < k < |hits| ==> !Overwrites(hits, k, id);
  }

  // Hits that overwrite, then hits that keep, then again hits that overwrite.
  lemma WinnerOfThree<N>(n: N, id: string, root: string, rootNode: N, a: seq<Hit<N>>, b: seq<Hit<N>>, c: seq<Hit<N>>)
    requires id != root && Wins(n, id, root, rootNode, a + b + c)
    requires forall i :: Overwrites(a, i, id) <==> Leads(a, i, id)
    requires forall i :: !Overwrites(b, i, id)
    requires forall i :: Overwrites(c, i, id) <==> Leads(c, i, id)
    ensures if Led(c, id) then LastNode(n, id, c) else if Led(a, id) then LastNode(n, id, a) else FirstNode(n, id, b)
  {
    JoinedLeads(a, b, id);
    JoinedLeads(a + b, c, id);
    hide Leads, Overwrites;
    var all, m := a + b + c, |a + b|;
    if Led(c, id) {
      var j :| Leads(c, j, id);
      assert Overwrites(all, j + m, id);
      var i := LastOverwrite(n, id, root, rootNode, all);
      LeadsWithin(c, j, id);
      assert !(i < m);
      assert Leads(c, i - m, id);
      forall k | i - m < k < |c| ensures !Leads(c, k, id) {
        assert Leads(c, k, id) ==> Overwrites(all, k + m, id);
      }
    } else if Led(a, id) {
      var j :| Leads(a, j, id);
      assert Overwrites(all, j, id);
    }
  }

  // Rows arrive with both sections mixed; each section keeps its own order and limit.
  method Connection<N>(root: string, rootNode: N, rows: Rows<N>, rawLimit: int)
    returns (nodes: map<string, N>, edges: seq<Edge>, truncated: bool)
    ensures var limit := ClampedLimit(rawLimit);
            && edges == Edges(Slice(Inbound(rows, limit), limit)) + Edges(Slice(Outbound(rows, limit), limit))
            && (truncated <==> ConnectionFlags(rows, limit))
    ensures nodes.Keys == {root} + Targets(edges) && nodes[root] == rootNode
    ensures forall id :: id in nodes && id != root ==> ConnectionNode(nodes[id], id, rows, ClampedLimit(rawLimit))
  {
    hide Inbound, Outbound, Section, Slice, NodesFrom, Wins;
    var limit := ClampedLimit(rawLimit);
    var hits := Inbound(rows, limit) + Outbound(rows, limit);
    var collected := Collect(root, rootNode, hits);
    var all := collected[root := rootNode];
    var inbound, outbound := Section(hits, true), Section(hits, false);
    SectionsTagged(rows, limit);
    SectionsSplit(Inbound(rows, limit), Outbound(rows, limit));
    EdgesSlice(inbound, limit);
    EdgesSlice(outbound, limit);
    truncated := |inbound| > limit || |outbound| > limit;
    edges := Slice(Edges(inbound), limit) + Slice(Edges(outbound), limit);
    SectionTargets(hits, inbound, outbound, limit);
    AllReferenced(collected, root, rootNode, hits, edges);
    nodes := KeepReferenced(all, root, edges);
    forall id | id in nodes && id != root ensures ConnectionNode(nodes[id], id, rows, limit) {
      WinnerOf(collected, id, root, rootNode, hits);
      ConnectionWinner(nodes[id], id, root, rootNode, rows, limit);
    }
  }

  lemma EdgesSlice<N>(hits: seq<Hit<N>>, limit: int)
    ensures Edges(Slice(hits, limit)) == Slice(Edges(hits), limit)
  {
  }

  ghost predicate InSection<N>(s: seq<Hit<N>>, inbound: bool) {
    forall i :: 0 <= i < |s| ==> s[i].inbound == inbound
  }

  lemma {:induction false} SectionOf<N>(s: seq<Hit<N>>, inbound: bool)
    requires InSection(s, inbound)
    ensures Section(s, inbound) == s && Section(s, !inbound) == []
  {
    if s != [] {
      SectionOf(s[..|s| - 1], inbound);
      assert s == s[..|s| - 1] + [s[|s| - 1]];
    }
  }

  lemma {:induction false} SectionConcat<N>(a: seq<Hit<N>>, b: seq<Hit<N>>, inbound: bool)
    ensures Section(a + b, inbound) == Section(a, inbound) + Section(b, inbound)
    decreases |b|
  {
    if b == [] {
      assert a + b == a;
    } else {
      assert (a + b)[..|a + b| - 1] == a + b[..|b| - 1];
      SectionConcat(a, b[..|b| - 1], inbound);
    }
  }

  lemma SectionsSplit<N>(a: seq<Hit<N>>, b: seq<Hit<N>>)
    requires InSection(a, true) && InSection(b, false)
    ensures Section(a + b, true) == a && Section(a + b, false) == b
  {
    hide Section;
    SectionOf(a, true);
    SectionOf(b, false);
    SectionConcat(a, b, true);
    SectionConcat(a, b, false);
  }

  lemma SectionsTagged<N>(rows: Rows<N>, limit: int)
    ensures InSection(Inbound(rows, limit), true) && InSection(Outbound(rows, limit), false)
  {
  }

  // Of the sections of a connection view, the outbound one always keeps to its bound.
  // The inbound one does so exactly for limits that are not negative or that cut off
  // all its producers, which are not fetched up to a limit.
  lemma SectionsBounded<N>(rows: Rows<N>, limit: int)
    requires limit <= 499
    ensures |Slice(Inbound(rows, limit), limit)| <= (if limit < 0 then 0 else limit) <==> limit >= 0 || |rows.producersIn| + limit <= 0
    ensures |Slice(Outbound(rows, limit), limit)| <= if limit < 0 then 0 else limit
  {
    if limit < 0 {
      assert |Stored(rows.clientsIn, limit)| <= 1 && |Stored(rows.clientsOut, limit)| <= 1 && |Stored(rows.producersOut, limit)| <= 1;
    }
  }

  // A limit of -1 shows one of two inbound producers.
  method NegativeSectionRun<N>(root: string, rootNode: N, rows: Rows<N>) returns (edges: seq<Edge>)
    requires rows.clientsIn == [] && |rows.producersIn| == 2 && rows.clientsOut == [] && rows.producersOut == []
    ensures |edges| == 1
  {
    var nodes, shown, truncated := Connection(root, rootNode, rows, -1);
    edges := shown;
  }

  predicate ConnectionFlags<N>(rows: Rows<N>, limit: int) {
    |Inbound(rows, limit)| > limit || |Outbound(rows, limit)| > limit
  }

  function MatchingRows<N>(rows: Rows<N>): nat {
    |Filter(rows.clientsIn, rows.keepIn)| + |rows.producersIn| + |Filter(rows.clientsOut, rows.keepOut)| + |rows.producersOut|
  }

  // Some row that passes the filters is not displayed.
  predicate ConnectionLoses<N>(rows: Rows<N>, limit: int) {
    |Slice(Inbound(rows, limit), limit)| + |Slice(Outbound(rows, limit), limit)| < MatchingRows(rows)
  }

  // A client that passes its filter lies beyond the rows fetched.
  predicate MatchBeyondFetch<N>(rows: Rows<N>, limit: int) {
    || Filter(rows.clientsIn[|Stored(rows.clientsIn, limit)|..], rows.keepIn) != []
    || Filter(rows.clientsOut[|Stored(rows.clientsOut, limit)|..], rows.keepOut) != []
  }

  lemma {:induction false} FilterExactly<T>(s: seq<T>, keep: T -> bool, x: T)
    ensures x in Filter(s, keep) <==> x in s && keep(x)
  {
    if s != [] {
      FilterExactly(s[..|s| - 1], keep, x);
      assert s == s[..|s| - 1] + [s[|s| - 1]];
    }
  }

  lemma {:induction false} FilterConcat<T>(a: seq<T>, b: seq<T>, keep: T -> bool)
    ensures Filter(a + b, keep) == Filter(a, keep) + Filter(b, keep)
    decreases |b|
  {
    if b == [] {
      assert a + b == a;
    } else {
      assert (a + b)[..|a + b| - 1] == a + b[..|b| - 1];
      FilterConcat(a, b[..|b| - 1], keep);
    }
  }

  lemma FilterStored<T>(all: seq<T>, keep: T -> bool, limit: int)
    ensures |Filter(all, keep)| == |Filter(Stored(all, limit), keep)| + |Filter(all[|Stored(all, limit)|..], keep)|
  {
    var n := |Stored(all, limit)|;
    assert all == Stored(all, limit) + all[n..];
    FilterConcat(Stored(all, limit), all[n..], keep);
  }

  // The truncation flag of a connection view tells the truth exactly if a section
  // overflows or no matching client lies beyond the fetch; for a negative limit,
  // exactly if anything matches at all.
  lemma ConnectionFlagTrueExactly<N>(rows: Rows<N>, limit: int)
    requires limit <= 499
    ensures (ConnectionFlags(rows, limit) <==> ConnectionLoses(rows, limit))
       <==> if limit < 0 then MatchingRows(rows) > 0 else ConnectionFlags(rows, limit) || !MatchBeyondFetch(rows, limit)
  {
    FilterStored(rows.clientsIn, rows.keepIn, limit);
    FilterStored(rows.clientsOut, rows.keepOut, limit);
  }

  // Three clients call in, the first two from within the service: with a limit of
  // one the third is neither displayed nor is the view flagged.
  lemma ConnectionLosesSilently<N>(a: Hit<N>, b: Hit<N>, c: Hit<N>)
    requires a != c && b != c
    ensures var rows := Rows([a, b, c], [], [], [], h => h == c, h => true);
            ConnectionLoses(rows, 1) && !ConnectionFlags(rows, 1) && |Slice(Inbound(rows, 1), 1)| == 0
  {
    var rows := Rows([a, b, c], [], [], [], h => h == c, h => true);
    assert [a, b, c][..2] == [a, b] && [a, b][..1] == [a] && [a][..0] == [];
    assert Stored(rows.clientsIn, 1) == [a, b];
    assert Filter([a], rows.keepIn) == [] && Filter([a, b], rows.keepIn) == [];
    assert Filter([a, b, c], rows.keepIn) == [c];
  }

  lemma SectionTargets<N>(hits: seq<Hit<N>>, a: seq<Hit<N>>, b: seq<Hit<N>>, limit: int)
    requires a == Section(hits, true) && b == Section(hits, false)
    ensures Targets(Slice(Edges(a), limit) + Slice(Edges(b), limit)) <= Targets(Edges(hits))
  {
    ShownTargets(a, b, limit);
    forall id | id in Targets(Edges(a + b)) ensures id in Targets(Edges(hits)) {
      var i :| 0 <= i < |a + b| && Edges(a + b)[i].otherId == id;
      var h := (a + b)[i];
      assert h in a || h in b;
      SectionMembers(hits, true, h);
      SectionMembers(hits, false, h);
      var j :| 0 <= j < |hits| && hits[j] == h;
      assert Edges(hits)[j].otherId == id;
    }
  }
}
