/** The in-memory graph cache (crates/me-index/src/graph/memory_graph.rs).

    Nodes and edges live in petgraph vectors that are compacted by swap-remove, so every
    removal moves the last entry into the freed slot. `Valid` says that the id-to-slot map
    is an exact bijection; `Links` is the multiset of edges the cache stands for, and each
    method's contract is stated on it, free of slots.
  */
module MemoryGraphs {
  import opened Collections

  datatype EdgeData = EdgeData(edgeId: int, relation: string, weight: real)

  /** An edge between fact ids. */
  datatype Link = Link(source: int, target: int, data: EdgeData)
  {
    predicate Touches(id: int) { source == id || target == id }
  }

  /** An edge as petgraph stores it, between node slots. */
  datatype Slot = Slot(src: nat, tgt: nat, data: EdgeData)

  predicate Placed(nodes: seq<int>, edges: seq<Slot>) {
    forall k :: 0 <= k < |edges| ==> edges[k].src < |nodes| && edges[k].tgt < |nodes|
  }

  function Resolve(nodes: seq<int>, edges: seq<Slot>): (ls: seq<Link>)
    requires Placed(nodes, edges)
    ensures |ls| == |edges|
  {
    seq(|edges|, k requires 0 <= k < |edges| => Link(nodes[edges[k].src], nodes[edges[k].tgt], edges[k].data))
  }

  /** Exactly the edges touching `id` are gone. */
  ghost predicate Severed(before: multiset<Link>, after: multiset<Link>, id: int) {
    forall l :: after[l] == if l.Touches(id) then 0 else before[l]
  }

  // ---------- swap-remove ----------

  function SwapRemove<T>(s: seq<T>, k: nat): (r: seq<T>)
    requires k < |s|
    ensures |r| == |s| - 1
    ensures forall j :: 0 <= j < |r| ==> r[j] == if j == k then s[|s| - 1] else s[j]
  {
    s[k := s[|s| - 1]][..|s| - 1]
  }

  lemma SwapRemoveMultiset<T>(s: seq<T>, k: nat)
    requires k < |s|
    ensures multiset(SwapRemove(s, k)) == multiset(s) - multiset{s[k]}
  {
    var n := |s| - 1;
    var t := s[k := s[n]];
    var rest, x := SwapRemove(s, k), s[n];
    assert t == rest + [x];
    assert multiset(t) == multiset(rest) + multiset{x};
    assert multiset(t) == multiset(s) - multiset{s[k]} + multiset{x};
    assert multiset(rest) == multiset(t) - multiset{x};
  }

  lemma SwapRemoveResolves(nodes: seq<int>, edges: seq<Slot>, k: nat)
    requires Placed(nodes, edges) && k < |edges|
    ensures Placed(nodes, SwapRemove(edges, k))
    ensures Resolve(nodes, SwapRemove(edges, k)) == SwapRemove(Resolve(nodes, edges), k)
  {}

  // ---------- descending, duplicate-free index lists ----------

  ghost predicate StrictlyDescending(s: seq<int>) {
    forall i, j :: 0 <= i < j < |s| ==> s[i] > s[j]
  }

  function Insert(x: int, s: seq<int>): seq<int> {
    if s == [] || x > s[0] then [x] + s
    else if x == s[0] then s
    else [s[0]] + Insert(x, s[1..])
  }

  /** `sort_unstable_by` descending, then `dedup`. */
  function SortedDedup(s: seq<int>): seq<int> {
    if s == [] then [] else Insert(s[0], SortedDedup(s[1..]))
  }

  lemma {:induction false} InsertKeeps(x: int, s: seq<int>)
    requires StrictlyDescending(s)
    ensures StrictlyDescending(Insert(x, s))
    ensures forall y :: y in Insert(x, s) <==> y == x || y in s
  {
    if s != [] && x < s[0] {
      var rest := Insert(x, s[1..]);
      InsertKeeps(x, s[1..]);
      assert s == [s[0]] + s[1..];
      forall k | 0 <= k < |rest| ensures s[0] > rest[k] {
        var y := rest[k];
        assert y in rest;
      }
    }
  }

  lemma {:induction false} SortedDedupKeeps(s: seq<int>)
    ensures StrictlyDescending(SortedDedup(s))
    ensures forall y :: y in SortedDedup(s) <==> y in s
  {
    if s != [] {
      SortedDedupKeeps(s[1..]);
      InsertKeeps(s[0], SortedDedup(s[1..]));
      assert s == [s[0]] + s[1..];
    }
  }

  // ---------- degree ----------

  function Ends(l: Link, id: int): nat {
    (if l.source == id then 1 else 0) + if l.target == id then 1 else 0
  }

  /** In plus out, a self-loop counted twice. */
  ghost function DegreeOf(links: multiset<Link>, id: int): nat
    decreases |links|
  {
    if links == multiset{} then 0
    else var l :| l in links; Ends(l, id) + DegreeOf(links - multiset{l}, id)
  }

  /** The order in which edges are counted does not matter. */
  lemma {:induction false} DegreeTake(links: multiset<Link>, l: Link, id: int)
    requires l in links
    ensures DegreeOf(links, id) == Ends(l, id) + DegreeOf(links - multiset{l}, id)
    decreases |links|
  {
    var k :| k in links && DegreeOf(links, id) == Ends(k, id) + DegreeOf(links - multiset{k}, id);
    if k != l {
      var rest := links - multiset{k};
      DegreeTake(rest, l, id);
      DegreeTake(links - multiset{l}, k, id);
      assert rest - multiset{l} == links - multiset{l} - multiset{k};
    }
  }

  lemma {:induction false} DegreePrefix(ls: seq<Link>, k: nat, id: int)
    requires k < |ls|
    ensures DegreeOf(multiset(ls[..k + 1]), id) == Ends(ls[k], id) + DegreeOf(multiset(ls[..k]), id)
  {
    assert ls[..k + 1] == ls[..k] + [ls[k]];
    DegreeTake(multiset(ls[..k + 1]), ls[k], id);
    assert multiset(ls[..k + 1]) - multiset{ls[k]} == multiset(ls[..k]);
  }

  /** Over a set of links, the degree is out-edges plus in-edges. */
  ghost function DegreeIn(links: set<Link>, id: int): nat {
    |OutOf(links, id)| + |Into(links, id)|
  }

  ghost function OutOf(links: set<Link>, id: int): set<Link> { set l | l in links && l.source == id }

  ghost function Into(links: set<Link>, id: int): set<Link> { set l | l in links && l.target == id }

  lemma {:induction false} DegreeOfSet(links: set<Link>, id: int)
    ensures DegreeOf(multiset(links), id) == DegreeIn(links, id)
  {
    if links == {} {
      assert OutOf(links, id) == {} && Into(links, id) == {};
    } else {
      var l := Pick(links);
      DegreeTake(multiset(links), l, id);
      assert multiset(links - {l}) == multiset(links) - multiset{l};
      DegreeOfSet(links - {l}, id);
      DegreeAdds(links, l, id);
    }
  }

  lemma DegreeAdds(links: set<Link>, last: Link, id: int)
    requires last in links
    ensures DegreeIn(links, id) == Ends(last, id) + DegreeIn(links - {last}, id)
  {
    OutAdds(links, last, id);
    InAdds(links, last, id);
  }

  lemma OutAdds(links: set<Link>, last: Link, id: int)
    requires last in links
    ensures |OutOf(links, id)| == |OutOf(links - {last}, id)| + if last.source == id then 1 else 0
  {
    var rest := OutOf(links - {last}, id);
    assert last !in rest && OutOf(links, id) == if last.source == id then rest + {last} else rest;
  }

  lemma InAdds(links: set<Link>, last: Link, id: int)
    requires last in links
    ensures |Into(links, id)| == |Into(links - {last}, id)| + if last.target == id then 1 else 0
  {
    var rest := Into(links - {last}, id);
    assert last !in rest && Into(links, id) == if last.target == id then rest + {last} else rest;
  }

  lemma {:induction false} NoEnds(links: multiset<Link>, id: int)
    requires forall l :: l in links ==> !l.Touches(id)
    ensures DegreeOf(links, id) == 0
    decreases |links|
  {
    if links != multiset{} {
      var l :| l in links;
      DegreeTake(links, l, id);
      NoEnds(links - multiset{l}, id);
    }
  }

  // ---------- severing, as a function ----------

  /** The multiset with every edge touching `id` taken out. */
  ghost function Cut(links: multiset<Link>, id: int): (r: multiset<Link>)
    ensures Severed(links, r, id)
    decreases |links|
  {
    if exists l :: l in links && l.Touches(id) then
      var l :| l in links && l.Touches(id);
      Cut(links[l := 0], id)
    else links
  }

  lemma {:induction false} CutUnique(links: multiset<Link>, r: multiset<Link>, id: int)
    requires Severed(links, r, id)
    ensures r == Cut(links, id)
  {
    assert forall l :: r[l] == Cut(links, id)[l];
  }

  // ---------- the cache ----------

  class MemoryGraph {
    var nodes: seq<int>
    var edges: seq<Slot>
    var nodeMap: map<int, nat>

    ghost predicate Valid()
      reads this
    {
      Bijection(nodes, nodeMap) && Placed(nodes, edges)
    }

    ghost function Links(): multiset<Link>
      requires Valid()
      reads this
    {
      multiset(Resolve(nodes, edges))
    }

    constructor ()
      ensures Valid() && Links() == multiset{} && nodeMap == map[]
    {
      nodes, edges, nodeMap := [], [], map[];
    }

    method EnsureNode(id: int) returns (k: nat)
      requires Valid()
      modifies this
      ensures Valid() && id in nodeMap && nodeMap[id] == k
      ensures edges == old(edges) && old(nodes) <= nodes
      ensures nodeMap.Keys == old(nodeMap).Keys + {id}
    {
      if id !in nodeMap {
        nodeMap := nodeMap[id := |nodes|];
        nodes := nodes + [id];
      }
      k := nodeMap[id];
    }

    method AddEdge(source: int, target: int, data: EdgeData)
      requires Valid()
      modifies this
      ensures Valid() && Links() == old(Links()) + multiset{Link(source, target, data)}
      ensures nodeMap.Keys == old(nodeMap).Keys + {source, target}
    {
      ghost var was := Resolve(nodes, edges);
      var s := EnsureNode(source);
      var t := EnsureNode(target);
      assert Resolve(nodes, edges) == was;
      edges := edges + [Slot(s, t, data)];
      assert Resolve(nodes, edges) == was + [Link(source, target, data)];
    }

    /** The first edge with this row id, if any, is removed. */
    method RemoveEdgeById(edgeId: int)
      requires Valid()
      modifies this
      ensures Valid() && nodes == old(nodes) && nodeMap == old(nodeMap)
      ensures if exists l :: l in old(Links()) && l.data.edgeId == edgeId
              then exists l :: l in old(Links()) && l.data.edgeId == edgeId && Links() == old(Links()) - multiset{l}
              else Links() == old(Links())
    {
      ghost var ls := Resolve(nodes, edges);
      for k := 0 to |edges|
        invariant edges == old(edges) && nodes == old(nodes) && nodeMap == old(nodeMap)
        invariant forall j :: 0 <= j < k ==> ls[j].data.edgeId != edgeId
      {
        if edges[k].data.edgeId == edgeId {
          SwapRemoveResolves(nodes, edges, k);
          SwapRemoveMultiset(ls, k);
          assert ls[k] in old(Links());
          edges := SwapRemove(edges, k);
          return;
        }
      }
      forall l: Link | l in old(Links()) ensures l.data.edgeId != edgeId {
        var j :| 0 <= j < |ls| && ls[j] == l;
      }
    }

    /** Slots of the edges leaving, then of those entering, the node at `at`. */
    method Incident(at: nat) returns (found: seq<int>)
      ensures forall k :: k in found <==> 0 <= k < |edges| && (edges[k].src == at || edges[k].tgt == at)
    {
      found := [];
      for k := 0 to |edges|
        invariant forall j :: j in found <==> 0 <= j < k && edges[j].src == at
      {
        if edges[k].src == at {
          found := found + [k];
        }
      }
      ghost var outs := found;
      for k := 0 to |edges|
        invariant forall j :: j in found <==> j in outs || (0 <= j < k && edges[j].tgt == at)
      {
        if edges[k].tgt == at {
          found := found + [k];
        }
      }
    }

    /** Remove every edge touching `id`, highest slot first so that no swap moves a pending one. */
    method RemoveEdgesByFact(id: int)
      requires Valid()
      modifies this
      ensures Valid() && nodes == old(nodes) && nodeMap == old(nodeMap)
      ensures Links() == Cut(old(Links()), id)
    {
      ghost var before := Resolve(nodes, edges);
      if id !in nodeMap {
        AbsentUntouched(nodes, edges, nodeMap, id);
        return;
      }
      var found := Incident(nodeMap[id]);
      var toRemove := SortedDedup(found);
      IncidentTouches(nodes, edges, nodeMap, id, found);
      for k := 0 to |toRemove|
        invariant nodes == old(nodes) && nodeMap == old(nodeMap) && Placed(nodes, edges)
        invariant Trimmed(before, Resolve(nodes, edges), id, toRemove[k..])
      {
        TrimStep(before, nodes, edges, id, toRemove, k);
        edges := SwapRemove(edges, toRemove[k]);
      }
      TrimDone(before, Resolve(nodes, edges), id, toRemove[|toRemove|..]);
    }

    /** petgraph's `remove_node` drops the incident edges, swap-removes the node and renames
        the moved node's slot in its edges; the map entry of the moved node is rewritten. */
    method RemoveNode(id: int)
      requires Valid()
      modifies this
      ensures Valid() && nodeMap.Keys == old(nodeMap).Keys - {id}
      ensures Links() == Cut(old(Links()), id)
    {
      ghost var links := Links();
      RemoveEdgesByFact(id);
      if id !in nodeMap {
        return;
      }
      NodeDrops(links, nodes, edges, nodeMap, id);
      var at, last := nodeMap[id], |nodes| - 1;
      var rest, map0 := SwapRemove(nodes, at), nodeMap - {id};
      nodes, edges := rest, Renamed(edges, last, at);
      nodeMap := if at < |rest| then map0[rest[at] := at] else map0;
    }

    method Degree(id: int) returns (d: nat)
      requires Valid()
      ensures d == DegreeOf(Links(), id)
    {
      ghost var ls := Resolve(nodes, edges);
      if id !in nodeMap {
        AbsentUntouched(nodes, edges, nodeMap, id);
        return 0;
      }
      var at := nodeMap[id];
      var outs, ins := 0, 0;
      for k := 0 to |edges|
        invariant outs + ins == DegreeOf(multiset(ls[..k]), id)
      {
        DegreePrefix(ls, k, id);
        SlotEnds(nodes, edges, nodeMap, id, k);
        if edges[k].src == at { outs := outs + 1; }
        if edges[k].tgt == at { ins := ins + 1; }
      }
      assert ls[..|ls|] == ls;
      d := outs + ins;
    }

    /** Rebuild from an edge listing, as after consolidation or on open. */
    constructor FromActiveEdges(active: seq<Link>)
      ensures Valid() && Links() == multiset(active)
    {
      nodes, edges, nodeMap := [], [], map[];
      new;
      for k := 0 to |active|
        invariant Valid() && Links() == multiset(active[..k])
        invariant fresh(this)
      {
        assert active[..k + 1] == active[..k] + [active[k]];
        AddEdge(active[k].source, active[k].target, active[k].data);
      }
      assert active[..|active|] == active;
    }
  }

  function Renamed(edges: seq<Slot>, from: nat, to: nat): (r: seq<Slot>)
    ensures |r| == |edges|
    ensures forall k :: 0 <= k < |r| ==> r[k].data == edges[k].data
    ensures forall k :: 0 <= k < |r| ==> r[k].src == (if edges[k].src == from then to else edges[k].src)
    ensures forall k :: 0 <= k < |r| ==> r[k].tgt == (if edges[k].tgt == from then to else edges[k].tgt)
  {
    seq(|edges|, k requires 0 <= k < |edges| =>
      Slot(if edges[k].src == from then to else edges[k].src,
           if edges[k].tgt == from then to else edges[k].tgt, edges[k].data))
  }

  ghost predicate Bijection(nodes: seq<int>, nodeMap: map<int, nat>) {
    && (forall id :: id in nodeMap ==> nodeMap[id] < |nodes| && nodes[nodeMap[id]] == id)
    && (forall k :: 0 <= k < |nodes| ==> nodes[k] in nodeMap && nodeMap[nodes[k]] == k)
  }

  /** The map after `remove_node`: the dropped id goes, the moved node gets the freed slot. */
  function Reindexed(nodes: seq<int>, nodeMap: map<int, nat>, id: int): map<int, nat>
    requires id in nodeMap && nodeMap[id] < |nodes|
  {
    var at := nodeMap[id];
    var rest := SwapRemove(nodes, at);
    if at < |rest| then (nodeMap - {id})[rest[at] := at] else nodeMap - {id}
  }

  /** With no edge left at `id`, no slot refers to its node. */
  lemma {:induction false} SlotsClear(links: multiset<Link>, nodes: seq<int>, edges: seq<Slot>, nodeMap: map<int, nat>,
                                      id: int)
    requires Bijection(nodes, nodeMap) && Placed(nodes, edges) && id in nodeMap
    requires multiset(Resolve(nodes, edges)) == Cut(links, id)
    ensures forall k :: 0 <= k < |edges| ==> edges[k].src != nodeMap[id] && edges[k].tgt != nodeMap[id]
  {
    var ls := Resolve(nodes, edges);
    forall k | 0 <= k < |edges| ensures edges[k].src != nodeMap[id] && edges[k].tgt != nodeMap[id] {
      assert ls[k] in multiset(ls);
    }
  }

  lemma {:induction false} NodeDrops(links: multiset<Link>, nodes: seq<int>, edges: seq<Slot>, nodeMap: map<int, nat>,
                                     id: int)
    requires Bijection(nodes, nodeMap) && Placed(nodes, edges) && id in nodeMap
    requires multiset(Resolve(nodes, edges)) == Cut(links, id)
    ensures Bijection(SwapRemove(nodes, nodeMap[id]), Reindexed(nodes, nodeMap, id))
    ensures Reindexed(nodes, nodeMap, id).Keys == nodeMap.Keys - {id}
    ensures Placed(SwapRemove(nodes, nodeMap[id]), Renamed(edges, |nodes| - 1, nodeMap[id]))
    ensures Resolve(SwapRemove(nodes, nodeMap[id]), Renamed(edges, |nodes| - 1, nodeMap[id])) == Resolve(nodes, edges)
  {
    SlotsClear(links, nodes, edges, nodeMap, id);
    ReindexedBijects(nodes, nodeMap, id);
    RenamedResolves(nodes, edges, nodeMap[id]);
  }

  lemma ReindexedBijects(nodes: seq<int>, nodeMap: map<int, nat>, id: int)
    requires Bijection(nodes, nodeMap) && id in nodeMap
    ensures Bijection(SwapRemove(nodes, nodeMap[id]), Reindexed(nodes, nodeMap, id))
    ensures Reindexed(nodes, nodeMap, id).Keys == nodeMap.Keys - {id}
  {
    var at, rest, now := nodeMap[id], SwapRemove(nodes, nodeMap[id]), Reindexed(nodes, nodeMap, id);
    assert nodeMap[nodes[|nodes| - 1]] == |nodes| - 1;
    forall k | 0 <= k < |rest| ensures rest[k] in now && now[rest[k]] == k {
      assert nodeMap[nodes[k]] == k;
    }
  }

  lemma RenamedResolves(nodes: seq<int>, edges: seq<Slot>, at: nat)
    requires Placed(nodes, edges) && at < |nodes|
    requires forall k :: 0 <= k < |edges| ==> edges[k].src != at && edges[k].tgt != at
    ensures Placed(SwapRemove(nodes, at), Renamed(edges, |nodes| - 1, at))
    ensures Resolve(SwapRemove(nodes, at), Renamed(edges, |nodes| - 1, at)) == Resolve(nodes, edges)
  {}

  // ---------- the removal loop ----------

  /** The edges not touching `id` are as they were. */
  ghost predicate SameElsewhere(before: seq<Link>, now: seq<Link>, id: int) {
    forall l: Link :: !l.Touches(id) ==> multiset(now)[l] == multiset(before)[l]
  }

  /** What is left to remove is exactly at `pending`. */
  ghost predicate PendingAt(now: seq<Link>, id: int, pending: seq<int>) {
    && StrictlyDescending(pending)
    && (forall k :: 0 <= k < |pending| ==> 0 <= pending[k] < |now|)
    && (forall k :: 0 <= k < |now| ==> (now[k].Touches(id) <==> k in pending))
  }

  ghost predicate Trimmed(before: seq<Link>, now: seq<Link>, id: int, pending: seq<int>) {
    SameElsewhere(before, now, id) && PendingAt(now, id, pending)
  }

  lemma {:induction false} IncidentTouches(nodes: seq<int>, edges: seq<Slot>, nodeMap: map<int, nat>, id: int,
                                           found: seq<int>)
    requires Bijection(nodes, nodeMap) && Placed(nodes, edges) && id in nodeMap
    requires forall k :: k in found <==>
      0 <= k < |edges| && (edges[k].src == nodeMap[id] || edges[k].tgt == nodeMap[id])
    ensures Trimmed(Resolve(nodes, edges), Resolve(nodes, edges), id, SortedDedup(found))
  {
    var ls, pending := Resolve(nodes, edges), SortedDedup(found);
    SortedDedupKeeps(found);
    forall k | 0 <= k < |ls| ensures ls[k].Touches(id) <==> k in pending {
      SlotEnds(nodes, edges, nodeMap, id, k);
    }
    forall k | 0 <= k < |pending| ensures 0 <= pending[k] < |ls| {
      var x := pending[k];
      assert x in pending;
    }
  }

  lemma TrimStep(before: seq<Link>, nodes: seq<int>, edges: seq<Slot>, id: int, toRemove: seq<int>, k: nat)
    requires Placed(nodes, edges) && k < |toRemove|
    requires Trimmed(before, Resolve(nodes, edges), id, toRemove[k..])
    ensures 0 <= toRemove[k] < |edges|
    ensures Placed(nodes, SwapRemove(edges, toRemove[k]))
    ensures Trimmed(before, Resolve(nodes, SwapRemove(edges, toRemove[k])), id, toRemove[k + 1..])
  {
    var pending := toRemove[k..];
    assert 0 <= pending[0] < |edges|;
    SwapRemoveResolves(nodes, edges, pending[0]);
    TrimFirst(before, Resolve(nodes, edges), id, pending);
    assert pending[1..] == toRemove[k + 1..];
  }

  lemma TrimFirst(before: seq<Link>, now: seq<Link>, id: int, pending: seq<int>)
    requires Trimmed(before, now, id, pending) && pending != []
    ensures Trimmed(before, SwapRemove(now, pending[0]), id, pending[1..])
  {
    var r := pending[0];
    assert r in pending;
    SwapRemoveMultiset(now, r);
    NextPending(now, id, pending);
  }

  /** The last entry, moved into the freed slot, is not one still to be removed. */
  lemma NextPending(now: seq<Link>, id: int, pending: seq<int>)
    requires PendingAt(now, id, pending) && pending != []
    ensures PendingAt(SwapRemove(now, pending[0]), id, pending[1..])
  {
    var r, n, rest := pending[0], |now| - 1, pending[1..];
    assert pending == [r] + rest;
    assert n !in rest;
    forall k | 0 <= k < n ensures SwapRemove(now, r)[k].Touches(id) <==> k in rest {
      if k == r {
        assert r !in rest;
        assert now[n].Touches(id) <==> n in pending;
      }
    }
  }

  lemma {:induction false} TrimDone(before: seq<Link>, now: seq<Link>, id: int, pending: seq<int>)
    requires Trimmed(before, now, id, pending) && pending == []
    ensures multiset(now) == Cut(multiset(before), id)
  {
    forall l | l in now ensures !l.Touches(id) {
      var k :| 0 <= k < |now| && now[k] == l;
    }
    CutUnique(multiset(before), multiset(now), id);
  }

  /** A fact without a node has no edges. */
  lemma {:induction false} AbsentUntouched(nodes: seq<int>, edges: seq<Slot>, nodeMap: map<int, nat>, id: int)
    requires Bijection(nodes, nodeMap) && Placed(nodes, edges) && id !in nodeMap
    ensures Cut(multiset(Resolve(nodes, edges)), id) == multiset(Resolve(nodes, edges))
    ensures DegreeOf(multiset(Resolve(nodes, edges)), id) == 0
  {
    var ls := Resolve(nodes, edges);
    forall l: Link | l in multiset(ls) ensures !l.Touches(id) {
      var k :| 0 <= k < |ls| && ls[k] == l;
    }
    CutUnique(multiset(ls), multiset(ls), id);
    NoEnds(multiset(ls), id);
  }

  lemma SlotEnds(nodes: seq<int>, edges: seq<Slot>, nodeMap: map<int, nat>, id: int, k: nat)
    requires Bijection(nodes, nodeMap) && Placed(nodes, edges) && id in nodeMap && k < |edges|
    ensures Resolve(nodes, edges)[k].source == id <==> edges[k].src == nodeMap[id]
    ensures Resolve(nodes, edges)[k].target == id <==> edges[k].tgt == nodeMap[id]
  {}
}
