/** The committed store behind the port, with the writes the port contracts describe
    (crates/me-storage/src/graph.rs, cold_storage.rs; SQLite bodies in me-backend-sqlite).
  */
module MemoryStore {
  import opened Collections
  import opened MemoryGraphs

  datatype FactType = Episodic | Semantic | Procedural

  datatype Fact = Fact(
    content: string, embedding: seq<real>, factType: FactType, scopeId: int,
    pinned: bool, marked: bool, base: real, score: real, accessCount: nat, lastAccessed: int,
    created: int, expired: Option<int>, tValid: Option<int>, tInvalid: Option<int>)
  {
    predicate Active() { expired.None? }

    /** What the #209 cursor probe counts: active, not pinned, not dream-marked. */
    predicate CallerWritten() { Active() && !pinned && !marked }
  }

  /** How a port call ends: rolled back, committed, or committed and then failed with the index error. */
  datatype Port = RolledBack | Committed | CommittedStale

  datatype EdgeRow = EdgeRow(source: int, target: int, relation: string, weight: real, active: bool)

  /** `nextFact` and `nextEdge` only grow: both keys are AUTOINCREMENT. */
  datatype Db = Db(facts: map<int, Fact>, edges: map<int, EdgeRow>, nextFact: int, nextEdge: int)
  {
    predicate Has(id: int) { id in facts && facts[id].Active() }

    ghost predicate WellFormed() {
      && 0 <= nextFact && 0 <= nextEdge
      && (forall id :: id in facts ==> 0 <= id < nextFact)
      && (forall e :: e in edges ==> 0 <= e < nextEdge && edges[e].source in facts && edges[e].target in facts)
    }
  }

  ghost predicate Live(db: Db, id: int) { id in db.facts && db.facts[id].expired.None? }

  function LinkOf(e: int, row: EdgeRow): Link {
    Link(row.source, row.target, EdgeData(e, row.relation, row.weight))
  }

  /** Stored vectors have the engine's dimension. */
  ghost predicate Dimensioned(db: Db, dim: nat) {
    forall id :: id in db.facts ==> |db.facts[id].embedding| == dim
  }

  /** The committed active edge set. */
  ghost function ActiveLinks(db: Db): set<Link> {
    set e | e in db.edges && db.edges[e].active :: LinkOf(e, db.edges[e])
  }

  // ---------- writes ----------

  /** The insert seeds the materialized score from the base prior. */
  function InsertFact(db: Db, f: Fact): Db {
    db.(facts := db.facts[db.nextFact := f.(score := f.base)], nextFact := db.nextFact + 1)
  }

  function InsertEdge(db: Db, source: int, target: int, relation: string, weight: real): Db {
    db.(edges := db.edges[db.nextEdge := EdgeRow(source, target, relation, weight, true)], nextEdge := db.nextEdge + 1)
  }

  function ExpireFact(db: Db, id: int, now: int): Db
    requires id in db.facts
  {
    db.(facts := db.facts[id := db.facts[id].(expired := Some(now))])
  }

  function ExpireAndInvalidate(db: Db, id: int, now: int): Db
    requires id in db.facts
  {
    db.(facts := db.facts[id := db.facts[id].(expired := Some(now), tInvalid := Some(now))])
  }

  /** Soft-expire every active edge with `id` at either end. */
  function ExpireEdges(db: Db, id: int): Db {
    db.(edges := map e | e in db.edges ::
      if db.edges[e].source == id || db.edges[e].target == id then db.edges[e].(active := false) else db.edges[e])
  }

  /** Hard-delete facts and every edge incident to one of them. */
  function HardDelete(db: Db, ids: set<int>): Db {
    db.(facts := map id | id in db.facts && id !in ids :: db.facts[id],
        edges := map e | e in db.edges && db.edges[e].source !in ids && db.edges[e].target !in ids :: db.edges[e])
  }

  // ---------- listings, ascending by id ----------

  function ActiveIds(db: Db, upTo: nat): (r: seq<int>)
    ensures forall k :: 0 <= k < |r| ==> 0 <= r[k] < upTo && db.Has(r[k])
    ensures forall id :: id in r <==> 0 <= id < upTo && db.Has(id)
    ensures forall i, j :: 0 <= i < j < |r| ==> r[i] < r[j]
  {
    if upTo == 0 then []
    else ActiveIds(db, upTo - 1) + if db.Has(upTo - 1) then [upTo - 1] else []
  }

  /** Expired before `before` and not pinned: what `list_archive_candidates` selects. */
  predicate ArchiveCandidate(f: Fact, before: int) {
    !f.pinned && f.expired.Some? && f.expired.value < before
  }

  function Candidates(db: Db, before: int, upTo: nat): (r: seq<int>)
    ensures forall k :: 0 <= k < |r| ==> 0 <= r[k] < upTo && r[k] in db.facts
    ensures forall id :: id in r <==> 0 <= id < upTo && id in db.facts && ArchiveCandidate(db.facts[id], before)
    ensures forall i, j :: 0 <= i < j < |r| ==> r[i] < r[j]
  {
    if upTo == 0 then []
    else
      var id := upTo - 1;
      var chosen := id in db.facts && ArchiveCandidate(db.facts[id], before);
      Candidates(db, before, id) + if chosen then [id] else []
  }

  /** `list_active_edges`. */
  function ActiveEdgeList(db: Db, upTo: nat): (r: seq<Link>)
    ensures forall l :: multiset(r)[l] == if l in ActiveLinks(db) && 0 <= l.data.edgeId < upTo then 1 else 0
  {
    if upTo == 0 then []
    else
      var e := upTo - 1;
      var init := ActiveEdgeList(db, e);
      if e in db.edges && db.edges[e].active then
        assert LinkOf(e, db.edges[e]) in ActiveLinks(db);
        init + [LinkOf(e, db.edges[e])]
      else init
  }

  lemma {:induction false} EdgeListIsActive(db: Db)
    requires db.WellFormed()
    ensures multiset(ActiveEdgeList(db, db.nextEdge)) == multiset(ActiveLinks(db))
  {
    var r := ActiveEdgeList(db, db.nextEdge);
    assert forall l :: multiset(r)[l] == multiset(ActiveLinks(db))[l];
  }

  // ---------- what each write does to the active edges ----------

  lemma {:induction false} ExpireEdgesCuts(db: Db, id: int)
    ensures multiset(ActiveLinks(ExpireEdges(db, id))) == Cut(multiset(ActiveLinks(db)), id)
  {
    var after := ExpireEdges(db, id);
    forall l ensures l in ActiveLinks(after) <==> l in ActiveLinks(db) && !l.Touches(id) {
      if l in ActiveLinks(db) && !l.Touches(id) {
        assert after.edges[l.data.edgeId] == db.edges[l.data.edgeId];
      }
    }
    CutUnique(multiset(ActiveLinks(db)), multiset(ActiveLinks(after)), id);
  }

  lemma InsertEdgeJoins(db: Db, source: int, target: int, relation: string, weight: real)
    requires db.WellFormed()
    ensures Link(source, target, EdgeData(db.nextEdge, relation, weight)) !in ActiveLinks(db)
    ensures ActiveLinks(InsertEdge(db, source, target, relation, weight))
      == ActiveLinks(db) + {Link(source, target, EdgeData(db.nextEdge, relation, weight))}
    ensures multiset(ActiveLinks(InsertEdge(db, source, target, relation, weight)))
      == multiset(ActiveLinks(db)) + multiset{Link(source, target, EdgeData(db.nextEdge, relation, weight))}
  {
    var after := InsertEdge(db, source, target, relation, weight);
    var added := Link(source, target, EdgeData(db.nextEdge, relation, weight));
    forall l ensures l in ActiveLinks(after) <==> l in ActiveLinks(db) || l == added {
      if l in ActiveLinks(db) {
        assert after.edges[l.data.edgeId] == db.edges[l.data.edgeId];
      }
      if l == added {
        assert after.edges[db.nextEdge].active && LinkOf(db.nextEdge, after.edges[db.nextEdge]) == l;
      }
    }
  }

  lemma SameEdgesSameLinks(a: Db, b: Db)
    requires a.edges == b.edges
    ensures ActiveLinks(a) == ActiveLinks(b)
  {}

  /** Cutting the ids one after another leaves the edges that touch none of them. */
  ghost function CutAll(links: multiset<Link>, ids: seq<int>): multiset<Link> {
    if ids == [] then links else CutAll(Cut(links, ids[0]), ids[1..])
  }

  lemma {:induction false} CutAllCounts(links: multiset<Link>, ids: seq<int>)
    ensures forall l :: CutAll(links, ids)[l] == if l.source in ids || l.target in ids then 0 else links[l]
  {
    if ids != [] {
      CutAllCounts(Cut(links, ids[0]), ids[1..]);
      assert ids == [ids[0]] + ids[1..];
    }
  }

  lemma {:induction false} HardDeleteCuts(db: Db, ids: seq<int>)
    ensures multiset(ActiveLinks(HardDelete(db, Elements(ids)))) == CutAll(multiset(ActiveLinks(db)), ids)
  {
    var after := HardDelete(db, Elements(ids));
    CutAllCounts(multiset(ActiveLinks(db)), ids);
    forall l ensures l in ActiveLinks(after) <==> l in ActiveLinks(db) && l.source !in ids && l.target !in ids {
      if l in ActiveLinks(db) && l.source !in ids && l.target !in ids {
        assert after.edges[l.data.edgeId] == db.edges[l.data.edgeId];
      }
    }
    assert forall l :: multiset(ActiveLinks(after))[l] == CutAll(multiset(ActiveLinks(db)), ids)[l];
  }
}
