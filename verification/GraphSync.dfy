/** Keeping the graph cache in step with the store
    (crates/me-resolve, me-forget, me-archive, me-consolidate, me-cognitive/src/apply.rs).

    Every operation commits to the store first and then patches the cache. `StepMirrors`
    says exactly when the cache still equals the committed active edges afterwards, and
    `RunMirrors` carries that over every sequential run. Three paths break it: a port call
    that commits and still returns an error; a consolidation that commits and then cannot
    list the edges to rebuild from; and a cycle report that supersedes a fact with active
    edges, because the mirror drops edges the store keeps.
  */
module GraphSync {
  import opened Collections
  import opened MemoryGraphs
  import opened MemoryStore
  import opened Forget
  import opened CycleReports

  const CONFLICT_SUPPLEMENTS_RELATION := "supplements"
  const CONFLICT_CONTRADICTS_RELATION := "contradicts"
  const CONFLICT_EDGE_WEIGHT := 1.0

  datatype Decision = Add | Update | Delete | Noop

  /** How a consolidation's write phase ends: the plan is not applied, applied and the active edges
      listed for the rebuild, or applied and the listing fails. */
  datatype Plan = PlanFailed | PlanApplied | ListingFailed

  datatype Op =
    | Ingest(fact: Fact, port: Port)
    | Resolve(decision: Decision, oldId: int, newFact: Fact, at: int, port: Port)
    | Prune(sw: Sweep, ok: bool)
    | Archive(before: int, minFacts: nat, ok: bool)
    | Consolidate(merges: seq<(int, int)>, at: int, plan: Plan)
    | ApplyCycle(lim: Limits, stamped: bool, report: Report, at: int, port: Port)

  /** A change to the cache. */
  datatype Patch = Sever(id: int) | Join(link: Link) | Rebuild(links: multiset<Link>)

  datatype Effect = Effect(db: Db, patches: seq<Patch>)

  ghost function Patched(cache: multiset<Link>, p: Patch): multiset<Link> {
    match p
    case Sever(id) => Cut(cache, id)
    case Join(l) => cache + multiset{l}
    case Rebuild(links) => links
  }

  ghost function PatchAll(cache: multiset<Link>, ps: seq<Patch>): multiset<Link>
    decreases |ps|
  {
    if ps == [] then cache else PatchAll(Patched(cache, ps[0]), ps[1..])
  }

  /** The cache is the committed active edge set. */
  ghost predicate Mirrors(db: Db, cache: multiset<Link>) {
    cache == multiset(ActiveLinks(db))
  }

  // ---------- effects on the store, and the patches that follow ----------

  function RelationOf(d: Decision): string {
    match d
    case Add => CONFLICT_SUPPLEMENTS_RELATION
    case Update => CONFLICT_CONTRADICTS_RELATION
    case _ => ""
  }

  datatype Resolved = Resolved(db: Db, newId: Option<int>, edgeId: Option<int>)

  function InsertSuccessor(db: Db, oldId: int, f: Fact, relation: string): Resolved {
    Resolved(InsertEdge(InsertFact(db, f), db.nextFact, oldId, relation, CONFLICT_EDGE_WEIGHT),
             Some(db.nextFact), Some(db.nextEdge))
  }

  function CascadeExpire(db: Db, oldId: int, now: int): Db
    requires oldId in db.facts
  {
    ExpireEdges(ExpireAndInvalidate(db, oldId, now), oldId)
  }

  /** `resolve_conflict_atomic`; `None` is a rollback, because `oldId` is not active or the new
      vector has the wrong length. */
  function ResolveAtomic(dim: nat, db: Db, d: Decision, oldId: int, f: Fact, now: int): Option<Resolved> {
    if d.Noop? then Some(Resolved(db, None, None))
    else if !db.Has(oldId) then None
    else if d.Delete? then Some(Resolved(CascadeExpire(db, oldId, now), None, None))
    else if |f.embedding| != dim then None
    else if d.Add? then Some(InsertSuccessor(db, oldId, f, RelationOf(d)))
    else Some(InsertSuccessor(CascadeExpire(db, oldId, now), oldId, f, RelationOf(d)))
  }

  function JoinSuccessor(d: Decision, oldId: int, r: Resolved): seq<Patch> {
    if r.newId.Some? && r.edgeId.Some? then
      [Join(Link(r.newId.value, oldId, EdgeData(r.edgeId.value, RelationOf(d), CONFLICT_EDGE_WEIGHT)))]
    else []
  }

  function ResolvePatches(d: Decision, oldId: int, r: Resolved): seq<Patch> {
    match d
    case Add => JoinSuccessor(d, oldId, r)
    case Update => [Sever(oldId)] + JoinSuccessor(d, oldId, r)
    case Delete => [Sever(oldId)]
    case Noop => []
  }

  function IngestEffect(dim: nat, db: Db, f: Fact, port: Port): Effect {
    Effect(if port.RolledBack? || |f.embedding| != dim then db else InsertFact(db, f), [])
  }

  function ResolveEffect(dim: nat, db: Db, d: Decision, oldId: int, f: Fact, now: int, port: Port): Effect {
    if oldId !in db.facts || port.RolledBack? then Effect(db, [])
    else
      var r := ResolveAtomic(dim, db, d, oldId, f, now);
      if r.None? then Effect(db, [])
      else if port.CommittedStale? && (d.Add? || d.Update?) then Effect(r.value.db, [])
      else Effect(r.value.db, ResolvePatches(d, oldId, r.value))
  }

  function Severs(ids: seq<int>): (ps: seq<Patch>)
    ensures |ps| == |ids|
  {
    seq(|ids|, k requires 0 <= k < |ids| => Sever(ids[k]))
  }

  ghost function PruneEffect(db: Db, cache: multiset<Link>, sw: Sweep, ok: bool): Effect
    requires db.WellFormed()
  {
    if !sw.policy.Validate() || !ok then Effect(db, [])
    else
      var ids := ActiveIds(db, db.nextFact);
      var gone := Selection(sw, db, cache, ids);
      var r := PruneAtomic(db, Scored(sw, db, cache, ids), gone, sw.now);
      if r.None? then Effect(db, []) else Effect(r.value, Severs(gone))
  }

  function ArchiveEffect(db: Db, before: int, minFacts: nat, ok: bool): Effect
    requires db.WellFormed()
  {
    var ids := Candidates(db, before, db.nextFact);
    if |ids| < minFacts || !ok then Effect(db, [])
    else Effect(HardDelete(db, Elements(ids)), Severs(ids))
  }

  /** `apply_dedup`: a loser goes only if its survivor was live when the call began. */
  function Dedup(start: Db, db: Db, merges: seq<(int, int)>, now: int): (r: (Db, seq<int>))
    decreases |merges|
  {
    if merges == [] then (db, [])
    else
      var (survivor, loser) := merges[0];
      if !start.Has(survivor) || !db.Has(loser) then Dedup(start, db, merges[1..], now)
      else
        var (last, gone) := Dedup(start, Folded(db, loser, now), merges[1..], now);
        (last, [loser] + gone)
  }

  /** The cache is rebuilt from the store if any fact expired, and if its edges could be listed. */
  ghost function ConsolidateEffect(db: Db, merges: seq<(int, int)>, now: int, plan: Plan): Effect {
    if plan.PlanFailed? then Effect(db, [])
    else
      var (after, gone) := Dedup(db, db, merges, now);
      Effect(after, if gone == [] || plan.ListingFailed? then [] else [Rebuild(multiset(ActiveLinks(after)))])
  }

  function SupersedePatches(edges: seq<Link>): seq<Patch>
    decreases |edges|
  {
    if edges == [] then [] else [Sever(edges[0].target), Join(edges[0])] + SupersedePatches(edges[1..])
  }

  function CycleEffect(db: Db, lim: Limits, stamped: bool, r: Report, now: int, port: Port): Effect {
    var done := ApplyReport(db, lim, stamped, r, now);
    if done.Err? || port.RolledBack? then Effect(db, [])
    else Effect(done.value.db, if port.CommittedStale? then [] else SupersedePatches(done.value.edges))
  }

  ghost function Commit(dim: nat, db: Db, cache: multiset<Link>, op: Op): Effect
    requires db.WellFormed()
  {
    match op
    case Ingest(f, port) => IngestEffect(dim, db, f, port)
    case Resolve(d, oldId, f, now, port) => ResolveEffect(dim, db, d, oldId, f, now, port)
    case Prune(sw, ok) => PruneEffect(db, cache, sw, ok)
    case Archive(before, minFacts, ok) => ArchiveEffect(db, before, minFacts, ok)
    case Consolidate(merges, now, plan) => ConsolidateEffect(db, merges, now, plan)
    case ApplyCycle(lim, stamped, r, now, port) => CycleEffect(db, lim, stamped, r, now, port)
  }

  // ---------- when the mirror survives one step ----------

  /** No active edge touches any of the ids. */
  ghost predicate Untouched(links: set<Link>, ids: set<int>) {
    forall l :: l in links ==> l.source !in ids && l.target !in ids
  }

  /** The facts a consolidation expires: the losers that are active, with an active survivor, when it begins. */
  function Losers(db: Db, merges: seq<(int, int)>): set<int> {
    set m | m in merges && db.Has(m.0) && db.Has(m.1) :: m.1
  }

  /** The report passes validation, and the identity guard. */
  predicate Accepted(db: Db, lim: Limits, stamped: bool, r: Report) {
    ValidateReport(db, lim, r).None? && (stamped || !NeedsIdentity(r.deltas))
  }

  /** No fact that a supersede names as successor is itself replaced by a later delta. */
  ghost predicate Unchained(deltas: seq<Delta>) {
    forall i, j :: 0 <= i < j < |deltas| && deltas[i].Supersede? ==> deltas[i].newId !in Olds(deltas[j])
  }

  /** When an operation on a mirroring cache leaves one, said of the store before it and of its arguments. */
  ghost predicate Faithful(dim: nat, db: Db, op: Op) {
    match op
    case Resolve(d, oldId, f, _, port) =>
      !(port.CommittedStale? && (d.Add? || d.Update?) && db.Has(oldId) && |f.embedding| == dim)
    case Consolidate(merges, _, plan) =>
      plan.ListingFailed? ==> Untouched(ActiveLinks(db), Losers(db, merges))
    case ApplyCycle(lim, stamped, r, _, port) =>
      !Accepted(db, lim, stamped, r) || port.RolledBack? ||
      (if port.CommittedStale? then AllOlds(r.deltas) == {}
       else Untouched(ActiveLinks(db), AllOlds(r.deltas)) && Unchained(r.deltas))
    case _ => true
  }

  lemma {:induction false} PatchSevers(cache: multiset<Link>, ids: seq<int>)
    ensures PatchAll(cache, Severs(ids)) == CutAll(cache, ids)
    decreases |ids|
  {
    if ids != [] {
      assert Severs(ids)[1..] == Severs(ids[1..]);
      PatchSevers(Cut(cache, ids[0]), ids[1..]);
    }
  }

  lemma {:induction false} PatchTwo(cache: multiset<Link>, p: Patch, q: Patch)
    ensures PatchAll(cache, [p]) == Patched(cache, p)
    ensures PatchAll(cache, [p, q]) == Patched(Patched(cache, p), q)
  {
    assert [p][1..] == [] && [p, q][1..] == [q] && [q][1..] == [];
    assert PatchAll(Patched(cache, p), [q]) == Patched(Patched(cache, p), q);
  }

  lemma SuccessorJoins(db: Db, oldId: int, f: Fact, relation: string)
    requires db.WellFormed() && oldId in db.facts
    ensures var r := InsertSuccessor(db, oldId, f, relation);
      var l := Link(db.nextFact, oldId, EdgeData(db.nextEdge, relation, CONFLICT_EDGE_WEIGHT));
      && r.db.WellFormed()
      && multiset(ActiveLinks(r.db)) == multiset(ActiveLinks(db)) + multiset{l}
  {
    SameEdgesSameLinks(db, InsertFact(db, f));
    InsertEdgeJoins(InsertFact(db, f), db.nextFact, oldId, relation, CONFLICT_EDGE_WEIGHT);
  }

  lemma {:induction false} CascadeCuts(db: Db, oldId: int, now: int)
    requires db.WellFormed() && oldId in db.facts
    ensures CascadeExpire(db, oldId, now).WellFormed() && oldId in CascadeExpire(db, oldId, now).facts
    ensures multiset(ActiveLinks(CascadeExpire(db, oldId, now))) == Cut(multiset(ActiveLinks(db)), oldId)
  {
    SameEdgesSameLinks(db, ExpireAndInvalidate(db, oldId, now));
    ExpireEdgesCuts(ExpireAndInvalidate(db, oldId, now), oldId);
  }

  ghost predicate ResolvesFaithfully(dim: nat, db: Db, d: Decision, oldId: int, f: Fact, now: int, port: Port) {
    var e := ResolveEffect(dim, db, d, oldId, f, now, port);
    && e.db.WellFormed()
    && (Mirrors(e.db, PatchAll(multiset(ActiveLinks(db)), e.patches))
        <==> Faithful(dim, db, Resolve(d, oldId, f, now, port)))
  }

  lemma AddMirrors(dim: nat, db: Db, oldId: int, f: Fact, now: int, port: Port)
    requires db.WellFormed() && db.Has(oldId) && port != RolledBack && |f.embedding| == dim
    ensures ResolvesFaithfully(dim, db, Add, oldId, f, now, port)
  {
    var cache, r := multiset(ActiveLinks(db)), ResolveAtomic(dim, db, Add, oldId, f, now);
    SuccessorJoins(db, oldId, f, RelationOf(Add));
    PatchTwo(cache, ResolvePatches(Add, oldId, r.value)[0], Sever(0));
    NewLinkMissing(cache, JoinSuccessor(Add, oldId, r.value)[0].link);
  }

  lemma DeleteMirrors(dim: nat, db: Db, oldId: int, f: Fact, now: int, port: Port)
    requires db.WellFormed() && db.Has(oldId) && port != RolledBack
    ensures ResolvesFaithfully(dim, db, Delete, oldId, f, now, port)
  {
    CascadeCuts(db, oldId, now);
    PatchTwo(multiset(ActiveLinks(db)), Sever(oldId), Sever(0));
  }

  lemma UpdateMirrors(dim: nat, db: Db, oldId: int, f: Fact, now: int, port: Port)
    requires db.WellFormed() && db.Has(oldId) && port != RolledBack && |f.embedding| == dim
    ensures ResolvesFaithfully(dim, db, Update, oldId, f, now, port)
  {
    var cache, r := multiset(ActiveLinks(db)), ResolveAtomic(dim, db, Update, oldId, f, now);
    CascadeCuts(db, oldId, now);
    SuccessorJoins(CascadeExpire(db, oldId, now), oldId, f, RelationOf(Update));
    var l := JoinSuccessor(Update, oldId, r.value)[0].link;
    PatchTwo(cache, Sever(oldId), Join(l));
    assert ResolvePatches(Update, oldId, r.value) == [Sever(oldId), Join(l)];
    FreshLink(db, l);
    assert (Cut(cache, oldId) + multiset{l})[l] == 1 && cache[l] == 0;
  }

  /** A resolution keeps the mirror unless its insert committed behind an index error. */
  lemma ResolveMirrors(dim: nat, db: Db, d: Decision, oldId: int, f: Fact, now: int, port: Port)
    requires db.WellFormed()
    ensures ResolvesFaithfully(dim, db, d, oldId, f, now, port)
  {
    if db.Has(oldId) && port != RolledBack {
      match d
      case Noop =>
      case Add => if |f.embedding| == dim { AddMirrors(dim, db, oldId, f, now, port); }
      case Delete => DeleteMirrors(dim, db, oldId, f, now, port);
      case Update => if |f.embedding| == dim { UpdateMirrors(dim, db, oldId, f, now, port); }
    }
  }

  lemma NewLinkMissing(cache: multiset<Link>, l: Link)
    ensures cache != cache + multiset{l}
  {
    assert cache[l] != (cache + multiset{l})[l];
  }

  lemma FreshLink(db: Db, l: Link)
    requires db.WellFormed() && l.data.edgeId >= db.nextEdge
    ensures l !in ActiveLinks(db)
  {}

  // ---------- prune, archive, consolidate ----------

  lemma PruneMirrors(db: Db, sw: Sweep, ok: bool)
    requires db.WellFormed()
    ensures var e := PruneEffect(db, multiset(ActiveLinks(db)), sw, ok);
      e.db.WellFormed() && Mirrors(e.db, PatchAll(multiset(ActiveLinks(db)), e.patches))
  {
    var cache, ids := multiset(ActiveLinks(db)), ActiveIds(db, db.nextFact);
    if sw.policy.Validate() && ok {
      var gone := Selection(sw, db, cache, ids);
      SelectionDistinct(sw, db, cache, ids);
      SelectionExpires(db, Scored(sw, db, cache, ids), gone, sw.now);
      PatchSevers(cache, gone);
    }
  }

  lemma ArchiveMirrors(db: Db, before: int, minFacts: nat, ok: bool)
    requires db.WellFormed()
    ensures var e := ArchiveEffect(db, before, minFacts, ok);
      e.db.WellFormed() && Mirrors(e.db, PatchAll(multiset(ActiveLinks(db)), e.patches))
  {
    var ids := Candidates(db, before, db.nextFact);
    HardDeleteCuts(db, ids);
    PatchSevers(multiset(ActiveLinks(db)), ids);
  }

  /** The store after the first merge, if it expires a fact. */
  function Folded(db: Db, loser: int, now: int): Db
    requires loser in db.facts
  {
    ExpireEdges(ExpireFact(db, loser, now), loser)
  }

  lemma {:induction false} DedupSettles(start: Db, db: Db, merges: seq<(int, int)>, now: int)
    requires db.WellFormed()
    ensures Dedup(start, db, merges, now).0.WellFormed()
    ensures Dedup(start, db, merges, now).1 == [] ==> Dedup(start, db, merges, now).0 == db
    decreases |merges|
  {
    if merges != [] {
      var (survivor, loser) := merges[0];
      var folds := start.Has(survivor) && db.Has(loser);
      DedupSettles(start, if folds then Folded(db, loser, now) else db, merges[1..], now);
    }
  }

  lemma {:induction false} DedupSized(start: Db, db: Db, merges: seq<(int, int)>, now: int, dim: nat)
    requires Dimensioned(db, dim)
    ensures Dimensioned(Dedup(start, db, merges, now).0, dim)
    decreases |merges|
  {
    if merges != [] {
      var (survivor, loser) := merges[0];
      var folds := start.Has(survivor) && db.Has(loser);
      DedupSized(start, if folds then Folded(db, loser, now) else db, merges[1..], now, dim);
    }
  }

  lemma {:induction false} DedupCuts(start: Db, db: Db, merges: seq<(int, int)>, now: int)
    requires db.WellFormed()
    ensures multiset(ActiveLinks(Dedup(start, db, merges, now).0))
      == CutAll(multiset(ActiveLinks(db)), Dedup(start, db, merges, now).1)
    decreases |merges|
  {
    if merges != [] {
      var (survivor, loser) := merges[0];
      if !start.Has(survivor) || !db.Has(loser) {
        DedupCuts(start, db, merges[1..], now);
      } else {
        var next := Folded(db, loser, now);
        DedupCuts(start, next, merges[1..], now);
        LoserCut(db, loser, now, Dedup(start, next, merges[1..], now).1);
      }
    }
  }

  lemma {:induction false} LoserCut(db: Db, loser: int, now: int, rest: seq<int>)
    requires db.WellFormed() && loser in db.facts
    ensures CutAll(multiset(ActiveLinks(Folded(db, loser, now))), rest)
      == CutAll(multiset(ActiveLinks(db)), [loser] + rest)
  {
    SameEdgesSameLinks(db, ExpireFact(db, loser, now));
    ExpireEdgesCuts(ExpireFact(db, loser, now), loser);
    assert ([loser] + rest)[1..] == rest;
  }

  /** What the loop expires is what was so from the start, each once. */
  lemma {:induction false} DedupLosers(start: Db, db: Db, merges: seq<(int, int)>, now: int)
    ensures Elements(Dedup(start, db, merges, now).1)
      == set m | m in merges && start.Has(m.0) && db.Has(m.1) :: m.1
    decreases |merges|
  {
    if merges != [] {
      var m, rest := merges[0], merges[1..];
      assert merges == [m] + rest;
      if start.Has(m.0) && db.Has(m.1) {
        var next := Folded(db, m.1, now);
        DedupLosers(start, next, rest, now);
        var gone := Dedup(start, next, rest, now).1;
        assert Elements([m.1] + gone) == {m.1} + Elements(gone);
        assert forall x :: next.Has(x) <==> db.Has(x) && x != m.1;
        assert m in merges;
      } else {
        DedupLosers(start, db, rest, now);
      }
    }
  }

  /** A consolidation keeps the mirror unless it expired a fact with an active edge and could not
      list the edges to rebuild from. */
  lemma {:induction false} ConsolidateMirrors(dim: nat, db: Db, merges: seq<(int, int)>, now: int, plan: Plan)
    requires db.WellFormed()
    ensures var e := ConsolidateEffect(db, merges, now, plan);
      && e.db.WellFormed()
      && (Mirrors(e.db, PatchAll(multiset(ActiveLinks(db)), e.patches))
          <==> Faithful(dim, db, Consolidate(merges, now, plan)))
  {
    var after, gone := DedupVerdict(db, merges, now);
    var cache := multiset(ActiveLinks(db));
    PatchTwo(cache, Rebuild(multiset(ActiveLinks(after))), Sever(0));
  }

  lemma {:induction false} DedupVerdict(db: Db, merges: seq<(int, int)>, now: int) returns (after: Db, gone: seq<int>)
    requires db.WellFormed()
    ensures (after, gone) == Dedup(db, db, merges, now) && after.WellFormed() && (gone == [] ==> after == db)
    ensures multiset(ActiveLinks(after)) == multiset(ActiveLinks(db))
      <==> Untouched(ActiveLinks(db), Losers(db, merges))
  {
    var r := Dedup(db, db, merges, now);
    after, gone := r.0, r.1;
    DedupSettles(db, db, merges, now);
    DedupCuts(db, db, merges, now);
    DedupLosers(db, db, merges, now);
    UncutIff(ActiveLinks(db), gone);
  }

  lemma {:induction false} UncutIff(links: set<Link>, ids: seq<int>)
    ensures CutAll(multiset(links), ids) == multiset(links) <==> Untouched(links, Elements(ids))
  {
    CutAllCounts(multiset(links), ids);
    if CutAll(multiset(links), ids) == multiset(links) {
      forall l | l in links ensures l.source !in ids && l.target !in ids {
        assert CutAll(multiset(links), ids)[l] == 1;
      }
    } else {
      assert exists l :: CutAll(multiset(links), ids)[l] != multiset(links)[l];
    }
  }

  // ---------- cycle reports ----------

  /** No superseded fact has an active edge when its turn comes. */
  ghost predicate NoEdgeLost(links: set<Link>, edges: seq<Link>)
    decreases |edges|
  {
    edges == [] ||
    ((forall l :: l in links ==> !l.Touches(edges[0].target)) && NoEdgeLost(links + {edges[0]}, edges[1..]))
  }

  /** The edges are new, and pairwise distinct by row id. */
  ghost predicate NewEdges(links: set<Link>, edges: seq<Link>) {
    && (forall i, j :: 0 <= i < j < |edges| ==> edges[i].data.edgeId != edges[j].data.edgeId)
    && (forall i, l :: 0 <= i < |edges| && l in links ==> l.data.edgeId != edges[i].data.edgeId)
  }

  /** An edge the cache has lost, and that is not coming back, stays lost. */
  lemma {:induction false} LostStaysLost(cache: multiset<Link>, edges: seq<Link>, l: Link)
    requires cache[l] == 0 && forall i :: 0 <= i < |edges| ==> edges[i] != l
    ensures PatchAll(cache, SupersedePatches(edges))[l] == 0
    decreases |edges|
  {
    if edges != [] {
      var next := Patched(Patched(cache, Sever(edges[0].target)), Join(edges[0]));
      PatchPair(cache, edges);
      assert edges[0] != l;
      assert next[l] == 0;
      LostStaysLost(next, edges[1..], l);
    }
  }

  lemma {:induction false} PatchPair(cache: multiset<Link>, edges: seq<Link>)
    requires edges != []
    ensures PatchAll(cache, SupersedePatches(edges))
      == PatchAll(Patched(Patched(cache, Sever(edges[0].target)), Join(edges[0])), SupersedePatches(edges[1..]))
  {
    var ps := SupersedePatches(edges);
    assert ps[0] == Sever(edges[0].target) && ps[1..][0] == Join(edges[0]);
    assert ps[1..][1..] == SupersedePatches(edges[1..]);
  }

  /** The supersede mirror equals the store exactly when it drops no edge the store keeps. */
  lemma {:induction false} SupersedeMirrors(links: set<Link>, edges: seq<Link>)
    requires NewEdges(links, edges)
    ensures PatchAll(multiset(links), SupersedePatches(edges)) == multiset(links + Elements(edges))
      <==> NoEdgeLost(links, edges)
    decreases |edges|
  {
    if edges == [] {
      assert links + Elements(edges) == links;
    } else {
      var e, rest := edges[0], edges[1..];
      assert edges == [e] + rest;
      PatchPair(multiset(links), edges);
      if l :| l in links && l.Touches(e.target) {
        EdgeLost(links, edges, l);
      } else {
        EdgeKept(links, edges);
        SupersedeMirrors(links + {e}, rest);
      }
    }
  }

  lemma EdgeKept(links: set<Link>, edges: seq<Link>)
    requires NewEdges(links, edges) && edges != []
    requires forall l :: l in links ==> !l.Touches(edges[0].target)
    ensures Patched(Patched(multiset(links), Sever(edges[0].target)), Join(edges[0])) == multiset(links + {edges[0]})
    ensures NewEdges(links + {edges[0]}, edges[1..])
    ensures links + {edges[0]} + Elements(edges[1..]) == links + Elements(edges)
  {
    var e := edges[0];
    assert edges == [e] + edges[1..];
    CutUnique(multiset(links), multiset(links), e.target);
    assert e !in links;
    assert multiset(links) + multiset{e} == multiset(links + {e});
  }

  lemma {:induction false} EdgeLost(links: set<Link>, edges: seq<Link>, l: Link)
    requires NewEdges(links, edges) && edges != [] && l in links && l.Touches(edges[0].target)
    ensures PatchAll(multiset(links), SupersedePatches(edges)) != multiset(links + Elements(edges))
  {
    var next := Patched(Patched(multiset(links), Sever(edges[0].target)), Join(edges[0]));
    PatchPair(multiset(links), edges);
    assert next[l] == 0;
    LostStaysLost(next, edges[1..], l);
    assert multiset(links + Elements(edges))[l] == 1;
  }

  /** Mirroring an applied report: with its patches, and without them when the index failed. */
  lemma AppliedMirrors(db: Db, log: Applied, after: Db)
    requires db.WellFormed() && EdgesGrown(db, log) && after.edges == log.db.edges
    ensures Mirrors(after, PatchAll(multiset(ActiveLinks(db)), SupersedePatches(log.edges)))
      <==> NoEdgeLost(ActiveLinks(db), log.edges)
    ensures Mirrors(after, multiset(ActiveLinks(db))) <==> log.edges == []
  {
    SameEdgesSameLinks(log.db, after);
    SupersedeMirrors(ActiveLinks(db), log.edges);
    if log.edges == [] {
      assert ActiveLinks(db) + Elements(log.edges) == ActiveLinks(db);
    } else {
      var x := log.edges[0];
      FreshLink(db, x);
      assert x in Elements(log.edges);
      assert multiset(ActiveLinks(after))[x] == 1;
    }
  }

  /** No edge of the store touches a target. */
  ghost predicate Untargeted(links: set<Link>, edges: seq<Link>) {
    forall l, i :: l in links && 0 <= i < |edges| ==> !l.Touches(edges[i].target)
  }

  /** No edge starts at the target of a later one. */
  ghost predicate NoneBehind(edges: seq<Link>) {
    forall i, j :: 0 <= i < j < |edges| ==> edges[i].source != edges[j].target
  }

  /** For distinct targets the replay comes down to these two. */
  lemma {:induction false} NoEdgeLostIff(links: set<Link>, edges: seq<Link>)
    requires forall i, j :: 0 <= i < j < |edges| ==> edges[i].target != edges[j].target
    ensures NoEdgeLost(links, edges) <==> Untargeted(links, edges) && NoneBehind(edges)
    decreases |edges|
  {
    if edges != [] {
      var e, rest := edges[0], edges[1..];
      NoEdgeLostIff(links + {e}, rest);
      PeelTargets(links, e, rest);
      assert edges == [e] + rest;
    }
  }

  lemma PeelTargets(links: set<Link>, e: Link, rest: seq<Link>)
    requires forall i :: 0 <= i < |rest| ==> e.target != rest[i].target
    ensures Untargeted(links, [e] + rest) && NoneBehind([e] + rest) <==>
      (forall l :: l in links ==> !l.Touches(e.target)) && Untargeted(links + {e}, rest) && NoneBehind(rest)
  {
    var all := [e] + rest;
    if Untargeted(links, all) && NoneBehind(all) {
      assert all[0] == e;
      forall i | 0 <= i < |rest| ensures e.source != rest[i].target {
        assert all[i + 1] == rest[i];
      }
      forall l, i | l in links && 0 <= i < |rest| ensures !l.Touches(rest[i].target) {
        assert all[i + 1] == rest[i];
      }
      forall i, j | 0 <= i < j < |rest| ensures rest[i].source != rest[j].target {
        assert all[i + 1] == rest[i] && all[j + 1] == rest[j];
      }
    }
    if (forall l :: l in links ==> !l.Touches(e.target)) && Untargeted(links + {e}, rest) && NoneBehind(rest) {
      assert e in links + {e};
      forall l, i | l in links && 0 <= i < |all| ensures !l.Touches(all[i].target) {
        if i > 0 {
          assert all[i] == rest[i - 1] && l in links + {e};
        }
      }
      forall i, j | 0 <= i < j < |all| ensures all[i].source != all[j].target {
        assert all[j] == rest[j - 1];
        if i > 0 {
          assert all[i] == rest[i - 1];
        } else {
          assert !e.Touches(rest[j - 1].target);
        }
      }
    }
  }

  // ---------- the edges a report adds ----------

  /** Successor and predecessor of each edge a delta adds, `next` being the next fact key. */
  function DeltaPairs(d: Delta, next: int): seq<(int, int)> {
    match d
    case Supersede(oldId, newId) => [(newId, oldId)]
    case Synthesize(sources, _) => seq(|sources|, k requires 0 <= k < |sources| => (next, sources[k]))
    case _ => []
  }

  function ReportPairs(deltas: seq<Delta>, next: int): seq<(int, int)> {
    if deltas == [] then []
    else DeltaPairs(deltas[0], next) + ReportPairs(deltas[1..], next + Creates(deltas[0]))
  }

  function Ends(edges: seq<Link>): (r: seq<(int, int)>)
    ensures |r| == |edges| && forall i :: 0 <= i < |r| ==> r[i] == (edges[i].source, edges[i].target)
  {
    seq(|edges|, i requires 0 <= i < |edges| => (edges[i].source, edges[i].target))
  }

  lemma {:induction false} SupersedeAllEnds(a: Applied, sources: seq<int>, f: Fact, newId: int, now: int)
    requires SupersedeAll(a, sources, newId, now).Ok?
    ensures Ends(SupersedeAll(a, sources, newId, now).value.edges)
      == Ends(a.edges) + DeltaPairs(Synthesize(sources, f), newId)
    decreases |sources|
  {
    if sources == [] {
      assert Ends(a.edges) + [] == Ends(a.edges);
    } else {
      var one := SupersedeOne(a, sources[0], newId, now).value;
      SupersedeAllEnds(one, sources[1..], f, newId, now);
      assert Ends(one.edges) == Ends(a.edges) + [(newId, sources[0])];
      assert DeltaPairs(Synthesize(sources, f), newId)
        == [(newId, sources[0])] + DeltaPairs(Synthesize(sources[1..], f), newId);
    }
  }

  lemma {:induction false} ApplyDeltaEnds(a: Applied, lim: Limits, d: Delta, now: int)
    requires ApplyDelta(a, lim, d, now).Ok?
    ensures Ends(ApplyDelta(a, lim, d, now).value.edges) == Ends(a.edges) + DeltaPairs(d, a.db.nextFact)
  {
    match d
    case Supersede(_, _) =>
    case Synthesize(sources, f) =>
      var next := a.db.nextFact;
      SupersedeAllEnds(a.(db := InsertFact(a.db, f), outputs := a.outputs + {next}), sources, f, next, now);
    case _ => assert Ends(a.edges) + [] == Ends(a.edges);
  }

  /** The edges handed back join, in report order, each successor to what it replaces. */
  lemma {:induction false} ApplyLogEnds(a: Applied, lim: Limits, deltas: seq<Delta>, now: int)
    requires ApplyLog(a, lim, deltas, now).Ok?
    ensures Ends(ApplyLog(a, lim, deltas, now).value.edges) == Ends(a.edges) + ReportPairs(deltas, a.db.nextFact)
    decreases |deltas|
  {
    if deltas == [] {
      assert Ends(a.edges) + [] == Ends(a.edges);
    } else {
      var b := ApplyDelta(a, lim, deltas[0], now).value;
      ApplyDeltaEnds(a, lim, deltas[0], now);
      ApplyDeltaCreates(a, lim, deltas[0], now);
      ApplyLogEnds(b, lim, deltas[1..], now);
      Regroup(Ends(a.edges), DeltaPairs(deltas[0], a.db.nextFact), ReportPairs(deltas[1..], b.db.nextFact));
    }
  }

  lemma Regroup(a: seq<(int, int)>, b: seq<(int, int)>, c: seq<(int, int)>)
    ensures (a + b) + c == a + (b + c)
  {}

  /** The predecessors: exactly the ids replaced, none twice. */
  ghost predicate Replaces(pairs: seq<(int, int)>, olds: set<int>) {
    && (forall id :: id in olds <==> exists i :: 0 <= i < |pairs| && pairs[i].1 == id)
    && forall i, j :: 0 <= i < j < |pairs| ==> pairs[i].1 != pairs[j].1
  }

  /** No successor is the predecessor of a later pair. */
  ghost predicate NoneLater(pairs: seq<(int, int)>) {
    forall i, j :: 0 <= i < j < |pairs| ==> pairs[i].0 != pairs[j].1
  }

  /** Successors of one delta: the one it names, or the fact it creates. */
  ghost predicate SuccessorIs(d: Delta, next: int, pairs: seq<(int, int)>) {
    forall i :: 0 <= i < |pairs| ==> pairs[i].0 == if d.Supersede? then d.newId else next
  }

  lemma HeadPairs(db: Db, d: Delta, next: int)
    requires d.Synthesize? ==> Distinct(d.sources)
    requires db.WellFormed() && db.nextFact <= next && forall id :: id in Olds(d) ==> db.Has(id)
    ensures Replaces(DeltaPairs(d, next), Olds(d)) && NoneLater(DeltaPairs(d, next))
    ensures SuccessorIs(d, next, DeltaPairs(d, next)) && (d.Supersede? ==> |DeltaPairs(d, next)| == 1)
  {
    var pairs := DeltaPairs(d, next);
    if d.Supersede? {
      assert pairs[0].1 == d.oldId;
    }
    if d.Synthesize? {
      forall i | 0 <= i < |pairs| ensures pairs[i].1 in Olds(d) && pairs[i].1 < next {
        var id := d.sources[i];
        assert id in d.sources;
      }
      forall id | id in Olds(d) ensures exists i :: 0 <= i < |pairs| && pairs[i].1 == id {
        var i :| 0 <= i < |d.sources| && d.sources[i] == id;
        assert pairs[i].1 == id;
      }
    }
  }

  lemma JoinReplaces(head: seq<(int, int)>, tail: seq<(int, int)>, x: set<int>, y: set<int>)
    requires Replaces(head, x) && Replaces(tail, y) && x !! y
    ensures Replaces(head + tail, x + y)
  {
    var all := head + tail;
    forall i | 0 <= i < |all| ensures all[i].1 in if i < |head| then x else y {
      assert i < |head| ==> all[i] == head[i];
      assert i >= |head| ==> all[i] == tail[i - |head|];
    }
    forall id | id in x + y ensures exists i :: 0 <= i < |all| && all[i].1 == id {
      if id in x {
        var i :| 0 <= i < |head| && head[i].1 == id;
        assert all[i].1 == id;
      } else {
        var i :| 0 <= i < |tail| && tail[i].1 == id;
        assert all[|head| + i].1 == id;
      }
    }
    forall i, j | 0 <= i < j < |all| ensures all[i].1 != all[j].1 {
      if j < |head| {
        assert all[i] == head[i] && all[j] == head[j];
      } else if i >= |head| {
        assert all[i] == tail[i - |head|] && all[j] == tail[j - |head|];
      }
    }
  }

  /** Every successor in the head differs from every predecessor in the tail. */
  ghost predicate Across(head: seq<(int, int)>, tail: seq<(int, int)>) {
    forall i, j :: 0 <= i < |head| && 0 <= j < |tail| ==> head[i].0 != tail[j].1
  }

  lemma JoinNoneLater(head: seq<(int, int)>, tail: seq<(int, int)>)
    requires NoneLater(head)
    ensures NoneLater(head + tail) <==> Across(head, tail) && NoneLater(tail)
  {
    var all := head + tail;
    if NoneLater(all) {
      forall i, j | 0 <= i < |head| && 0 <= j < |tail| ensures head[i].0 != tail[j].1 {
        assert all[i] == head[i] && all[|head| + j] == tail[j];
      }
      forall i, j | 0 <= i < j < |tail| ensures tail[i].0 != tail[j].1 {
        assert all[|head| + i] == tail[i] && all[|head| + j] == tail[j];
      }
    }
    if Across(head, tail) && NoneLater(tail) {
      forall i, j | 0 <= i < j < |all| ensures all[i].0 != all[j].1 {
        if j < |head| {
          assert all[i] == head[i] && all[j] == head[j];
        } else if i < |head| {
          assert all[i] == head[i] && all[j] == tail[j - |head|];
        } else {
          assert all[i] == tail[i - |head|] && all[j] == tail[j - |head|];
        }
      }
    }
  }

  lemma PeelUnchained(deltas: seq<Delta>)
    requires deltas != []
    ensures Unchained(deltas) <==>
      (deltas[0].Supersede? ==> deltas[0].newId !in AllOlds(deltas[1..])) && Unchained(deltas[1..])
  {
    var d, rest := deltas[0], deltas[1..];
    AllOldsAre(rest);
    if Unchained(deltas) {
      forall j | 0 <= j < |rest| && d.Supersede? ensures d.newId !in Olds(rest[j]) {
        assert deltas[j + 1] == rest[j];
      }
      forall i, j | 0 <= i < j < |rest| && rest[i].Supersede? ensures rest[i].newId !in Olds(rest[j]) {
        assert deltas[i + 1] == rest[i] && deltas[j + 1] == rest[j];
      }
    }
    if (d.Supersede? ==> d.newId !in AllOlds(rest)) && Unchained(rest) {
      forall i, j | 0 <= i < j < |deltas| && deltas[i].Supersede? ensures deltas[i].newId !in Olds(deltas[j]) {
        assert deltas[j] == rest[j - 1];
        if i > 0 {
          assert deltas[i] == rest[i - 1];
        }
      }
    }
  }

  lemma {:induction false} CrossPairs(db: Db, d: Delta, rest: seq<Delta>, next: int, head: seq<(int, int)>,
                                      tail: seq<(int, int)>)
    requires db.WellFormed() && db.nextFact <= next && Replaces(tail, AllOlds(rest)) && SuccessorIs(d, next, head)
    requires d.Supersede? ==> |head| == 1
    requires forall id :: id in AllOlds(rest) ==> db.Has(id)
    ensures Across(head, tail) <==> (d.Supersede? ==> d.newId !in AllOlds(rest))
  {
    forall i, j | 0 <= i < |head| && 0 <= j < |tail| && (d.Supersede? ==> d.newId !in AllOlds(rest))
      ensures head[i].0 != tail[j].1
    {
      var id := tail[j].1;
      assert id in AllOlds(rest) && db.Has(id);
    }
    if d.Supersede? && d.newId in AllOlds(rest) {
      var j :| 0 <= j < |tail| && tail[j].1 == d.newId;
      assert head[0].0 == tail[j].1;
    }
  }

  /** The replaced ids are in the store, and none is replaced twice. */
  ghost predicate OldsClean(db: Db, deltas: seq<Delta>) {
    && (forall i :: 0 <= i < |deltas| && deltas[i].Synthesize? ==> Distinct(deltas[i].sources))
    && (forall i, id :: 0 <= i < |deltas| && id in Olds(deltas[i]) ==> db.Has(id))
    && forall i, j :: 0 <= i < j < |deltas| ==> Olds(deltas[i]) !! Olds(deltas[j])
  }

  lemma ApplicableClean(db: Db, lim: Limits, deltas: seq<Delta>)
    requires Applicable(db, lim, deltas)
    ensures OldsClean(db, deltas)
  {
    forall i, id | 0 <= i < |deltas| && id in Olds(deltas[i]) ensures db.Has(id) {
      assert WellShaped(db, lim, deltas[i]) && id in Needs(deltas[i]);
    }
    forall i, j | 0 <= i < j < |deltas| ensures Olds(deltas[i]) !! Olds(deltas[j]) {
      forall id | id in Olds(deltas[i]) ensures id !in Olds(deltas[j]) {
        assert id in Expires(deltas[i]) && id !in Needs(deltas[j]);
      }
    }
    forall i | 0 <= i < |deltas| && deltas[i].Synthesize? ensures Distinct(deltas[i].sources) {
      assert WellShaped(db, lim, deltas[i]);
    }
  }

  lemma RestClean(db: Db, deltas: seq<Delta>)
    requires deltas != [] && OldsClean(db, deltas)
    ensures OldsClean(db, deltas[1..])
  {
    assert forall i :: 0 <= i < |deltas| - 1 ==> deltas[1..][i] == deltas[i + 1];
  }

  lemma PeelClean(db: Db, deltas: seq<Delta>)
    requires deltas != [] && OldsClean(db, deltas)
    ensures deltas[0].Synthesize? ==> Distinct(deltas[0].sources)
    ensures Olds(deltas[0]) !! AllOlds(deltas[1..])
    ensures forall id :: id in Olds(deltas[0]) + AllOlds(deltas[1..]) ==> db.Has(id)
  {
    var rest := deltas[1..];
    AllOldsAre(rest);
    forall id | id in AllOlds(rest) ensures id !in Olds(deltas[0]) && db.Has(id) {
      var j :| 0 <= j < |rest| && id in Olds(rest[j]);
      assert deltas[j + 1] == rest[j] && Olds(deltas[0]) !! Olds(deltas[j + 1]);
    }
    forall id | id in Olds(deltas[0]) ensures db.Has(id) {}
    forall id | id in Olds(deltas[0]) ensures id !in AllOlds(rest) {}
  }

  /** The pairs of a report: each id it replaces once, and the chain condition carried over from the deltas. */
  lemma {:induction false} PairsAre(db: Db, deltas: seq<Delta>, next: int, pairs: seq<(int, int)>, olds: set<int>)
    requires db.WellFormed() && OldsClean(db, deltas) && db.nextFact <= next
    requires pairs == ReportPairs(deltas, next) && olds == AllOlds(deltas)
    ensures Replaces(pairs, olds) && (NoneLater(pairs) <==> Unchained(deltas))
    decreases |deltas|
  {
    if deltas != [] {
      var tail, rest := ReportPairs(deltas[1..], next + Creates(deltas[0])), AllOlds(deltas[1..]);
      RestClean(db, deltas);
      PairsAre(db, deltas[1..], next + Creates(deltas[0]), tail, rest);
      PairsNext(db, deltas, next, tail);
      assert pairs == DeltaPairs(deltas[0], next) + tail && olds == Olds(deltas[0]) + rest;
    }
  }

  lemma PairsNext(db: Db, deltas: seq<Delta>, next: int, tail: seq<(int, int)>)
    requires deltas != [] && db.WellFormed() && db.nextFact <= next && OldsClean(db, deltas)
    requires Replaces(tail, AllOlds(deltas[1..])) && (NoneLater(tail) <==> Unchained(deltas[1..]))
    ensures Replaces(DeltaPairs(deltas[0], next) + tail, Olds(deltas[0]) + AllOlds(deltas[1..]))
    ensures NoneLater(DeltaPairs(deltas[0], next) + tail) <==> Unchained(deltas)
  {
    var d, rest := deltas[0], deltas[1..];
    var head := DeltaPairs(d, next);
    PeelClean(db, deltas);
    HeadPairs(db, d, next);
    JoinReplaces(head, tail, Olds(d), AllOlds(rest));
    JoinNoneLater(head, tail);
    CrossPairs(db, d, rest, next, head, tail);
    PeelUnchained(deltas);
  }

  // ---------- the verdict on a report ----------

  /** The replay over the edges handed back, in terms of the store and the report. */
  lemma {:induction false} ReportLosesIff(db: Db, lim: Limits, deltas: seq<Delta>, edges: seq<Link>)
    requires db.WellFormed() && Applicable(db, lim, deltas) && Ends(edges) == ReportPairs(deltas, db.nextFact)
    ensures NoEdgeLost(ActiveLinks(db), edges) <==>
      Untouched(ActiveLinks(db), AllOlds(deltas)) && Unchained(deltas)
    ensures edges == [] <==> AllOlds(deltas) == {}
  {
    ApplicableClean(db, lim, deltas);
    var pairs := Ends(edges);
    PairsAre(db, deltas, db.nextFact, pairs, AllOlds(deltas));
    forall i | 0 <= i < |edges| ensures pairs[i] == (edges[i].source, edges[i].target) {}
    NoEdgeLostIff(ActiveLinks(db), edges);
    UntargetedIff(ActiveLinks(db), edges, AllOlds(deltas));
    assert NoneBehind(edges) <==> NoneLater(pairs);
  }

  lemma UntargetedIff(links: set<Link>, edges: seq<Link>, olds: set<int>)
    requires Replaces(Ends(edges), olds)
    ensures Untargeted(links, edges) <==> Untouched(links, olds)
    ensures edges == [] <==> olds == {}
  {
    var pairs := Ends(edges);
    forall i | 0 <= i < |edges| ensures edges[i].target in olds {
      assert pairs[i].1 == edges[i].target;
    }
    forall id | id in olds ensures exists i :: 0 <= i < |edges| && edges[i].target == id {
      var i :| 0 <= i < |pairs| && pairs[i].1 == id;
      assert edges[i].target == id;
    }
    if edges != [] {
      var x := edges[0].target;
      assert x in olds;
    }
    if Untargeted(links, edges) {
      forall l, x | l in links && x in olds ensures l.source != x && l.target != x {
        var i :| 0 <= i < |edges| && edges[i].target == x;
        assert !l.Touches(edges[i].target);
      }
    }
  }

  lemma GoesIffAccepted(db: Db, lim: Limits, stamped: bool, r: Report, now: int)
    requires db.WellFormed() && Dimensioned(db, lim.dim)
    ensures ApplyReport(db, lim, stamped, r, now).Ok? <==> Accepted(db, lim, stamped, r)
  {
    var log := AppliesCleanly(db, lim, r, now);
  }

  /** A report goes through exactly when it is accepted, and then its mirror is right exactly when no active
      edge touches a fact it replaces and it chains no replacement. */
  lemma CycleMirrors(db: Db, lim: Limits, stamped: bool, r: Report, now: int, port: Port)
    requires db.WellFormed() && Dimensioned(db, lim.dim)
    ensures var e := CycleEffect(db, lim, stamped, r, now, port);
      && e.db.WellFormed()
      && (Mirrors(e.db, PatchAll(multiset(ActiveLinks(db)), e.patches))
          <==> Faithful(lim.dim, db, ApplyCycle(lim, stamped, r, now, port)))
  {
    if Accepted(db, lim, stamped, r) && port != RolledBack {
      CycleGoes(db, lim, stamped, r, now, port);
    } else {
      CycleStays(db, lim, stamped, r, now, port);
    }
  }

  lemma CycleStays(db: Db, lim: Limits, stamped: bool, r: Report, now: int, port: Port)
    requires db.WellFormed() && Dimensioned(db, lim.dim) && (!Accepted(db, lim, stamped, r) || port.RolledBack?)
    ensures CycleEffect(db, lim, stamped, r, now, port) == Effect(db, [])
    ensures PatchAll(multiset(ActiveLinks(db)), []) == multiset(ActiveLinks(db))
  {
    GoesIffAccepted(db, lim, stamped, r, now);
  }

  lemma CycleGoes(db: Db, lim: Limits, stamped: bool, r: Report, now: int, port: Port)
    requires db.WellFormed() && Dimensioned(db, lim.dim) && Accepted(db, lim, stamped, r) && !port.RolledBack?
    ensures var e := CycleEffect(db, lim, stamped, r, now, port);
      && e.db.WellFormed()
      && (Mirrors(e.db, PatchAll(multiset(ActiveLinks(db)), e.patches)) <==>
          if port.CommittedStale? then AllOlds(r.deltas) == {}
          else Untouched(ActiveLinks(db), AllOlds(r.deltas)) && Unchained(r.deltas))
  {
    GoesIffAccepted(db, lim, stamped, r, now);
    var done := ApplyReport(db, lim, stamped, r, now).value;
    CycleApplied(db, lim, stamped, r, now, done);
    CycleCommits(db, lim, stamped, r, now, port, done);
  }

  lemma CycleCommits(db: Db, lim: Limits, stamped: bool, r: Report, now: int, port: Port, done: Applied)
    requires ApplyReport(db, lim, stamped, r, now) == Ok(done) && !port.RolledBack?
    ensures CycleEffect(db, lim, stamped, r, now, port)
      == Effect(done.db, if port.CommittedStale? then [] else SupersedePatches(done.edges))
    ensures PatchAll(multiset(ActiveLinks(db)), []) == multiset(ActiveLinks(db))
  {}

  lemma CycleApplied(db: Db, lim: Limits, stamped: bool, r: Report, now: int, done: Applied)
    requires db.WellFormed() && Dimensioned(db, lim.dim) && ApplyReport(db, lim, stamped, r, now) == Ok(done)
    ensures done.db.WellFormed()
    ensures Mirrors(done.db, PatchAll(multiset(ActiveLinks(db)), SupersedePatches(done.edges)))
      <==> Untouched(ActiveLinks(db), AllOlds(r.deltas)) && Unchained(r.deltas)
    ensures Mirrors(done.db, multiset(ActiveLinks(db))) <==> AllOlds(r.deltas) == {}
  {
    StampIrrelevant(db, lim, stamped, r, now);
    var log := AppliesCleanly(db, lim, r, now);
    AppliedMirrors(db, log, done.db);
    AcceptsIff(db, lim, r);
    ApplyLogEnds(Applied(db, [], {}), lim, r.deltas, now);
    assert [] + ReportPairs(r.deltas, db.nextFact) == ReportPairs(r.deltas, db.nextFact);
    ReportLosesIff(db, lim, r.deltas, done.edges);
  }

  /** The identity guard only ever refuses a report. */
  lemma StampIrrelevant(db: Db, lim: Limits, stamped: bool, r: Report, now: int)
    requires ApplyReport(db, lim, stamped, r, now).Ok?
    ensures ApplyReport(db, lim, true, r, now) == ApplyReport(db, lim, stamped, r, now)
  {}

  /** After the operation a mirroring cache no longer mirrors. */
  ghost predicate Breaks(dim: nat, db: Db, op: Op)
    requires db.WellFormed()
  {
    var cache := multiset(ActiveLinks(db));
    !Mirrors(Commit(dim, db, cache, op).db, PatchAll(cache, Commit(dim, db, cache, op).patches))
  }

  /** Fact 1 is folded into fact 2, and its edge from fact 3 stays in the cache when the listing fails. */
  lemma ListingFailureBreaksMirror(now: int) returns (db: Db, op: Op)
    ensures op == Consolidate([(2, 1)], now, ListingFailed)
    ensures db.WellFormed() && Dimensioned(db, 0) && Breaks(0, db, op)
  {
    db := Db(map[1 := Bare(), 2 := Bare(), 3 := Bare()],
             map[1 := EdgeRow(3, 1, CONFLICT_SUPPLEMENTS_RELATION, 1.0, true)], 4, 2);
    op := Consolidate([(2, 1)], now, ListingFailed);
    assert [(2, 1)][1..] == [];
    assert Dedup(db, db, [(2, 1)], now).1 == [1] + [];
    var l := LinkOf(1, db.edges[1]);
    assert l in ActiveLinks(db) && l.target in [1];
    ConsolidateMirrors(0, db, [(2, 1)], now, ListingFailed);
  }

  function Bare(): Fact {
    Fact("", [], Semantic, 1, false, false, 0.5, 0.0, 0, 0, 0, None, None, None)
  }

  /** A report of supersedes alone. */
  function SupersedeReport(deltas: seq<Delta>): Report { Report(deltas, [], 0, 0) }

  /** Fact 2 supersedes fact 1, which fact 3 supplements: the store keeps the edge, the cache drops it. */
  lemma {:induction false} SupersedeBreaksMirror(now: int) returns (db: Db, op: Op)
    ensures op.ApplyCycle? && op.port == Committed && op.report.deltas == [Supersede(1, 2)]
    ensures db.WellFormed() && ValidateReport(db, op.lim, op.report).None?
    ensures Breaks(0, db, op)
  {
    var lim, r := Limits(0, _ => true), SupersedeReport([Supersede(1, 2)]);
    db := Db(map[1 := Bare(), 2 := Bare(), 3 := Bare()],
             map[1 := EdgeRow(3, 1, CONFLICT_SUPPLEMENTS_RELATION, 1.0, true)], 4, 2);
    op := ApplyCycle(lim, true, r, now, Committed);
    AcceptsIff(db, lim, r);
    var l := LinkOf(1, db.edges[1]);
    assert l in ActiveLinks(db) && l.target == 1;
    assert r.deltas[0] == Supersede(1, 2) && 1 in AllOlds(r.deltas);
    UnfaithfulBreaks(0, db, op);
  }

  /** Without any edge at all: b supersedes a, then c supersedes b. The second cut takes the edge the first added. */
  lemma {:induction false} ChainBreaksMirror(db: Db, lim: Limits, a: int, b: int, c: int, now: int) returns (op: Op)
    requires SoundStore(db, lim.dim) && ActiveLinks(db) == {}
    requires db.Has(a) && db.Has(b) && db.Has(c) && a != b && b != c && a != c
    ensures op == ApplyCycle(lim, true, SupersedeReport([Supersede(a, b), Supersede(b, c)]), now, Committed)
    ensures ValidateReport(db, lim, op.report).None? && Breaks(lim.dim, db, op)
  {
    var deltas := [Supersede(a, b), Supersede(b, c)];
    var r := SupersedeReport(deltas);
    op := ApplyCycle(lim, true, r, now, Committed);
    AcceptsIff(db, lim, r);
    assert deltas[0].Supersede? && deltas[0].newId in Olds(deltas[1]);
    assert !Unchained(deltas);
    UnfaithfulBreaks(lim.dim, db, op);
  }

  lemma UnfaithfulBreaks(dim: nat, db: Db, op: Op)
    requires SoundStore(db, dim) && Fits(dim, op) && !Faithful(dim, db, op)
    ensures Breaks(dim, db, op)
  {
    StepMirrors(dim, db, op);
  }

  // ---------- every run ----------

  /** Reports are checked against the engine's own dimension. */
  predicate Fits(dim: nat, op: Op) { op.ApplyCycle? ==> op.lim.dim == dim }

  /** From a mirroring cache, one operation leaves a mirroring cache exactly when it is faithful. */
  lemma StepMirrors(dim: nat, db: Db, op: Op)
    requires db.WellFormed() && Dimensioned(db, dim) && Fits(dim, op)
    ensures var e := Commit(dim, db, multiset(ActiveLinks(db)), op);
      && e.db.WellFormed()
      && (Mirrors(e.db, PatchAll(multiset(ActiveLinks(db)), e.patches)) <==> Faithful(dim, db, op))
  {
    match op
    case Ingest(f, _) => SameEdgesSameLinks(db, InsertFact(db, f));
    case Resolve(d, oldId, f, now, port) => ResolveMirrors(dim, db, d, oldId, f, now, port);
    case Prune(sw, ok) => PruneMirrors(db, sw, ok);
    case Archive(before, minFacts, ok) => ArchiveMirrors(db, before, minFacts, ok);
    case Consolidate(merges, now, plan) => ConsolidateMirrors(dim, db, merges, now, plan);
    case ApplyCycle(lim, stamped, r, now, port) => CycleMirrors(db, lim, stamped, r, now, port);
  }

  ghost predicate SoundStore(db: Db, dim: nat) { db.WellFormed() && Dimensioned(db, dim) }

  /** Whatever the cache holds, an operation leaves a well-formed store with vectors of one dimension. */
  lemma StepKeepsStore(dim: nat, db: Db, cache: multiset<Link>, op: Op)
    requires SoundStore(db, dim) && Fits(dim, op)
    ensures SoundStore(Commit(dim, db, cache, op).db, dim)
  {
    match op
    case Ingest(_, _) =>
    case Resolve(d, oldId, f, now, port) => ResolveKeepsStore(dim, db, d, oldId, f, now, port);
    case Prune(sw, ok) => PruneKeepsStore(dim, db, cache, sw, ok);
    case Archive(before, minFacts, ok) => ArchiveMirrors(db, before, minFacts, ok);
    case Consolidate(merges, now, _) =>
      DedupSettles(db, db, merges, now);
      DedupSized(db, db, merges, now, dim);
    case ApplyCycle(lim, stamped, r, now, port) => CycleKeepsStore(db, lim, stamped, r, now, port);
  }

  lemma ResolveKeepsStore(dim: nat, db: Db, d: Decision, oldId: int, f: Fact, now: int, port: Port)
    requires SoundStore(db, dim)
    ensures SoundStore(ResolveEffect(dim, db, d, oldId, f, now, port).db, dim)
  {
    ResolveMirrors(dim, db, d, oldId, f, now, port);
  }

  lemma CycleKeepsStore(db: Db, lim: Limits, stamped: bool, r: Report, now: int, port: Port)
    requires SoundStore(db, lim.dim)
    ensures SoundStore(CycleEffect(db, lim, stamped, r, now, port).db, lim.dim)
  {
    CycleMirrors(db, lim, stamped, r, now, port);
    var done := ApplyReport(db, lim, stamped, r, now);
    if done.Ok? {
      ReportSized(db, lim, stamped, r, now, done.value);
    }
  }

  lemma PruneKeepsStore(dim: nat, db: Db, cache: multiset<Link>, sw: Sweep, ok: bool)
    requires SoundStore(db, dim)
    ensures SoundStore(PruneEffect(db, cache, sw, ok).db, dim)
  {
    if sw.policy.Validate() {
      var ids := ActiveIds(db, db.nextFact);
      var gone := Selection(sw, db, cache, ids);
      SelectionDistinct(sw, db, cache, ids);
      SelectionExpires(db, Scored(sw, db, cache, ids), gone, sw.now);
    }
  }

  /** Store and cache before each operation of a run, and after the last. */
  datatype State = State(db: Db, cache: multiset<Link>)

  ghost predicate Stepped(dim: nat, s: State, op: Op, t: State) {
    && s.db.WellFormed() && Fits(dim, op)
    && var e := Commit(dim, s.db, s.cache, op);
       t.db == e.db && t.cache == PatchAll(s.cache, e.patches)
  }

  ghost predicate IsTrace(dim: nat, states: seq<State>, ops: seq<Op>) {
    && |states| == |ops| + 1
    && forall k :: 0 <= k < |ops| ==> Stepped(dim, states[k], ops[k], states[k + 1])
  }

  /** Over every sequential run of faithful operations the cache mirrors the store throughout. */
  lemma {:induction false} RunMirrors(dim: nat, states: seq<State>, ops: seq<Op>, k: nat)
    requires IsTrace(dim, states, ops) && k < |states|
    requires Mirrors(states[0].db, states[0].cache) && states[0].db.WellFormed() && Dimensioned(states[0].db, dim)
    requires forall i :: 0 <= i < k ==> Faithful(dim, states[i].db, ops[i])
    ensures Mirrors(states[k].db, states[k].cache) && states[k].db.WellFormed() && Dimensioned(states[k].db, dim)
  {
    if k > 0 {
      RunMirrors(dim, states, ops, k - 1);
      var s := states[k - 1];
      assert Stepped(dim, s, ops[k - 1], states[k]);
      StepMirrors(dim, s.db, ops[k - 1]);
      StepKeepsStore(dim, s.db, s.cache, ops[k - 1]);
    }
  }

  // ---------- what each operation commits, row by row ----------

  /** Every edge with an end in `ids` is inactive, the others are as they were. */
  ghost function Detached(edges: map<int, EdgeRow>, ids: set<int>): map<int, EdgeRow> {
    map e | e in edges ::
      if edges[e].source in ids || edges[e].target in ids then edges[e].(active := false) else edges[e]
  }

  /** A resolution that commits: the fact at `oldId` ends now, in both times, and its edges with it, if the
      decision is to replace or to delete it; the new fact gets the next key, scored at its base, and
      its one edge to `oldId`, if it is added or replaces. */
  ghost predicate Resolves(db: Db, d: Decision, oldId: int, f: Fact, now: int, after: Db)
    requires oldId in db.facts
  {
    var ended := db.facts[oldId := db.facts[oldId].(expired := Some(now), tInvalid := Some(now))];
    var added := f.(score := f.base);
    match d
    case Noop => after == db
    case Delete => after == db.(facts := ended, edges := Detached(db.edges, {oldId}))
    case Add =>
      && after.facts == db.facts[db.nextFact := added] && after.nextFact == db.nextFact + 1
      && after.edges == db.edges[db.nextEdge := EdgeRow(db.nextFact, oldId, "supplements", 1.0, true)]
      && after.nextEdge == db.nextEdge + 1
    case Update =>
      && after.facts == ended[db.nextFact := added] && after.nextFact == db.nextFact + 1
      && after.edges
         == Detached(db.edges, {oldId})[db.nextEdge := EdgeRow(db.nextFact, oldId, "contradicts", 1.0, true)]
      && after.nextEdge == db.nextEdge + 1
  }

  /** A resolution commits on an active fact, with a vector of the right length if it inserts one, and
      otherwise leaves the store alone. */
  ghost predicate Resolution(
    dim: nat, db: Db, d: Decision, oldId: int, f: Fact, now: int, port: Port, after: Db
  )
  {
    if Live(db, oldId) && port != RolledBack && (d == Add || d == Update ==> |f.embedding| == dim)
    then Resolves(db, d, oldId, f, now, after)
    else after == db
  }

  lemma ResolveRows(dim: nat, db: Db, d: Decision, oldId: int, f: Fact, now: int, port: Port)
    ensures Resolution(dim, db, d, oldId, f, now, port, ResolveEffect(dim, db, d, oldId, f, now, port).db)
  {}

  /** What a resolution means for a reader: after it the old fact is active unless it was replaced or
      deleted, and the new one is active, and linked to the old one alone, exactly if one was made. */
  lemma ResolvedReading(dim: nat, db: Db, d: Decision, oldId: int, f: Fact, now: int, port: Port)
    requires db.WellFormed() && Live(db, oldId) && port != RolledBack && |f.embedding| == dim && f.expired == None
    ensures var after := ResolveEffect(dim, db, d, oldId, f, now, port).db;
      && (Live(after, oldId) <==> d == Add || d == Noop)
      && (Live(after, db.nextFact) <==> d == Add || d == Update)
      && (forall id :: id != oldId && id != db.nextFact ==> (Live(after, id) <==> Live(db, id)))
      && forall l :: l in ActiveLinks(after) && l.Touches(db.nextFact) ==> l.source == db.nextFact && l.target == oldId
  {
    ResolveRows(dim, db, d, oldId, f, now, port);
  }

  /** A stored fact gets the next key and starts with its base as its score. */
  lemma IngestRow(dim: nat, db: Db, f: Fact, port: Port)
    ensures IngestEffect(dim, db, f, port).db
      == if port == RolledBack || |f.embedding| != dim then db
         else db.(facts := db.facts[db.nextFact := f.(score := f.base)], nextFact := db.nextFact + 1)
  {}

  /** What an archive run takes: facts expired before the cutoff that are not pinned. */
  ghost function Archivable(db: Db, before: int): set<int> {
    set id | id in db.facts && !db.facts[id].pinned && db.facts[id].expired.Some? && db.facts[id].expired.value < before
  }

  /** An archive run deletes what is archivable and every edge at it, and runs only from `minFacts` up. */
  lemma ArchiveRows(db: Db, before: int, minFacts: nat, ok: bool)
    requires db.WellFormed()
    ensures var gone, after := Archivable(db, before), ArchiveEffect(db, before, minFacts, ok).db;
      after == if !ok || |gone| < minFacts then db
      else db.(
        facts := map id | id in db.facts && id !in gone :: db.facts[id],
        edges := map e | e in db.edges && {db.edges[e].source, db.edges[e].target} !! gone :: db.edges[e])
  {
    var ids := Candidates(db, before, db.nextFact);
    assert Elements(ids) == Archivable(db, before);
    DistinctSize(ids);
    DeletedRows(db, Archivable(db, before));
  }

  lemma DeletedRows(db: Db, gone: set<int>)
    ensures HardDelete(db, gone) == db.(
      facts := map id | id in db.facts && id !in gone :: db.facts[id],
      edges := map e | e in db.edges && {db.edges[e].source, db.edges[e].target} !! gone :: db.edges[e])
  {
    var kept := map e | e in db.edges && {db.edges[e].source, db.edges[e].target} !! gone :: db.edges[e];
    forall e | e in db.edges
      ensures {db.edges[e].source, db.edges[e].target} !! gone
        <==> db.edges[e].source !in gone && db.edges[e].target !in gone
    {
      assert db.edges[e].source in {db.edges[e].source, db.edges[e].target};
      assert db.edges[e].target in {db.edges[e].source, db.edges[e].target};
    }
    assert HardDelete(db, gone).edges == kept;
  }

  /** A consolidation expires the second fact of every merge whose two facts are active at its start, with
      the edges there, and touches nothing else. */
  lemma ConsolidateRows(db: Db, merges: seq<(int, int)>, now: int, plan: Plan)
    ensures var gone := set m | m in merges && Live(db, m.0) && Live(db, m.1) :: m.1;
      ConsolidateEffect(db, merges, now, plan).db
      == if plan.PlanFailed? then db else Without(db, gone, now)
  {
    DedupLosers(db, db, merges, now);
    DedupWithout(db, db, merges, now);
  }

  ghost function Without(db: Db, gone: set<int>, now: int): Db {
    db.(facts := map id | id in db.facts :: if id in gone then db.facts[id].(expired := Some(now)) else db.facts[id],
        edges := Detached(db.edges, gone))
  }

  lemma {:induction false} DedupWithout(start: Db, db: Db, merges: seq<(int, int)>, now: int)
    ensures Dedup(start, db, merges, now).0 == Without(db, Elements(Dedup(start, db, merges, now).1), now)
    decreases |merges|
  {
    if merges == [] {
      WithoutNone(db, now);
    } else {
      var (survivor, loser) := merges[0];
      if !start.Has(survivor) || !db.Has(loser) {
        DedupWithout(start, db, merges[1..], now);
      } else {
        var next := Folded(db, loser, now);
        DedupWithout(start, next, merges[1..], now);
        WithoutMore(db, loser, Dedup(start, next, merges[1..], now).1, now);
      }
    }
  }

  lemma WithoutNone(db: Db, now: int)
    ensures Without(db, Elements([]), now) == db
  {
    assert Without(db, Elements([]), now).facts == db.facts;
    assert Without(db, Elements([]), now).edges == db.edges;
  }

  lemma WithoutMore(db: Db, loser: int, gone: seq<int>, now: int)
    requires db.Has(loser)
    ensures Without(Folded(db, loser, now), Elements(gone), now) == Without(db, Elements([loser] + gone), now)
  {
    var one, all := Without(Folded(db, loser, now), Elements(gone), now), Without(db, Elements([loser] + gone), now);
    assert Elements([loser] + gone) == {loser} + Elements(gone);
    assert one.facts == all.facts;
    DetachedMore(db, loser, Elements(gone));
  }

  lemma DetachedMore(db: Db, loser: int, gone: set<int>)
    ensures Detached(ExpireEdges(db, loser).edges, gone) == Detached(db.edges, {loser} + gone)
  {
    assert ExpireEdges(db, loser).edges == Detached(db.edges, {loser});
  }

  /** A prune of a mirrored store is one sweep, if the policy is valid, and nothing otherwise. */
  lemma PruneIsSweep(db: Db, sw: Sweep, ok: bool)
    requires db.WellFormed()
    ensures var p := sw.policy;
      var valid := p.halfLife > 0.0 && (forall t :: t in p.overrides ==> p.overrides[t] > 0.0)
        && 0.0 <= p.minImportance <= 1.0 && p.recencyWeight >= 0.0 && p.frequencyWeight >= 0.0
        && p.degreeWeight >= 0.0 && p.baseWeight >= 0.0;
      PruneEffect(db, multiset(ActiveLinks(db)), sw, ok).db == if valid && ok then PruneOnce(sw, db) else db
  {}

  // ---------- mirror loops ----------

  /** The match that mirrors a resolution after its commit. */
  method MirrorResolution(graph: MemoryGraph, d: Decision, oldId: int, r: Resolved)
    requires graph.Valid()
    modifies graph
    ensures graph.Valid() && graph.Links() == PatchAll(old(graph.Links()), ResolvePatches(d, oldId, r))
  {
    ghost var cache := graph.Links();
    PatchTwo(cache, Sever(oldId), Sever(0));
    match d {
      case Add =>
        if r.newId.Some? && r.edgeId.Some? {
          var data := EdgeData(r.edgeId.value, RelationOf(d), CONFLICT_EDGE_WEIGHT);
          PatchTwo(cache, Join(Link(r.newId.value, oldId, data)), Sever(0));
          graph.AddEdge(r.newId.value, oldId, data);
        }
      case Update =>
        graph.RemoveEdgesByFact(oldId);
        if r.newId.Some? && r.edgeId.Some? {
          var data := EdgeData(r.edgeId.value, RelationOf(d), CONFLICT_EDGE_WEIGHT);
          PatchTwo(cache, Sever(oldId), Join(Link(r.newId.value, oldId, data)));
          assert ResolvePatches(d, oldId, r) == [Sever(oldId), Join(Link(r.newId.value, oldId, data))];
          graph.AddEdge(r.newId.value, oldId, data);
        }
      case Delete =>
        graph.RemoveEdgesByFact(oldId);
      case Noop =>
    }
  }

  /** Scores and the sub-threshold ids, degrees read from the cache. */
  method ScoreAll(graph: MemoryGraph, sw: Sweep, db: Db, ids: seq<int>)
    returns (scored: map<int, real>, toExpire: seq<int>)
    requires graph.Valid() && sw.policy.Validate() && forall k :: 0 <= k < |ids| ==> ids[k] in db.facts
    ensures scored == Scored(sw, db, graph.Links(), ids)
    ensures toExpire == Selection(sw, db, graph.Links(), ids)
  {
    scored, toExpire := map[], [];
    ghost var cache := graph.Links();
    for k := 0 to |ids|
      invariant scored == Scored(sw, db, cache, ids[..k])
      invariant toExpire == Selection(sw, db, cache, ids[..k])
    {
      ScoreStep(sw, db, cache, ids, k);
      var f := db.facts[ids[k]];
      var degree := graph.Degree(ids[k]);
      var score := ComputeImportance(sw.num, f, degree, sw.now, sw.policy);
      scored := scored[ids[k] := score];
      if !sw.Protects(f) && score < sw.policy.minImportance {
        toExpire := toExpire + [ids[k]];
      }
    }
    assert ids[..|ids|] == ids;
  }

  lemma {:induction false} ScoreStep(sw: Sweep, db: Db, cache: multiset<Link>, ids: seq<int>, k: nat)
    requires sw.policy.Validate() && k < |ids| && forall j :: 0 <= j < |ids| ==> ids[j] in db.facts
    ensures var f, d := db.facts[ids[k]], DegreeOf(cache, ids[k]);
      && Scored(sw, db, cache, ids[..k + 1])
         == Scored(sw, db, cache, ids[..k])[ids[k] := ComputeImportance(sw.num, f, d, sw.now, sw.policy)]
      && Selection(sw, db, cache, ids[..k + 1])
         == Selection(sw, db, cache, ids[..k]) + if sw.Keeps(f, d) then [] else [ids[k]]
  {
    assert ids[..k + 1] == ids[..k] + [ids[k]] && ids[..k + 1][..k] == ids[..k];
  }

  method SeverEach(graph: MemoryGraph, ids: seq<int>)
    requires graph.Valid()
    modifies graph
    ensures graph.Valid() && graph.Links() == PatchAll(old(graph.Links()), Severs(ids))
  {
    ghost var cache := graph.Links();
    assert Severs(ids)[0..] == Severs(ids);
    for k := 0 to |ids|
      invariant graph.Valid()
      invariant PatchAll(cache, Severs(ids)) == PatchAll(graph.Links(), Severs(ids)[k..])
    {
      assert Severs(ids)[k..][1..] == Severs(ids)[k + 1..];
      graph.RemoveEdgesByFact(ids[k]);
    }
  }

  /** Archival drops the edges and then the node, whose slot is refilled by swap-remove. */
  method DropEach(graph: MemoryGraph, ids: seq<int>)
    requires graph.Valid()
    modifies graph
    ensures graph.Valid() && graph.Links() == PatchAll(old(graph.Links()), Severs(ids))
    ensures graph.nodeMap.Keys == old(graph.nodeMap).Keys - Elements(ids)
  {
    ghost var cache, keys := graph.Links(), graph.nodeMap.Keys;
    assert Severs(ids)[0..] == Severs(ids);
    for k := 0 to |ids|
      invariant graph.Valid()
      invariant PatchAll(cache, Severs(ids)) == PatchAll(graph.Links(), Severs(ids)[k..])
      invariant graph.nodeMap.Keys == keys - Elements(ids[..k])
    {
      assert Severs(ids)[k..][1..] == Severs(ids)[k + 1..];
      KeysStep(keys, ids, k);
      Drop(graph, ids[k]);
    }
    assert ids[..|ids|] == ids;
  }

  lemma KeysStep(keys: set<int>, ids: seq<int>, k: nat)
    requires k < |ids|
    ensures keys - Elements(ids[..k + 1]) == keys - Elements(ids[..k]) - {ids[k]}
  {
    assert ids[..k + 1] == ids[..k] + [ids[k]];
  }

  method Drop(graph: MemoryGraph, id: int)
    requires graph.Valid()
    modifies graph
    ensures graph.Valid() && graph.Links() == Cut(old(graph.Links()), id)
    ensures graph.nodeMap.Keys == old(graph.nodeMap).Keys - {id}
  {
    CutTwice(graph.Links(), id);
    graph.RemoveEdgesByFact(id);
    graph.RemoveNode(id);
  }

  method MirrorSupersedes(graph: MemoryGraph, edges: seq<Link>)
    requires graph.Valid()
    modifies graph
    ensures graph.Valid() && graph.Links() == PatchAll(old(graph.Links()), SupersedePatches(edges))
  {
    ghost var cache := graph.Links();
    assert edges[0..] == edges;
    for k := 0 to |edges|
      invariant graph.Valid()
      invariant PatchAll(cache, SupersedePatches(edges)) == PatchAll(graph.Links(), SupersedePatches(edges[k..]))
    {
      assert edges[k..][1..] == edges[k + 1..];
      PatchPair(graph.Links(), edges[k..]);
      graph.RemoveEdgesByFact(edges[k].target);
      graph.AddEdge(edges[k].source, edges[k].target, edges[k].data);
    }
  }

  // ---------- the engine ----------

  class Engine {
    const dim: nat
    var db: Db
    var graph: MemoryGraph

    ghost predicate Valid()
      reads this, graph
    {
      graph.Valid() && db.WellFormed() && Dimensioned(db, dim)
    }

    ghost function Now(): State
      requires graph.Valid()
      reads this, graph
    {
      State(db, graph.Links())
    }

    /** Open on a committed store: the cache is rebuilt from its active edges. */
    constructor (dim: nat, start: Db)
      requires start.WellFormed() && Dimensioned(start, dim)
      ensures Valid() && fresh(graph) && this.dim == dim && db == start && Mirrors(db, graph.Links())
    {
      this.dim := dim;
      db := start;
      graph := new MemoryGraph.FromActiveEdges(ActiveEdgeList(start, start.nextEdge));
      new;
      EdgeListIsActive(db);
    }

    method ResolveConflict(d: Decision, oldId: int, newFact: Fact, now: int, port: Port)
      requires Valid()
      modifies this, graph
      ensures graph == old(graph) && graph.Valid()
      ensures var e := ResolveEffect(dim, old(db), d, oldId, newFact, now, port);
        db == e.db && graph.Links() == PatchAll(old(graph.Links()), e.patches)
      ensures Resolution(dim, old(db), d, oldId, newFact, now, port, db)
    {
      ResolveRows(dim, db, d, oldId, newFact, now, port);
      if oldId !in db.facts || port.RolledBack? {
        return;
      }
      var r := ResolveAtomic(dim, db, d, oldId, newFact, now);
      if r.None? {
        return;
      }
      db := r.value.db;
      if port.CommittedStale? && (d.Add? || d.Update?) {
        return;
      }
      MirrorResolution(graph, d, oldId, r.value);
    }

    /** Score every active fact on its degree, expire what falls below, then mirror. */
    method Prune(sw: Sweep, ok: bool)
      requires Valid()
      modifies this, graph
      ensures graph == old(graph) && graph.Valid()
      ensures var e := PruneEffect(old(db), old(graph.Links()), sw, ok);
        db == e.db && graph.Links() == PatchAll(old(graph.Links()), e.patches)
    {
      if !sw.policy.Validate() {
        return;
      }
      var scored, toExpire := ScoreAll(graph, sw, db, ActiveIds(db, db.nextFact));
      var r := PruneAtomic(db, scored, toExpire, sw.now);
      if r.None? || !ok {
        return;
      }
      db := r.value;
      SeverEach(graph, toExpire);
    }

    /** The store half of an archive run, then edges and node of each archived fact. */
    method Archive(before: int, minFacts: nat, ok: bool)
      requires Valid()
      modifies this, graph
      ensures graph == old(graph) && graph.Valid()
      ensures var e := ArchiveEffect(old(db), before, minFacts, ok);
        db == e.db && graph.Links() == PatchAll(old(graph.Links()), e.patches)
      ensures graph.nodeMap.Keys == old(graph.nodeMap).Keys - (old(db).facts.Keys - db.facts.Keys)
    {
      var ids := Candidates(db, before, db.nextFact);
      if |ids| < minFacts || !ok {
        return;
      }
      db := HardDelete(db, Elements(ids));
      DropEach(graph, ids);
    }

    /** Apply the planned merges; rebuild the cache from the store if any fact expired. */
    method Consolidate(merges: seq<(int, int)>, now: int, plan: Plan)
      requires Valid()
      modifies this, graph
      ensures graph.Valid() && (graph == old(graph) || fresh(graph))
      ensures var e := ConsolidateEffect(old(db), merges, now, plan);
        db == e.db && graph.Links() == PatchAll(old(graph.Links()), e.patches)
    {
      if plan.PlanFailed? {
        return;
      }
      ghost var cache := graph.Links();
      DedupSettles(db, db, merges, now);
      var (after, gone) := Dedup(db, db, merges, now);
      db := after;
      if gone != [] {
        if plan.ListingFailed? {
          return;
        }
        EdgeListIsActive(db);
        PatchTwo(cache, Rebuild(multiset(ActiveLinks(db))), Sever(0));
        graph := new MemoryGraph.FromActiveEdges(ActiveEdgeList(db, db.nextEdge));
      }
    }

    /** Apply a report below the seam, then mirror its supersede edges one by one. */
    method ApplyCycleReport(lim: Limits, stamped: bool, r: Report, now: int, port: Port)
      requires Valid()
      modifies this, graph
      ensures graph == old(graph) && graph.Valid()
      ensures var e := CycleEffect(old(db), lim, stamped, r, now, port);
        db == e.db && graph.Links() == PatchAll(old(graph.Links()), e.patches)
    {
      var done := ApplyReport(db, lim, stamped, r, now);
      if done.Err? || port.RolledBack? {
        return;
      }
      db := done.value.db;
      if port.CommittedStale? {
        return;
      }
      MirrorSupersedes(graph, done.value.edges);
    }

    method Step(op: Op)
      requires Valid() && Fits(dim, op)
      modifies this, graph
      ensures Valid() && (graph == old(graph) || fresh(graph))
      ensures Stepped(dim, old(Now()), op, Now())
    {
      StepKeepsStore(dim, db, graph.Links(), op);
      match op
      case Ingest(f, port) => db := IngestEffect(dim, db, f, port).db;
      case Resolve(d, oldId, f, now, port) => ResolveConflict(d, oldId, f, now, port);
      case Prune(sw, ok) => Prune(sw, ok);
      case Archive(before, minFacts, ok) => Archive(before, minFacts, ok);
      case Consolidate(merges, now, plan) => Consolidate(merges, now, plan);
      case ApplyCycle(lim, stamped, r, now, port) => ApplyCycleReport(lim, stamped, r, now, port);
    }
  }

  lemma {:induction false} CutTwice(links: multiset<Link>, id: int)
    ensures Cut(Cut(links, id), id) == Cut(links, id)
  {
    CutUnique(Cut(links, id), Cut(links, id), id);
  }
}
