/** Cycle reports: the delta log, its validation and its application
    (crates/me-cognitive/src/apply.rs over crates/me-backend-sqlite/src/sqlite/consolidation.rs).

    Validation walks the log once with a set of ids expired so far. `AcceptsIff` gives the
    same verdict without the walk; `AppliesCleanly` and `InvariantM` say what an accepted
    report then does to the store.
  */
module CycleReports {
  import opened Collections
  import opened MemoryGraphs
  import opened MemoryStore

  const MAX_ADJUSTMENT := 2
  const IMPORTANCE_STEP := 0.05
  const SUPERSEDES := "supersedes"

  /** `i16`, the width of an adjustment. */
  type Quanta = n: int | -0x8000 <= n < 0x8000

  /** `i16::abs` without overflow checks: the least value has no negation and stays itself. */
  function Abs16(n: Quanta): Quanta { if n == -0x8000 then n else if n < 0 then -n else n }

  datatype Delta =
    | AddFact(fact: Fact)
    | AdjustScore(factId: int, adjustment: Quanta)
    | Quarantine(factId: int)
    | Promote(factId: int)
    | TagOutcome(factId: int)
    | Supersede(oldId: int, newId: int)
    | Synthesize(sources: seq<int>, fact: Fact)

  datatype Error =
    | UnknownFact(id: int) | AlreadyExpired(id: int) | SupersedeMissing(id: int) | SynthesizeNoSources
    | AdjustmentOutOfRange(id: int) | EmbeddingDimension | PolicyParameter | PayloadTooLarge
    | NotFound(id: int) | NoEmbeddingIdentity

  /** Engine dimension and the payload size check. */
  datatype Limits = Limits(dim: nat, fits: string -> bool)

  datatype Report = Report(deltas: seq<Delta>, processed: seq<int>, windowStart: int, windowEnd: int)

  // ---------- the input window ----------

  /** What the input query returns: each active fact once. */
  ghost predicate ActiveWindow(db: Db, window: seq<int>) {
    Distinct(window) && forall id :: id in window ==> db.Has(id)
  }

  /** The window's facts by id. */
  type Facts = map<int, Fact>

  /** The facts of an active window. */
  function ById(db: Db, window: seq<int>): (r: Facts)
    requires ActiveWindow(db, window)
    ensures r.Keys == Elements(window)
  {
    map id | id in Elements(window) :: db.facts[id]
  }

  // ---------- validation ----------

  function ValidateNewFact(lim: Limits, f: Fact): Option<Error> {
    if |f.embedding| != lim.dim then Some(EmbeddingDimension)
    else if !(0.0 <= f.base <= 1.0) then Some(PolicyParameter)
    else if !lim.fits(f.content) then Some(PayloadTooLarge)
    else None
  }

  /** The fact exists and is neither expired nor expired earlier in the report. */
  function RequireActive(db: Db, gone: set<int>, id: int, missing: Error): Option<Error> {
    if id !in db.facts then Some(missing)
    else if !db.facts[id].Active() || id in gone then Some(AlreadyExpired(id))
    else None
  }

  /** Walk a merge group: every source must be active, and counts as expired from then on. */
  function ValidateSources(db: Db, gone: set<int>, sources: seq<int>): Result<set<int>, Error>
    decreases |sources|
  {
    if sources == [] then Ok(gone)
    else
      var bad := RequireActive(db, gone, sources[0], UnknownFact(sources[0]));
      if bad.Some? then Err(bad.value) else ValidateSources(db, gone + {sources[0]}, sources[1..])
  }

  /** One delta: the ids expired by the report so far, or the first error. */
  function ValidateDelta(db: Db, lim: Limits, gone: set<int>, d: Delta): Result<set<int>, Error> {
    match d
    case AddFact(f) =>
      var bad := ValidateNewFact(lim, f);
      if bad.Some? then Err(bad.value) else Ok(gone)
    case AdjustScore(id, adj) =>
      if Abs16(adj) > MAX_ADJUSTMENT then Err(AdjustmentOutOfRange(id))
      else
        var bad := RequireActive(db, gone, id, UnknownFact(id));
        if bad.Some? then Err(bad.value) else Ok(gone)
    case Quarantine(id) =>
      var bad := RequireActive(db, gone, id, UnknownFact(id));
      if bad.Some? then Err(bad.value) else Ok(gone + {id})
    case Promote(id) =>
      var bad := RequireActive(db, gone, id, UnknownFact(id));
      if bad.Some? then Err(bad.value) else Ok(gone)
    case TagOutcome(id) =>
      if id in db.facts then Ok(gone) else Err(UnknownFact(id))
    case Supersede(oldId, newId) =>
      var bad := RequireActive(db, gone, oldId, SupersedeMissing(oldId));
      if bad.Some? then Err(bad.value)
      else
        var bad2 := RequireActive(db, gone, newId, SupersedeMissing(newId));
        if bad2.Some? then Err(bad2.value) else Ok(gone + {oldId})
    case Synthesize(sources, f) =>
      var bad := ValidateNewFact(lim, f);
      if bad.Some? then Err(bad.value)
      else if sources == [] then Err(SynthesizeNoSources)
      else ValidateSources(db, gone, sources)
  }

  function ValidateLog(db: Db, lim: Limits, gone: set<int>, deltas: seq<Delta>): Result<set<int>, Error>
    decreases |deltas|
  {
    if deltas == [] then Ok(gone)
    else
      var r := ValidateDelta(db, lim, gone, deltas[0]);
      if r.Err? then r else ValidateLog(db, lim, r.value, deltas[1..])
  }

  function FirstUnknown(db: Db, ids: seq<int>): Option<Error> {
    if ids == [] then None
    else if ids[0] !in db.facts then Some(UnknownFact(ids[0]))
    else FirstUnknown(db, ids[1..])
  }

  function ValidateReport(db: Db, lim: Limits, r: Report): Option<Error> {
    var log := ValidateLog(db, lim, {}, r.deltas);
    if log.Err? then Some(log.error) else FirstUnknown(db, r.processed)
  }

  /** The validation pass as the code runs it, over one mutable set. */
  method Validate(db: Db, lim: Limits, r: Report) returns (bad: Option<Error>)
    ensures bad == ValidateReport(db, lim, r)
  {
    var gone: set<int> := {};
    var rest := r.deltas;
    assert r.deltas[0..] == r.deltas;
    for k := 0 to |r.deltas|
      invariant ValidateLog(db, lim, {}, r.deltas) == ValidateLog(db, lim, gone, r.deltas[k..])
    {
      assert r.deltas[k..][1..] == r.deltas[k + 1..];
      var step := ValidateDelta(db, lim, gone, r.deltas[k]);
      if step.Err? {
        return Some(step.error);
      }
      gone := step.value;
    }
    assert r.processed[0..] == r.processed;
    for k := 0 to |r.processed|
      invariant FirstUnknown(db, r.processed) == FirstUnknown(db, r.processed[k..])
    {
      assert r.processed[k..][1..] == r.processed[k + 1..];
      if r.processed[k] !in db.facts {
        return Some(UnknownFact(r.processed[k]));
      }
    }
    return None;
  }

  // ---------- the verdict, without the walk ----------

  /** The ids a delta expires. */
  function Expires(d: Delta): set<int> {
    match d
    case Quarantine(id) => {id}
    case Supersede(oldId, _) => {oldId}
    case Synthesize(sources, _) => Elements(sources)
    case _ => {}
  }

  /** The ids a delta needs active. */
  function Needs(d: Delta): set<int> {
    match d
    case AdjustScore(id, _) => {id}
    case Quarantine(id) => {id}
    case Promote(id) => {id}
    case Supersede(oldId, newId) => {oldId, newId}
    case Synthesize(sources, _) => Elements(sources)
    case _ => {}
  }

  /** The ids a delta replaces by a successor. */
  function Olds(d: Delta): set<int> {
    match d
    case Supersede(oldId, _) => {oldId}
    case Synthesize(sources, _) => Elements(sources)
    case _ => {}
  }

  function AllOlds(deltas: seq<Delta>): set<int> {
    if deltas == [] then {} else Olds(deltas[0]) + AllOlds(deltas[1..])
  }

  lemma {:induction false} AllOldsAre(deltas: seq<Delta>)
    ensures forall id :: id in AllOlds(deltas) <==> exists i :: 0 <= i < |deltas| && id in Olds(deltas[i])
  {
    if deltas != [] {
      AllOldsAre(deltas[1..]);
      assert deltas == [deltas[0]] + deltas[1..];
    }
  }

  /** The adjustments the guard lets through: the documented range, and the least 16-bit value,
      whose absolute value wraps round to itself. */
  predicate PassesGuard(adj: Quanta) { -2 <= adj <= 2 || adj == -0x8000 }

  /** The vector has the engine's length, the importance is in range, and the content fits. */
  ghost predicate Storable(lim: Limits, f: Fact) {
    |f.embedding| == lim.dim && 0.0 <= f.base <= 1.0 && lim.fits(f.content)
  }

  ghost predicate WellShaped(db: Db, lim: Limits, d: Delta) {
    match d
    case AddFact(f) => Storable(lim, f)
    case AdjustScore(_, adj) => PassesGuard(adj)
    case TagOutcome(id) => id in db.facts
    case Synthesize(sources, f) => Storable(lim, f) && sources != [] && Distinct(sources)
    case _ => true
  }

  /** Every delta is well shaped, needs only active facts, and none that an earlier one expires. */
  ghost predicate Applicable(db: Db, lim: Limits, deltas: seq<Delta>) {
    && (forall i :: 0 <= i < |deltas| ==>
          WellShaped(db, lim, deltas[i]) && forall id :: id in Needs(deltas[i]) ==> Live(db, id))
    && (forall i, j, id :: 0 <= i < j < |deltas| && id in Expires(deltas[i]) ==> id !in Needs(deltas[j]))
  }

  ghost predicate SourcesOk(db: Db, gone: set<int>, sources: seq<int>) {
    Distinct(sources) && forall k :: 0 <= k < |sources| ==> db.Has(sources[k]) && sources[k] !in gone
  }

  lemma PeelSources(db: Db, gone: set<int>, x: int, rest: seq<int>)
    ensures SourcesOk(db, gone, [x] + rest) <==> db.Has(x) && x !in gone && SourcesOk(db, gone + {x}, rest)
  {
    var all := [x] + rest;
    if SourcesOk(db, gone, all) {
      assert all[0] == x;
      forall k | 0 <= k < |rest| ensures db.Has(rest[k]) && rest[k] !in gone + {x} {
        assert rest[k] == all[k + 1];
      }
      forall i, j | 0 <= i < j < |rest| ensures rest[i] != rest[j] {
        assert rest[i] == all[i + 1] && rest[j] == all[j + 1];
      }
    }
  }

  lemma {:induction false} SourcesVerdict(db: Db, gone: set<int>, sources: seq<int>)
    ensures ValidateSources(db, gone, sources).Ok? <==> SourcesOk(db, gone, sources)
    ensures ValidateSources(db, gone, sources).Ok? ==>
      ValidateSources(db, gone, sources).value == gone + Elements(sources)
    decreases |sources|
  {
    if sources == [] {
      assert Elements(sources) == {};
    } else {
      var rest := sources[1..];
      SourcesVerdict(db, gone + {sources[0]}, rest);
      assert sources == [sources[0]] + rest;
      PeelSources(db, gone, sources[0], rest);
      assert Elements(sources) == {sources[0]} + Elements(rest);
    }
  }

  ghost predicate Clear(db: Db, gone: set<int>, d: Delta) {
    forall id :: id in Needs(d) ==> Live(db, id) && id !in gone
  }

  lemma DeltaVerdict(db: Db, lim: Limits, gone: set<int>, d: Delta)
    ensures ValidateDelta(db, lim, gone, d).Ok? <==> WellShaped(db, lim, d) && Clear(db, gone, d)
    ensures ValidateDelta(db, lim, gone, d).Ok? ==> ValidateDelta(db, lim, gone, d).value == gone + Expires(d)
  {
    match d
    case AddFact(_) =>
    case AdjustScore(id, _) => assert id in Needs(d);
    case Quarantine(id) => assert id in Needs(d);
    case Promote(id) => assert id in Needs(d);
    case TagOutcome(_) =>
    case Supersede(oldId, newId) => assert oldId in Needs(d) && newId in Needs(d);
    case Synthesize(sources, _) =>
      SourcesVerdict(db, gone, sources);
      assert forall k :: 0 <= k < |sources| ==> sources[k] in Needs(d);
      assert forall id :: id in Needs(d) ==> exists k :: 0 <= k < |sources| && sources[k] == id;
  }

  /** All deltas, with `gone` standing for what came before them. */
  ghost predicate ApplicableAfter(db: Db, lim: Limits, gone: set<int>, deltas: seq<Delta>) {
    Applicable(db, lim, deltas) && forall i :: 0 <= i < |deltas| ==> Clear(db, gone, deltas[i])
  }

  lemma {:induction false} LogVerdict(db: Db, lim: Limits, gone: set<int>, deltas: seq<Delta>)
    ensures ValidateLog(db, lim, gone, deltas).Ok? <==> ApplicableAfter(db, lim, gone, deltas)
    decreases |deltas|
  {
    if deltas != [] {
      var d, rest := deltas[0], deltas[1..];
      DeltaVerdict(db, lim, gone, d);
      LogVerdict(db, lim, gone + Expires(d), rest);
      assert deltas == [d] + rest;
      if WellShaped(db, lim, d) && Clear(db, gone, d) {
        PeelApplicable(db, lim, gone, d, rest);
      }
    }
  }

  lemma PeelApplicable(db: Db, lim: Limits, gone: set<int>, d: Delta, rest: seq<Delta>)
    requires WellShaped(db, lim, d) && Clear(db, gone, d)
    ensures ApplicableAfter(db, lim, gone, [d] + rest) <==> ApplicableAfter(db, lim, gone + Expires(d), rest)
  {
    var all := [d] + rest;
    if ApplicableAfter(db, lim, gone, all) {
      forall i | 0 <= i < |rest|
        ensures WellShaped(db, lim, rest[i]) && Clear(db, gone + Expires(d), rest[i])
      {
        assert rest[i] == all[i + 1] && all[0] == d;
      }
      forall i, j, id | 0 <= i < j < |rest| && id in Expires(rest[i]) ensures id !in Needs(rest[j]) {
        assert rest[i] == all[i + 1] && rest[j] == all[j + 1];
      }
    }
    if ApplicableAfter(db, lim, gone + Expires(d), rest) {
      forall i | 0 <= i < |all| ensures WellShaped(db, lim, all[i]) && Clear(db, gone, all[i]) {
        if i > 0 {
          assert all[i] == rest[i - 1];
        }
      }
      forall i, j, id | 0 <= i < j < |all| && id in Expires(all[i]) ensures id !in Needs(all[j]) {
        assert all[j] == rest[j - 1];
        if i > 0 {
          assert all[i] == rest[i - 1];
        }
      }
    }
  }

  lemma {:induction false} FirstUnknownIs(db: Db, ids: seq<int>)
    ensures FirstUnknown(db, ids).None? <==> forall id :: id in ids ==> id in db.facts
  {
    if ids != [] {
      FirstUnknownIs(db, ids[1..]);
      assert ids == [ids[0]] + ids[1..];
      var x := ids[0];
      assert x in ids;
    }
  }

  /** A report is accepted exactly when it is applicable and names only known facts. */
  lemma AcceptsIff(db: Db, lim: Limits, r: Report)
    ensures ValidateReport(db, lim, r).None? <==>
      Applicable(db, lim, r.deltas) && forall id :: id in r.processed ==> id in db.facts
  {
    LogVerdict(db, lim, {}, r.deltas);
    FirstUnknownIs(db, r.processed);
  }

  // ---------- application ----------

  /** The transaction so far: store, edges to mirror, and the ids the cycle created or left active. */
  datatype Applied = Applied(db: Db, edges: seq<Link>, outputs: set<int>)

  function Clamp01(x: real): real { if x < 0.0 then 0.0 else if x > 1.0 then 1.0 else x }

  function Promoted(f: Fact, now: int): Fact {
    f.(scopeId := 1, pinned := true, accessCount := 0, score := 0.0, lastAccessed := now, created := now,
       expired := None, tValid := None, tInvalid := None)
  }

  /** Expire `oldId` and add the edge from its successor. */
  function SupersedeOne(a: Applied, oldId: int, newId: int, now: int): Result<Applied, Error> {
    if !a.db.Has(oldId) then Err(NotFound(oldId))
    else
      var edge := Link(newId, oldId, EdgeData(a.db.nextEdge, SUPERSEDES, 1.0));
      Ok(a.(db := InsertEdge(ExpireFact(a.db, oldId, now), newId, oldId, SUPERSEDES, 1.0), edges := a.edges + [edge]))
  }

  function SupersedeAll(a: Applied, sources: seq<int>, newId: int, now: int): Result<Applied, Error>
    decreases |sources|
  {
    if sources == [] then Ok(a)
    else
      var r := SupersedeOne(a, sources[0], newId, now);
      if r.Err? then r else SupersedeAll(r.value, sources[1..], newId, now)
  }

  function ApplyDelta(a: Applied, lim: Limits, d: Delta, now: int): Result<Applied, Error> {
    var db, next := a.db, a.db.nextFact;
    match d
    case AddFact(f) => Ok(a.(db := InsertFact(db, f), outputs := a.outputs + {next}))
    case AdjustScore(id, adj) =>
      if id !in db.facts then Err(NotFound(id))
      else
        var f := db.facts[id];
        Ok(a.(db := db.(facts := db.facts[id := f.(base := Clamp01(adj as real * IMPORTANCE_STEP + f.base))])))
    case Quarantine(id) =>
      if !db.Has(id) then Err(NotFound(id)) else Ok(a.(db := ExpireFact(db, id, now)))
    case Promote(id) =>
      if id !in db.facts then Err(NotFound(id))
      else if |db.facts[id].embedding| != lim.dim then Err(EmbeddingDimension)
      else Ok(a.(db := InsertFact(db, Promoted(db.facts[id], now)), outputs := a.outputs + {next}))
    case TagOutcome(_) => Ok(a)
    case Supersede(oldId, newId) =>
      if newId !in db.facts then Err(NotFound(newId))
      else SupersedeOne(a.(outputs := a.outputs + {newId}), oldId, newId, now)
    case Synthesize(sources, f) =>
      SupersedeAll(a.(db := InsertFact(db, f), outputs := a.outputs + {next}), sources, next, now)
  }

  function ApplyLog(a: Applied, lim: Limits, deltas: seq<Delta>, now: int): Result<Applied, Error>
    decreases |deltas|
  {
    if deltas == [] then Ok(a)
    else
      var r := ApplyDelta(a, lim, deltas[0], now);
      if r.Err? then r else ApplyLog(r.value, lim, deltas[1..], now)
  }

  function Mark(db: Db, ids: set<int>): Db {
    db.(facts := map id | id in db.facts :: if id in ids then db.facts[id].(marked := true) else db.facts[id])
  }

  predicate NeedsIdentity(deltas: seq<Delta>) {
    exists i :: 0 <= i < |deltas| && (deltas[i].AddFact? || deltas[i].Synthesize? || deltas[i].Promote?)
  }

  /** Validate, apply every delta, then dream-mark inputs and outputs, all in one transaction. */
  function ApplyReport(db: Db, lim: Limits, stamped: bool, r: Report, now: int): Result<Applied, Error> {
    var bad := ValidateReport(db, lim, r);
    if bad.Some? then Err(bad.value)
    else if NeedsIdentity(r.deltas) && !stamped then Err(NoEmbeddingIdentity)
    else
      var done := ApplyLog(Applied(db, [], {}), lim, r.deltas, now);
      if done.Err? then done
      else Ok(done.value.(db := Mark(done.value.db, Elements(r.processed) + done.value.outputs)))
  }

  /** How the transaction stands relative to the store it began with, after expiring `gone`. */
  ghost predicate Grown(before: Db, a: Applied, gone: set<int>) {
    && a.db.WellFormed()
    && before.nextFact <= a.db.nextFact
    && (forall id :: id in before.facts ==> id in a.db.facts && SameButAge(before.facts[id], a.db.facts[id]))
    && (forall id :: id in before.facts ==> (a.db.Has(id) <==> before.Has(id) && id !in gone))
    && (forall id :: id in a.db.facts && id !in before.facts ==> id in a.outputs)
    && (forall id :: id in a.outputs ==> id in a.db.facts)
  }

  /** What the deltas themselves never touch on a row: all but its base prior and its expiry. */
  predicate SameButAge(f: Fact, g: Fact) { g == f.(base := g.base, expired := g.expired) }

  /** The edges added so far, numbered on from the store's counter. */
  ghost predicate EdgesGrown(before: Db, a: Applied) {
    && a.db.nextEdge == before.nextEdge + |a.edges|
    && (forall i :: 0 <= i < |a.edges| ==> a.edges[i].data.edgeId == before.nextEdge + i)
    && ActiveLinks(a.db) == ActiveLinks(before) + Elements(a.edges)
  }

  lemma SupersedeOneGrows(before: Db, a: Applied, gone: set<int>, oldId: int, newId: int, now: int)
    requires Grown(before, a, gone) && EdgesGrown(before, a)
    requires before.Has(oldId) && oldId !in gone && newId in a.db.facts
    ensures SupersedeOne(a, oldId, newId, now).Ok?
    ensures Grown(before, SupersedeOne(a, oldId, newId, now).value, gone + {oldId})
    ensures EdgesGrown(before, SupersedeOne(a, oldId, newId, now).value)
    ensures SupersedeOne(a, oldId, newId, now).value.edges[..|a.edges|] == a.edges
    ensures SupersedeOne(a, oldId, newId, now).value.outputs == a.outputs
  {
    var mid := ExpireFact(a.db, oldId, now);
    SameEdgesSameLinks(a.db, mid);
    InsertEdgeJoins(mid, newId, oldId, SUPERSEDES, 1.0);
    var after := SupersedeOne(a, oldId, newId, now).value;
    var last := Link(newId, oldId, EdgeData(a.db.nextEdge, SUPERSEDES, 1.0));
    assert after.edges == a.edges + [last];
    assert Elements(after.edges) == Elements(a.edges) + {last};
  }

  lemma {:induction false} SupersedeAllGrows(before: Db, a: Applied, gone: set<int>, sources: seq<int>, newId: int,
                                             now: int)
    requires Grown(before, a, gone) && EdgesGrown(before, a) && newId in a.db.facts
    requires Distinct(sources) && forall k :: 0 <= k < |sources| ==> before.Has(sources[k]) && sources[k] !in gone
    ensures SupersedeAll(a, sources, newId, now).Ok?
    ensures Grown(before, SupersedeAll(a, sources, newId, now).value, gone + Elements(sources))
    ensures EdgesGrown(before, SupersedeAll(a, sources, newId, now).value)
    ensures SupersedeAll(a, sources, newId, now).value.outputs == a.outputs
    decreases |sources|
  {
    if sources == [] {
      assert gone + Elements(sources) == gone;
    } else {
      var rest := sources[1..];
      SupersedeOneGrows(before, a, gone, sources[0], newId, now);
      forall k | 0 <= k < |rest| ensures before.Has(rest[k]) && rest[k] !in gone + {sources[0]} {
        assert rest[k] == sources[k + 1];
      }
      SupersedeAllGrows(before, SupersedeOne(a, sources[0], newId, now).value, gone + {sources[0]}, rest, newId, now);
      ElementsPeel(gone, sources);
    }
  }

  lemma ElementsPeel(gone: set<int>, sources: seq<int>)
    requires sources != []
    ensures gone + Elements(sources) == gone + {sources[0]} + Elements(sources[1..])
  {
    assert sources == [sources[0]] + sources[1..];
  }

  lemma InsertGrows(before: Db, a: Applied, gone: set<int>, f: Fact)
    requires Grown(before, a, gone) && EdgesGrown(before, a) && before.WellFormed()
    ensures Grown(before, a.(db := InsertFact(a.db, f), outputs := a.outputs + {a.db.nextFact}), gone)
    ensures EdgesGrown(before, a.(db := InsertFact(a.db, f), outputs := a.outputs + {a.db.nextFact}))
  {
    SameEdgesSameLinks(a.db, InsertFact(a.db, f));
  }

  /** Changing a row's base prior, or expiring it, is all an adjustment or a quarantine does. */
  lemma RowEditGrows(before: Db, a: Applied, gone: set<int>, id: int, g: Fact, more: set<int>)
    requires before.WellFormed() && Grown(before, a, gone) && EdgesGrown(before, a) && before.Has(id) && id !in gone
    requires g == a.db.facts[id].(base := g.base, expired := g.expired)
    requires more == if g.Active() then {} else {id}
    ensures Grown(before, a.(db := a.db.(facts := a.db.facts[id := g])), gone + more)
    ensures EdgesGrown(before, a.(db := a.db.(facts := a.db.facts[id := g])))
  {
    SameEdgesSameLinks(a.db, a.db.(facts := a.db.facts[id := g]));
  }

  /** A promoted fact's stored vector has the engine's length. */
  ghost predicate PromotesFit(db: Db, lim: Limits, d: Delta) {
    d.Promote? && d.factId in db.facts ==> |db.facts[d.factId].embedding| == lim.dim
  }

  lemma ApplyDeltaGrows(before: Db, a: Applied, lim: Limits, gone: set<int>, d: Delta, now: int)
    requires before.WellFormed() && Grown(before, a, gone) && EdgesGrown(before, a)
    requires WellShaped(before, lim, d) && Clear(before, gone, d) && PromotesFit(before, lim, d)
    ensures ApplyDelta(a, lim, d, now).Ok?
    ensures Grown(before, ApplyDelta(a, lim, d, now).value, gone + Expires(d))
    ensures EdgesGrown(before, ApplyDelta(a, lim, d, now).value)
  {
    assert gone + {} == gone;
    match d
    case AddFact(f) => InsertGrows(before, a, gone, f);
    case AdjustScore(id, _) =>
      assert id in Needs(d);
      RowEditGrows(before, a, gone, id, ApplyDelta(a, lim, d, now).value.db.facts[id], {});
    case Quarantine(id) =>
      assert id in Needs(d);
      RowEditGrows(before, a, gone, id, a.db.facts[id].(expired := Some(now)), {id});
    case Promote(id) =>
      assert id in Needs(d);
      InsertGrows(before, a, gone, Promoted(a.db.facts[id], now));
    case TagOutcome(_) =>
    case Supersede(oldId, newId) =>
      assert oldId in Needs(d) && newId in Needs(d);
      SupersedeOneGrows(before, a.(outputs := a.outputs + {newId}), gone, oldId, newId, now);
    case Synthesize(sources, f) => SynthesizeGrows(before, a, gone, sources, f, now);
  }

  lemma {:induction false} SynthesizeGrows(before: Db, a: Applied, gone: set<int>, sources: seq<int>, f: Fact, now: int)
    requires before.WellFormed() && Grown(before, a, gone) && EdgesGrown(before, a) && Distinct(sources)
    requires forall id :: id in Elements(sources) ==> Live(before, id) && id !in gone
    ensures var next := a.db.nextFact;
      var r := SupersedeAll(a.(db := InsertFact(a.db, f), outputs := a.outputs + {next}), sources, next, now);
      r.Ok? && Grown(before, r.value, gone + Elements(sources)) && EdgesGrown(before, r.value)
  {
    InsertGrows(before, a, gone, f);
    forall k | 0 <= k < |sources| ensures before.Has(sources[k]) && sources[k] !in gone {
      var id := sources[k];
      assert id in sources && id in Elements(sources);
    }
    var next := a.db.nextFact;
    SupersedeAllGrows(before, a.(db := InsertFact(a.db, f), outputs := a.outputs + {next}), gone, sources, next, now);
  }

  ghost function AllExpired(deltas: seq<Delta>): set<int> {
    if deltas == [] then {} else Expires(deltas[0]) + AllExpired(deltas[1..])
  }

  lemma {:induction false} ApplyLogGrows(before: Db, a: Applied, lim: Limits, gone: set<int>, deltas: seq<Delta>,
                                         now: int)
    requires before.WellFormed() && Grown(before, a, gone) && EdgesGrown(before, a)
    requires ApplicableAfter(before, lim, gone, deltas)
    requires forall i :: 0 <= i < |deltas| ==> PromotesFit(before, lim, deltas[i])
    ensures ApplyLog(a, lim, deltas, now).Ok?
    ensures Grown(before, ApplyLog(a, lim, deltas, now).value, gone + AllExpired(deltas))
    ensures EdgesGrown(before, ApplyLog(a, lim, deltas, now).value)
    decreases |deltas|
  {
    if deltas == [] {
      assert gone + AllExpired(deltas) == gone;
    } else {
      var d, rest := deltas[0], deltas[1..];
      assert deltas == [d] + rest;
      ApplyDeltaGrows(before, a, lim, gone, d, now);
      PeelApplicable(before, lim, gone, d, rest);
      ApplyLogGrows(before, ApplyDelta(a, lim, d, now).value, lim, gone + Expires(d), rest, now);
      assert gone + AllExpired(deltas) == gone + Expires(d) + AllExpired(rest);
    }
  }

  /** An accepted report never fails half-way: `log`, the store before dream-marking, has
      expired exactly what the deltas name, and its new active edges are exactly the ones
      handed back for mirroring. */
  lemma AppliesCleanly(db: Db, lim: Limits, r: Report, now: int) returns (log: Applied)
    requires db.WellFormed() && Dimensioned(db, lim.dim)
    ensures ApplyReport(db, lim, true, r, now).Ok? <==> ValidateReport(db, lim, r).None?
    ensures ApplyReport(db, lim, true, r, now).Ok? ==>
      && Grown(db, log, AllExpired(r.deltas)) && EdgesGrown(db, log)
      && ApplyReport(db, lim, true, r, now).value == log.(db := Mark(log.db, Elements(r.processed) + log.outputs))
  {
    log := Applied(db, [], {});
    AcceptsIff(db, lim, r);
    if ValidateReport(db, lim, r).None? {
      assert Elements(log.edges) == {} && ActiveLinks(db) + {} == ActiveLinks(db);
      ApplyLogGrows(db, log, lim, {}, r.deltas, now);
      assert {} + AllExpired(r.deltas) == AllExpired(r.deltas);
      log := ApplyLog(log, lim, r.deltas, now).value;
    }
  }

  ghost function CallerWrittenIds(db: Db): set<int> {
    set id | id in db.facts && db.facts[id].CallerWritten()
  }

  /** Invariant M: no fact the report created, left active or processed still looks caller-written. */
  lemma InvariantM(db: Db, lim: Limits, r: Report, now: int, done: Applied)
    requires db.WellFormed() && Dimensioned(db, lim.dim) && ApplyReport(db, lim, true, r, now) == Ok(done)
    ensures CallerWrittenIds(done.db)
      == CallerWrittenIds(db) - Elements(r.processed) - AllExpired(r.deltas) - done.outputs
    ensures forall id :: id in done.outputs ==> id in done.db.facts && done.db.facts[id].marked
    ensures done.db.facts.Keys == db.facts.Keys + done.outputs
    ensures forall id :: id in db.facts ==> (done.db.Has(id) <==> db.Has(id) && id !in AllExpired(r.deltas))
  {
    var log := AppliesCleanly(db, lim, r, now);
    MarkedRemainder(db, log, AllExpired(r.deltas), Elements(r.processed));
  }

  lemma MarkedRemainder(db: Db, log: Applied, gone: set<int>, processed: set<int>)
    requires Grown(db, log, gone)
    ensures var after := Mark(log.db, processed + log.outputs);
      && CallerWrittenIds(after) == CallerWrittenIds(db) - processed - gone - log.outputs
      && (forall id :: id in log.outputs ==> id in after.facts && after.facts[id].marked)
      && after.facts.Keys == db.facts.Keys + log.outputs
      && forall id :: id in db.facts ==> (after.Has(id) <==> db.Has(id) && id !in gone)
  {
    var after := Mark(log.db, processed + log.outputs);
    forall id ensures id in CallerWrittenIds(after) <==>
        id in CallerWrittenIds(db) && id !in processed && id !in gone && id !in log.outputs {
      if id in db.facts {
        assert SameButAge(db.facts[id], log.db.facts[id]);
        assert log.db.Has(id) <==> db.Has(id) && id !in gone;
      }
    }
    forall id ensures id in after.facts <==> id in db.facts || id in log.outputs {
      if id in db.facts {
        assert SameButAge(db.facts[id], log.db.facts[id]);
      }
    }
  }

  // ---------- what application leaves alone, and what it changes ----------

  lemma {:induction false} SupersedeAllFrame(a: Applied, sources: seq<int>, newId: int, now: int, id: int)
    requires id in a.db.facts && id !in sources && SupersedeAll(a, sources, newId, now).Ok?
    ensures var b := SupersedeAll(a, sources, newId, now).value;
      id in b.db.facts && b.db.facts[id] == a.db.facts[id] && b.db.nextFact == a.db.nextFact
    decreases |sources|
  {
    if sources != [] {
      assert sources == [sources[0]] + sources[1..];
      SupersedeAllFrame(SupersedeOne(a, sources[0], newId, now).value, sources[1..], newId, now, id);
    }
  }

  /** The row of `id` is as it was, and its key is still below the counter. */
  ghost predicate Kept(before: Db, after: Db, id: int)
    requires id in before.facts
  {
    id in after.facts && after.facts[id] == before.facts[id] && before.nextFact <= after.nextFact
  }

  lemma {:induction false} ApplyDeltaFrame(a: Applied, lim: Limits, d: Delta, now: int, id: int)
    requires id in a.db.facts && id < a.db.nextFact && id !in Needs(d) && ApplyDelta(a, lim, d, now).Ok?
    ensures Kept(a.db, ApplyDelta(a, lim, d, now).value.db, id)
  {
    match d
    case AddFact(_) =>
    case AdjustScore(_, _) =>
    case Quarantine(_) =>
    case Promote(_) =>
    case TagOutcome(_) =>
    case Supersede(oldId, _) => assert oldId in Needs(d);
    case Synthesize(sources, f) =>
      assert id in sources ==> id in Needs(d);
      var b := a.(db := InsertFact(a.db, f), outputs := a.outputs + {a.db.nextFact});
      SupersedeAllFrame(b, sources, a.db.nextFact, now, id);
  }

  ghost predicate Unnamed(deltas: seq<Delta>, id: int) { forall i :: 0 <= i < |deltas| ==> id !in Needs(deltas[i]) }

  lemma {:induction false} ApplyLogFrame(a: Applied, lim: Limits, deltas: seq<Delta>, now: int, id: int)
    requires id in a.db.facts && id < a.db.nextFact && Unnamed(deltas, id) && ApplyLog(a, lim, deltas, now).Ok?
    ensures Kept(a.db, ApplyLog(a, lim, deltas, now).value.db, id)
    decreases |deltas|
  {
    if deltas != [] {
      ApplyDeltaFrame(a, lim, deltas[0], now, id);
      ApplyLogFrame(ApplyDelta(a, lim, deltas[0], now).value, lim, deltas[1..], now, id);
    }
  }

  /** A fact no delta names comes through an applied report unchanged but for the dream mark, which
      it gets exactly when it was processed or left active as a successor. */
  lemma {:induction false} UnnamedUntouched(db: Db, lim: Limits, r: Report, now: int, id: int, done: Applied)
    requires db.WellFormed() && ApplyReport(db, lim, true, r, now) == Ok(done)
    requires id in db.facts && Unnamed(r.deltas, id)
    ensures id in done.db.facts
    ensures done.db.facts[id] == db.facts[id].(marked := db.facts[id].marked || id in r.processed || id in done.outputs)
  {
    ApplyLogFrame(Applied(db, [], {}), lim, r.deltas, now, id);
  }

  /** An adjustment moves the base by its quanta and stops at 0 and 1. */
  lemma AdjustMoves(a: Applied, lim: Limits, id: int, adj: Quanta, now: int)
    requires id in a.db.facts && 0.0 <= a.db.facts[id].base <= 1.0
    ensures ApplyDelta(a, lim, AdjustScore(id, adj), now).Ok?
    ensures var was, f := a.db.facts[id].base, ApplyDelta(a, lim, AdjustScore(id, adj), now).value.db.facts[id];
      && f == a.db.facts[id].(base := f.base) && 0.0 <= f.base <= 1.0
      && (adj >= 0 ==> was <= f.base && (f.base == 1.0 || f.base - was == adj as real * 0.05))
      && (adj <= 0 ==> f.base <= was && (f.base == 0.0 || was - f.base == -(adj as real) * 0.05))
  {}

  /** The least 16-bit adjustment passes the guard and takes any base prior to 0. */
  lemma ExtremeAdjustmentAccepted(db: Db, lim: Limits, id: int, now: int) returns (r: Report, done: Applied)
    requires db.WellFormed() && Dimensioned(db, lim.dim) && db.Has(id) && 0.0 <= db.facts[id].base <= 1.0
    ensures r.deltas == [AdjustScore(id, -0x8000)] && ApplyReport(db, lim, true, r, now) == Ok(done)
    ensures id in done.db.facts && done.db.facts[id].base == 0.0
  {
    r := Report([AdjustScore(id, -0x8000)], [], 0, 0);
    AdjustAcceptedIff(db, lim, id, -0x8000, r);
    var log := AppliesCleanly(db, lim, r, now);
    done := ApplyReport(db, lim, true, r, now).value;
    var start := Applied(db, [], {});
    assert r.deltas[1..] == [];
    assert ApplyLog(start, lim, r.deltas, now) == ApplyDelta(start, lim, r.deltas[0], now);
    AdjustMoves(start, lim, id, -0x8000, now);
  }

  /** A lone adjustment of an active fact is accepted exactly for the values the guard lets through. */
  lemma AdjustAcceptedIff(db: Db, lim: Limits, id: int, adj: Quanta, r: Report)
    requires db.Has(id) && r.deltas == [AdjustScore(id, adj)] && r.processed == []
    ensures ValidateReport(db, lim, r).None? <==> PassesGuard(adj)
    ensures ValidateReport(db, lim, r).Some? ==> ValidateReport(db, lim, r) == Some(AdjustmentOutOfRange(id))
  {
    assert r.deltas[1..] == [];
    assert ValidateLog(db, lim, {}, r.deltas) == ValidateDelta(db, lim, {}, r.deltas[0]);
  }

  // ---------- the rows a report creates ----------

  function Creates(d: Delta): nat { if d.AddFact? || d.Promote? || d.Synthesize? then 1 else 0 }

  function Creations(deltas: seq<Delta>): nat {
    if deltas == [] then 0 else Creates(deltas[0]) + Creations(deltas[1..])
  }

  /** The keys `from .. from + n`, the end excluded. */
  function Keys(from: int, n: nat): (r: set<int>)
    ensures forall id :: id in r <==> from <= id < from + n
  {
    if n == 0 then {} else Keys(from, n - 1) + {from + n - 1}
  }

  lemma {:induction false} SupersedeAllKeys(a: Applied, sources: seq<int>, newId: int, now: int)
    requires SupersedeAll(a, sources, newId, now).Ok?
    ensures var b := SupersedeAll(a, sources, newId, now).value;
      b.db.facts.Keys == a.db.facts.Keys && b.db.nextFact == a.db.nextFact
    decreases |sources|
  {
    if sources != [] {
      SupersedeAllKeys(SupersedeOne(a, sources[0], newId, now).value, sources[1..], newId, now);
    }
  }

  /** Created rows take consecutive keys from the counter on. */
  ghost predicate Created(before: Db, after: Db, n: nat) {
    after.nextFact == before.nextFact + n && after.facts.Keys == before.facts.Keys + Keys(before.nextFact, n)
  }

  lemma {:induction false} ApplyDeltaCreates(a: Applied, lim: Limits, d: Delta, now: int)
    requires ApplyDelta(a, lim, d, now).Ok?
    ensures Created(a.db, ApplyDelta(a, lim, d, now).value.db, Creates(d))
  {
    assert Keys(a.db.nextFact, 0) == {} && Keys(a.db.nextFact, 1) == {a.db.nextFact};
    match d
    case AddFact(_) =>
    case AdjustScore(_, _) =>
    case Quarantine(_) =>
    case Promote(_) =>
    case TagOutcome(_) =>
    case Supersede(_, _) =>
    case Synthesize(sources, f) =>
      var next := a.db.nextFact;
      SupersedeAllKeys(a.(db := InsertFact(a.db, f), outputs := a.outputs + {next}), sources, next, now);
  }

  lemma {:induction false} ApplyLogCreates(a: Applied, lim: Limits, deltas: seq<Delta>, now: int)
    requires ApplyLog(a, lim, deltas, now).Ok?
    ensures Created(a.db, ApplyLog(a, lim, deltas, now).value.db, Creations(deltas))
    decreases |deltas|
  {
    if deltas == [] {
      assert Keys(a.db.nextFact, 0) == {};
    } else {
      var b := ApplyDelta(a, lim, deltas[0], now).value;
      ApplyDeltaCreates(a, lim, deltas[0], now);
      ApplyLogCreates(b, lim, deltas[1..], now);
      var m, n := Creates(deltas[0]), Creations(deltas[1..]);
      assert Keys(a.db.nextFact, m + n) == Keys(a.db.nextFact, m) + Keys(a.db.nextFact + m, n);
    }
  }

  lemma {:induction false} ApplyLogSplits(a: Applied, lim: Limits, xs: seq<Delta>, ys: seq<Delta>, now: int)
    ensures var low := ApplyLog(a, lim, xs, now);
      ApplyLog(a, lim, xs + ys, now) == if low.Err? then low else ApplyLog(low.value, lim, ys, now)
    decreases |xs|
  {
    if xs == [] {
      assert xs + ys == ys;
    } else {
      assert (xs + ys)[0] == xs[0] && (xs + ys)[1..] == xs[1..] + ys;
      var first := ApplyDelta(a, lim, xs[0], now);
      if first.Ok? {
        ApplyLogSplits(first.value, lim, xs[1..], ys, now);
      }
    }
  }

  /** A pinned, active, open-ended copy in the root scope, made at `now`. */
  ghost predicate PinnedCopy(f: Fact, g: Fact, now: int) {
    && g.content == f.content && g.embedding == f.embedding && g.factType == f.factType
    && g.pinned && g.Active() && g.scopeId == 1 && g.created == now && g.tValid.None? && g.tInvalid.None?
  }

  /** The original of a promotion: still there, the same but for mark, base prior and expiry. */
  ghost predicate OriginalStays(db: Db, done: Applied, id: int) {
    id in db.facts && id in done.db.facts
    && SameButAge(db.facts[id].(marked := done.db.facts[id].marked), done.db.facts[id])
  }

  ghost predicate CopyLands(db: Db, mid: Applied, done: Applied, id: int, copy: int, now: int) {
    && id in db.facts && id in mid.db.facts && copy !in db.facts && copy in done.db.facts && copy in done.outputs
    && done.db.facts[copy].marked && done.db.facts[copy].base == mid.db.facts[id].base
    && PinnedCopy(db.facts[id], done.db.facts[copy], now)
  }

  /** Where each promotion of an accepted report ends up: its copy has the key that the creations
      before it determine, survives the rest of the report, is dream-marked, and carries the
      original's importance as adjusted so far; the original keeps its place. */
  lemma {:induction false} PromoteCopies(db: Db, lim: Limits, r: Report, now: int, i: nat, done: Applied)
    returns (mid: Applied)
    requires db.WellFormed() && Dimensioned(db, lim.dim) && ApplyReport(db, lim, true, r, now) == Ok(done)
    requires i < |r.deltas| && r.deltas[i].Promote?
    ensures ApplyLog(Applied(db, [], {}), lim, r.deltas[..i], now) == Ok(mid)
    ensures OriginalStays(db, done, r.deltas[i].factId)
    ensures CopyLands(db, mid, done, r.deltas[i].factId, db.nextFact + Creations(r.deltas[..i]), now)
  {
    mid := PrefixApplies(db, lim, r, now, i);
    AcceptsIff(db, lim, r);
    assert r.deltas[i].factId in Needs(r.deltas[i]);
    var log := ApplyLog(Applied(db, [], {}), lim, r.deltas, now).value;
    LastCopy(db, lim, r.deltas, now, i, mid, log);
    MarkedAfter(db, lim, r, now, done, mid.db.nextFact);
    RowsStay(db, lim, r, now, done, r.deltas[i].factId);
  }

  lemma RowsStay(db: Db, lim: Limits, r: Report, now: int, done: Applied, id: int)
    requires db.WellFormed() && Dimensioned(db, lim.dim) && ApplyReport(db, lim, true, r, now) == Ok(done)
    requires id in db.facts
    ensures OriginalStays(db, done, id)
  {
    var log := AppliesCleanly(db, lim, r, now);
    assert SameButAge(db.facts[id], log.db.facts[id]);
  }

  /** A row the report created is one of its outputs and carries the mark. */
  lemma {:induction false} MarkedAfter(db: Db, lim: Limits, r: Report, now: int, done: Applied, copy: int)
    requires db.WellFormed() && Dimensioned(db, lim.dim) && ApplyReport(db, lim, true, r, now) == Ok(done)
    requires copy in done.db.facts && copy !in db.facts
    ensures copy in done.outputs && done.db.facts[copy].marked
  {
    InvariantM(db, lim, r, now, done);
    assert copy in done.db.facts.Keys;
  }

  /** An accepted report's log applies up to any point. */
  lemma {:induction false} PrefixApplies(db: Db, lim: Limits, r: Report, now: int, i: nat) returns (mid: Applied)
    requires db.WellFormed() && Dimensioned(db, lim.dim) && ValidateReport(db, lim, r).None? && i <= |r.deltas|
    ensures ApplyLog(Applied(db, [], {}), lim, r.deltas[..i], now) == Ok(mid)
    ensures Grown(db, mid, AllExpired(r.deltas[..i])) && mid.db.nextFact == db.nextFact + Creations(r.deltas[..i])
  {
    var start, init := Applied(db, [], {}), r.deltas[..i];
    AcceptsIff(db, lim, r);
    forall k | 0 <= k < |init| ensures init[k] == r.deltas[k] {}
    assert Elements(start.edges) == {} && ActiveLinks(db) + {} == ActiveLinks(db);
    assert Applicable(db, lim, init);
    ApplyLogGrows(db, start, lim, {}, init, now);
    assert {} + AllExpired(init) == AllExpired(init);
    ApplyLogCreates(start, lim, init, now);
    mid := ApplyLog(start, lim, init, now).value;
  }

  lemma {:induction false} LastCopy(db: Db, lim: Limits, deltas: seq<Delta>, now: int, i: nat, mid: Applied,
                                    log: Applied)
    requires i < |deltas| && deltas[i].Promote? && db.WellFormed() && Applicable(db, lim, deltas)
    requires ApplyLog(Applied(db, [], {}), lim, deltas, now) == Ok(log)
    requires ApplyLog(Applied(db, [], {}), lim, deltas[..i], now) == Ok(mid)
    requires Grown(db, mid, AllExpired(deltas[..i]))
    ensures var id, copy := deltas[i].factId, mid.db.nextFact;
      && id in db.facts && id in mid.db.facts && copy in log.db.facts
      && PinnedCopy(db.facts[id], log.db.facts[copy], now) && log.db.facts[copy].base == mid.db.facts[id].base
  {
    var id, copy, tail, rest := deltas[i].factId, mid.db.nextFact, deltas[i..], deltas[i + 1..];
    assert id in Needs(deltas[i]);
    assert deltas == deltas[..i] + tail && tail[0] == deltas[i] && tail[1..] == rest;
    ApplyLogSplits(Applied(db, [], {}), lim, deltas[..i], tail, now);
    var next := ApplyDelta(mid, lim, deltas[i], now).value;
    assert ApplyLog(next, lim, rest, now) == Ok(log);
    forall k | 0 <= k < |rest| ensures copy !in Needs(rest[k]) {
      assert rest[k] == deltas[i + 1 + k];
    }
    ApplyLogFrame(next, lim, rest, now, copy);
  }

  // ---------- dimensions ----------

  lemma {:induction false} SupersedeAllSized(a: Applied, sources: seq<int>, newId: int, now: int, dim: nat)
    requires Dimensioned(a.db, dim) && SupersedeAll(a, sources, newId, now).Ok?
    ensures Dimensioned(SupersedeAll(a, sources, newId, now).value.db, dim)
    decreases |sources|
  {
    if sources != [] {
      SupersedeAllSized(SupersedeOne(a, sources[0], newId, now).value, sources[1..], newId, now, dim);
    }
  }

  lemma ApplyDeltaSized(db: Db, a: Applied, lim: Limits, d: Delta, now: int)
    requires Dimensioned(a.db, lim.dim) && WellShaped(db, lim, d) && ApplyDelta(a, lim, d, now).Ok?
    ensures Dimensioned(ApplyDelta(a, lim, d, now).value.db, lim.dim)
  {
    if d.Synthesize? {
      var next := a.db.nextFact;
      var b := a.(db := InsertFact(a.db, d.fact), outputs := a.outputs + {next});
      SupersedeAllSized(b, d.sources, next, now, lim.dim);
    }
  }

  lemma {:induction false} ApplyLogSized(db: Db, a: Applied, lim: Limits, deltas: seq<Delta>, now: int)
    requires Dimensioned(a.db, lim.dim) && ApplyLog(a, lim, deltas, now).Ok?
    requires forall i :: 0 <= i < |deltas| ==> WellShaped(db, lim, deltas[i])
    ensures Dimensioned(ApplyLog(a, lim, deltas, now).value.db, lim.dim)
    decreases |deltas|
  {
    if deltas != [] {
      ApplyDeltaSized(db, a, lim, deltas[0], now);
      ApplyLogSized(db, ApplyDelta(a, lim, deltas[0], now).value, lim, deltas[1..], now);
    }
  }

  /** An applied report stores no vector of another dimension. */
  lemma {:induction false} ReportSized(db: Db, lim: Limits, stamped: bool, r: Report, now: int, done: Applied)
    requires Dimensioned(db, lim.dim) && ApplyReport(db, lim, stamped, r, now) == Ok(done)
    ensures Dimensioned(done.db, lim.dim)
  {
    AcceptsIff(db, lim, r);
    ApplyLogSized(db, Applied(db, [], {}), lim, r.deltas, now);
  }
}
