/** What an accepted cycle report leaves in the store, row by row
    (crates/me-backend-sqlite/src/sqlite/consolidation.rs:202-600).

    `ReportRows` gives every row of the committed store from the rows before the call and
    the delta log alone; `ReportEdges` does so for the edges, and `RefusedWith` says which
    error a refused report draws.
  */
module CycleRows {
  import opened Collections
  import opened MemoryGraphs
  import opened MemoryStore
  import opened CycleReports

  // ---------- a fact that was there before ----------

  /** An adjustment moves the base prior by a twentieth per quantum, within 0 and 1. */
  ghost function Adjusted(d: Delta, id: int, base: real): real {
    if d.AdjustScore? && d.factId == id then
      var moved := base + d.adjustment as real * 0.05;
      if moved < 0.0 then 0.0 else if moved > 1.0 then 1.0 else moved
    else base
  }

  ghost function BaseAfter(deltas: seq<Delta>, id: int, base: real): real {
    if deltas == [] then base
    else Adjusted(deltas[|deltas| - 1], id, BaseAfter(deltas[..|deltas| - 1], id, base))
  }

  /** The delta quarantines the fact, or gives it a successor. */
  ghost predicate Retires(d: Delta, id: int) {
    match d
    case Quarantine(x) => x == id
    case Supersede(oldId, _) => oldId == id
    case Synthesize(sources, _) => id in sources
    case _ => false
  }

  ghost predicate Retired(deltas: seq<Delta>, id: int) { exists i :: 0 <= i < |deltas| && Retires(deltas[i], id) }

  /** A supersede names the fact as successor. */
  ghost predicate Succeeds(deltas: seq<Delta>, id: int) {
    exists i :: 0 <= i < |deltas| && deltas[i].Supersede? && deltas[i].newId == id
  }

  /** The row before dream-marking. */
  ghost function EditedRow(f: Fact, deltas: seq<Delta>, id: int, now: int): Fact {
    f.(base := BaseAfter(deltas, id, f.base), expired := if Retired(deltas, id) then Some(now) else f.expired)
  }

  // ---------- a fact the report creates ----------

  ghost predicate Inserts(d: Delta) { d.AddFact? || d.Promote? || d.Synthesize? }

  /** The row delta `i` inserts, before dream-marking: the fact it carries, or a pinned copy of the promoted
      one in the root scope, with the base the deltas before it left it. The score starts at the base. */
  ghost function InsertedRow(db: Db, deltas: seq<Delta>, i: nat, now: int): Fact
    requires i < |deltas| && Inserts(deltas[i])
    requires deltas[i].Promote? ==> deltas[i].factId in db.facts
  {
    match deltas[i]
    case AddFact(f) => f.(score := f.base)
    case Synthesize(_, f) => f.(score := f.base)
    case Promote(id) =>
      var f := db.facts[id];
      var base := BaseAfter(deltas[..i], id, f.base);
      Fact(f.content, f.embedding, f.factType, 1, true, f.marked, base, base, 0, now, now, None, None, None)
  }

  // ---------- the whole report ----------

  /** Every row that was there has its adjustments, its end and its mark, and nothing else changed. */
  ghost predicate RowsEdited(db: Db, r: Report, now: int, after: Db) {
    forall id :: id in db.facts ==>
      && id in after.facts
      && after.facts[id] == EditedRow(db.facts[id], r.deltas, id, now).(
           marked := db.facts[id].marked || id in r.processed || Succeeds(r.deltas, id))
  }

  /** An inserted row sits at the key that counts the insertions before it, and is marked. */
  ghost predicate RowInserted(db: Db, r: Report, now: int, i: nat, after: Db)
    requires i < |r.deltas| && Inserts(r.deltas[i])
  {
    var key := db.nextFact + Creations(r.deltas[..i]);
    && (r.deltas[i].Promote? ==> r.deltas[i].factId in db.facts) && key in after.facts
    && after.facts[key] == InsertedRow(db, r.deltas, i, now).(marked := true)
  }

  ghost predicate RowsInserted(db: Db, r: Report, now: int, after: Db) {
    forall i :: 0 <= i < |r.deltas| && Inserts(r.deltas[i]) ==> RowInserted(db, r, now, i, after)
  }

  /** The committed facts of an accepted report, given by the facts before it and its deltas. */
  lemma {:induction false} ReportRows(db: Db, lim: Limits, stamped: bool, r: Report, now: int, done: Applied)
    requires db.WellFormed() && Dimensioned(db, lim.dim) && ApplyReport(db, lim, stamped, r, now) == Ok(done)
    ensures done.db.facts.Keys == db.facts.Keys + Keys(db.nextFact, Creations(r.deltas))
    ensures RowsEdited(db, r, now, done.db) && RowsInserted(db, r, now, done.db)
  {
    var log := ApplyLog(Applied(db, [], {}), lim, r.deltas, now).value;
    AcceptsIff(db, lim, r);
    ApplyLogCreates(Applied(db, [], {}), lim, r.deltas, now);
    EditsHold(db, lim, r, now, log);
    InsertsHold(db, lim, r, now, log);
  }

  lemma {:induction false} EditsHold(db: Db, lim: Limits, r: Report, now: int, log: Applied)
    requires db.WellFormed() && Dimensioned(db, lim.dim) && ValidateReport(db, lim, r).None?
    requires ApplyLog(Applied(db, [], {}), lim, r.deltas, now) == Ok(log)
    ensures RowsEdited(db, r, now, Mark(log.db, Elements(r.processed) + log.outputs))
  {
    assert r.deltas[..|r.deltas|] == r.deltas;
    forall id | id in db.facts
      ensures id in log.db.facts && log.db.facts[id] == EditedRow(db.facts[id], r.deltas, id, now)
      ensures id in log.outputs <==> Succeeds(r.deltas, id)
    {
      RowAfter(db, lim, r, now, |r.deltas|, log, id);
      SuccessorsMarked(db, lim, r, now, |r.deltas|, log, id);
    }
  }

  lemma {:induction false} InsertsHold(db: Db, lim: Limits, r: Report, now: int, log: Applied)
    requires db.WellFormed() && Dimensioned(db, lim.dim) && ValidateReport(db, lim, r).None?
    requires ApplyLog(Applied(db, [], {}), lim, r.deltas, now) == Ok(log)
    ensures RowsInserted(db, r, now, Mark(log.db, Elements(r.processed) + log.outputs))
  {
    forall i | 0 <= i < |r.deltas| && Inserts(r.deltas[i])
      ensures RowInserted(db, r, now, i, Mark(log.db, Elements(r.processed) + log.outputs))
    {
      InsertedStays(db, lim, r, now, i, log);
    }
  }

  /** The log up to `n`, one delta on from the log up to `n - 1`. */
  lemma {:induction false} LastDelta(db: Db, lim: Limits, r: Report, now: int, n: nat, a: Applied)
    returns (mid: Applied, gone: set<int>)
    requires db.WellFormed() && Dimensioned(db, lim.dim) && ValidateReport(db, lim, r).None? && 0 < n <= |r.deltas|
    requires ApplyLog(Applied(db, [], {}), lim, r.deltas[..n], now) == Ok(a)
    ensures ApplyLog(Applied(db, [], {}), lim, r.deltas[..n - 1], now) == Ok(mid)
    ensures mid.db.nextFact == db.nextFact + Creations(r.deltas[..n - 1])
    ensures ApplyDelta(mid, lim, r.deltas[n - 1], now) == Ok(a) && Grown(db, mid, gone)
    ensures WellShaped(db, lim, r.deltas[n - 1]) && Clear(db, gone, r.deltas[n - 1])
  {
    var init, d := r.deltas[..n - 1], r.deltas[n - 1];
    mid := PrefixApplies(db, lim, r, now, n - 1);
    gone := AllExpired(init);
    assert r.deltas[..n] == init + [d];
    ApplyLogSplits(Applied(db, [], {}), lim, init, [d], now);
    assert ApplyLog(mid, lim, [d], now) == Ok(a);
    assert [d][1..] == [];
    AcceptsIff(db, lim, r);
    LastClear(db, lim, r.deltas, n);
  }

  lemma {:induction false} LastClear(db: Db, lim: Limits, deltas: seq<Delta>, n: nat)
    requires Applicable(db, lim, deltas) && 0 < n <= |deltas|
    ensures Clear(db, AllExpired(deltas[..n - 1]), deltas[n - 1])
  {
    var last := n - 1;
    AllExpiredAre(deltas[..last]);
    forall id | id in Needs(deltas[last]) ensures db.Has(id) && id !in AllExpired(deltas[..last]) {
      forall i | 0 <= i < last ensures id !in Expires(deltas[..last][i]) {
        assert deltas[..last][i] == deltas[i];
      }
    }
  }

  lemma {:induction false} AllExpiredAre(deltas: seq<Delta>)
    ensures forall id :: id in AllExpired(deltas) <==> exists i :: 0 <= i < |deltas| && id in Expires(deltas[i])
  {
    if deltas != [] {
      AllExpiredAre(deltas[1..]);
      assert deltas == [deltas[0]] + deltas[1..];
    }
  }

  // ---------- rows that were there ----------

  /** One delta on a row that was there. */
  ghost predicate Edited(f: Fact, g: Fact, d: Delta, id: int, now: int) {
    g == f.(base := Adjusted(d, id, f.base), expired := if Retires(d, id) then Some(now) else f.expired)
  }

  lemma {:induction false} SupersedeAllEdits(a: Applied, sources: seq<int>, newId: int, now: int, id: int)
    requires id in a.db.facts && SupersedeAll(a, sources, newId, now).Ok?
    ensures var b := SupersedeAll(a, sources, newId, now).value;
      && id in b.db.facts
      && b.db.facts[id] == a.db.facts[id].(expired := if id in sources then Some(now) else a.db.facts[id].expired)
    decreases |sources|
  {
    if sources != [] {
      assert sources == [sources[0]] + sources[1..];
      SupersedeAllEdits(SupersedeOne(a, sources[0], newId, now).value, sources[1..], newId, now, id);
    }
  }

  lemma {:induction false} DeltaEdits(before: Db, a: Applied, lim: Limits, gone: set<int>, d: Delta, now: int, id: int)
    requires before.WellFormed() && Grown(before, a, gone) && WellShaped(before, lim, d) && Clear(before, gone, d)
    requires id in before.facts && ApplyDelta(a, lim, d, now).Ok?
    ensures id in a.db.facts && id in ApplyDelta(a, lim, d, now).value.db.facts
    ensures Edited(a.db.facts[id], ApplyDelta(a, lim, d, now).value.db.facts[id], d, id, now)
  {
    match d
    case AddFact(_) =>
    case AdjustScore(x, _) =>
      assert x in Needs(d);
    case Quarantine(x) => assert x in Needs(d);
    case Promote(_) =>
    case TagOutcome(_) =>
    case Supersede(oldId, _) => assert oldId in Needs(d);
    case Synthesize(sources, f) =>
      var next := a.db.nextFact;
      SupersedeAllEdits(a.(db := InsertFact(a.db, f), outputs := a.outputs + {next}), sources, next, now, id);
  }

  lemma {:induction false} EditedChain(f: Fact, deltas: seq<Delta>, n: nat, id: int, now: int, g: Fact)
    requires 0 < n <= |deltas|
    requires Edited(EditedRow(f, deltas[..n - 1], id, now), g, deltas[n - 1], id, now)
    ensures g == EditedRow(f, deltas[..n], id, now)
  {
    var init, d, all := deltas[..n - 1], deltas[n - 1], deltas[..n];
    assert all[..|all| - 1] == init && all[|all| - 1] == d;
    assert Retired(all, id) <==> Retired(init, id) || Retires(d, id) by {
      assert all == init + [d];
      if Retires(d, id) {
        assert Retires(all[|all| - 1], id);
      }
      if i :| 0 <= i < |init| && Retires(init[i], id) {
        assert Retires(all[i], id);
      }
    }
  }

  lemma {:induction false} RowAfter(db: Db, lim: Limits, r: Report, now: int, n: nat, a: Applied, id: int)
    requires db.WellFormed() && Dimensioned(db, lim.dim) && ValidateReport(db, lim, r).None? && n <= |r.deltas|
    requires ApplyLog(Applied(db, [], {}), lim, r.deltas[..n], now) == Ok(a) && id in db.facts
    ensures id in a.db.facts && a.db.facts[id] == EditedRow(db.facts[id], r.deltas[..n], id, now)
  {
    if n > 0 {
      var mid, gone := LastDelta(db, lim, r, now, n, a);
      RowAfter(db, lim, r, now, n - 1, mid, id);
      DeltaEdits(db, mid, lim, gone, r.deltas[n - 1], now, id);
      EditedChain(db.facts[id], r.deltas, n, id, now, a.db.facts[id]);
    }
  }

  /** Of the rows that were there, the outputs are those a supersede names as successor. */
  lemma {:induction false} SuccessorsMarked(db: Db, lim: Limits, r: Report, now: int, n: nat, a: Applied, id: int)
    requires db.WellFormed() && Dimensioned(db, lim.dim) && ValidateReport(db, lim, r).None? && n <= |r.deltas|
    requires ApplyLog(Applied(db, [], {}), lim, r.deltas[..n], now) == Ok(a) && id in db.facts
    ensures id in a.outputs <==> Succeeds(r.deltas[..n], id)
  {
    if n > 0 {
      var mid, gone := LastDelta(db, lim, r, now, n, a);
      var init, d, all := r.deltas[..n - 1], r.deltas[n - 1], r.deltas[..n];
      SuccessorsMarked(db, lim, r, now, n - 1, mid, id);
      DeltaOutputs(mid, lim, d, now);
      assert all == init + [d];
      if d.Supersede? && d.newId == id {
        assert all[n - 1].Supersede? && all[n - 1].newId == id;
      }
      if i :| 0 <= i < |init| && init[i].Supersede? && init[i].newId == id {
        assert all[i].Supersede? && all[i].newId == id;
      }
    }
  }

  lemma {:induction false} DeltaOutputs(a: Applied, lim: Limits, d: Delta, now: int)
    requires ApplyDelta(a, lim, d, now).Ok?
    ensures ApplyDelta(a, lim, d, now).value.outputs
      == a.outputs + if Inserts(d) then {a.db.nextFact} else if d.Supersede? then {d.newId} else {}
  {
    if d.Synthesize? {
      var next := a.db.nextFact;
      SupersedeAllOutputs(a.(db := InsertFact(a.db, d.fact), outputs := a.outputs + {next}), d.sources, next, now);
    }
  }

  lemma {:induction false} SupersedeAllOutputs(a: Applied, sources: seq<int>, newId: int, now: int)
    requires SupersedeAll(a, sources, newId, now).Ok?
    ensures SupersedeAll(a, sources, newId, now).value.outputs == a.outputs
    decreases |sources|
  {
    if sources != [] {
      SupersedeAllOutputs(SupersedeOne(a, sources[0], newId, now).value, sources[1..], newId, now);
    }
  }

  // ---------- rows the report inserts ----------

  /** The row as its delta leaves it. */
  lemma {:induction false} DeltaInserts(db: Db, a: Applied, lim: Limits, gone: set<int>, deltas: seq<Delta>, i: nat,
                                        now: int)
    requires db.WellFormed() && Grown(db, a, gone) && i < |deltas| && Inserts(deltas[i])
    requires WellShaped(db, lim, deltas[i]) && Clear(db, gone, deltas[i]) && ApplyDelta(a, lim, deltas[i], now).Ok?
    requires forall id :: id in db.facts ==>
      id in a.db.facts && a.db.facts[id].base == BaseAfter(deltas[..i], id, db.facts[id].base)
    ensures var key, b := a.db.nextFact, ApplyDelta(a, lim, deltas[i], now).value.db;
      && (deltas[i].Promote? ==> deltas[i].factId in db.facts) && key in b.facts && key < b.nextFact
      && b.facts[key] == InsertedRow(db, deltas, i, now)
  {
    match deltas[i]
    case AddFact(_) =>
    case Promote(id) =>
      assert id in Needs(deltas[i]);
      assert SameButAge(db.facts[id], a.db.facts[id]);
    case Synthesize(sources, f) =>
      var next := a.db.nextFact;
      assert next !in Needs(deltas[i]);
      SupersedeAllFrame(a.(db := InsertFact(a.db, f), outputs := a.outputs + {next}), sources, next, now, next);
  }

  lemma {:induction false} InsertedStays(db: Db, lim: Limits, r: Report, now: int, i: nat, log: Applied)
    requires db.WellFormed() && Dimensioned(db, lim.dim) && ValidateReport(db, lim, r).None?
    requires i < |r.deltas| && Inserts(r.deltas[i])
    requires ApplyLog(Applied(db, [], {}), lim, r.deltas, now) == Ok(log)
    ensures var key := db.nextFact + Creations(r.deltas[..i]);
      && (r.deltas[i].Promote? ==> r.deltas[i].factId in db.facts) && key in log.db.facts && key in log.outputs
      && log.db.facts[key] == InsertedRow(db, r.deltas, i, now)
  {
    var next := PrefixApplies(db, lim, r, now, i + 1);
    var mid, gone := LastDelta(db, lim, r, now, i + 1, next);
    forall id | id in db.facts
      ensures id in mid.db.facts && mid.db.facts[id].base == BaseAfter(r.deltas[..i], id, db.facts[id].base)
    {
      RowAfter(db, lim, r, now, i, mid, id);
    }
    DeltaInserts(db, mid, lim, gone, r.deltas, i, now);
    RestKeeps(db, lim, r, now, i, next, log, mid.db.nextFact);
    assert r.deltas[..|r.deltas|] == r.deltas;
    var last := PrefixApplies(db, lim, r, now, |r.deltas|);
  }

  /** No later delta can name a row that was not there when the report was checked. */
  lemma {:induction false} RestKeeps(db: Db, lim: Limits, r: Report, now: int, i: nat, next: Applied, log: Applied,
                                     key: int)
    requires db.WellFormed() && ValidateReport(db, lim, r).None? && i < |r.deltas|
    requires ApplyLog(Applied(db, [], {}), lim, r.deltas[..i + 1], now) == Ok(next)
    requires ApplyLog(Applied(db, [], {}), lim, r.deltas, now) == Ok(log)
    requires key >= db.nextFact && key in next.db.facts && key < next.db.nextFact
    ensures key in log.db.facts && log.db.facts[key] == next.db.facts[key]
  {
    var rest := r.deltas[i + 1..];
    AcceptsIff(db, lim, r);
    assert r.deltas == r.deltas[..i + 1] + rest;
    ApplyLogSplits(Applied(db, [], {}), lim, r.deltas[..i + 1], rest, now);
    forall k | 0 <= k < |rest| ensures key !in Needs(rest[k]) {
      assert rest[k] == r.deltas[i + 1 + k];
    }
    ApplyLogFrame(next, lim, rest, now, key);
  }

  // ---------- edges ----------

  /** Edges are only added: one active row of relation "supersedes" and weight 1 for each edge handed back. */
  ghost predicate EdgesAppended(db: Db, a: Applied) {
    && a.db.nextEdge == db.nextEdge + |a.edges|
    && a.db.edges.Keys == db.edges.Keys + Keys(db.nextEdge, |a.edges|)
    && (forall e :: e in db.edges ==> a.db.edges[e] == db.edges[e])
    && forall i :: 0 <= i < |a.edges| ==>
         var key, l := db.nextEdge + i, a.edges[i];
         && l.data == EdgeData(key, "supersedes", 1.0) && key in a.db.edges
         && a.db.edges[key] == EdgeRow(l.source, l.target, "supersedes", 1.0, true)
  }

  lemma {:induction false} ReportEdges(db: Db, lim: Limits, stamped: bool, r: Report, now: int, done: Applied)
    requires db.WellFormed() && ApplyReport(db, lim, stamped, r, now) == Ok(done)
    ensures EdgesAppended(db, done)
  {
    assert Keys(db.nextEdge, 0) == {};
    LogAppends(db, Applied(db, [], {}), lim, r.deltas, now);
  }

  lemma {:induction false} LogAppends(db: Db, a: Applied, lim: Limits, deltas: seq<Delta>, now: int)
    requires db.WellFormed() && EdgesAppended(db, a) && ApplyLog(a, lim, deltas, now).Ok?
    ensures EdgesAppended(db, ApplyLog(a, lim, deltas, now).value)
    decreases |deltas|
  {
    if deltas != [] {
      var d, b := deltas[0], ApplyDelta(a, lim, deltas[0], now).value;
      if d.Supersede? {
        OneAppends(db, a.(outputs := a.outputs + {d.newId}), d.oldId, d.newId, now);
      } else if d.Synthesize? {
        var next := a.db.nextFact;
        AllAppend(db, a.(db := InsertFact(a.db, d.fact), outputs := a.outputs + {next}), d.sources, next, now);
      }
      LogAppends(db, b, lim, deltas[1..], now);
    }
  }

  lemma {:induction false} AllAppend(db: Db, a: Applied, sources: seq<int>, newId: int, now: int)
    requires db.WellFormed() && EdgesAppended(db, a) && SupersedeAll(a, sources, newId, now).Ok?
    ensures EdgesAppended(db, SupersedeAll(a, sources, newId, now).value)
    decreases |sources|
  {
    if sources != [] {
      OneAppends(db, a, sources[0], newId, now);
      AllAppend(db, SupersedeOne(a, sources[0], newId, now).value, sources[1..], newId, now);
    }
  }

  lemma {:induction false} OneAppends(db: Db, a: Applied, oldId: int, newId: int, now: int)
    requires db.WellFormed() && EdgesAppended(db, a) && SupersedeOne(a, oldId, newId, now).Ok?
    ensures EdgesAppended(db, SupersedeOne(a, oldId, newId, now).value)
  {
    assert Keys(db.nextEdge, |a.edges| + 1) == Keys(db.nextEdge, |a.edges|) + {a.db.nextEdge};
  }

  // ---------- what a refusal means ----------

  ghost predicate Carries(d: Delta) { d.AddFact? || d.Synthesize? }

  /** What each error says of the delta that drew it, `before` being the deltas ahead of it. */
  ghost predicate Explains(db: Db, lim: Limits, before: seq<Delta>, d: Delta, e: Error) {
    match e
    case EmbeddingDimension => Carries(d) && |d.fact.embedding| != lim.dim
    case PolicyParameter => Carries(d) && |d.fact.embedding| == lim.dim && !(0.0 <= d.fact.base <= 1.0)
    case PayloadTooLarge =>
      Carries(d) && |d.fact.embedding| == lim.dim && 0.0 <= d.fact.base <= 1.0 && !lim.fits(d.fact.content)
    case SynthesizeNoSources => d.Synthesize? && d.sources == [] && Storable(lim, d.fact)
    case AdjustmentOutOfRange(id) =>
      d.AdjustScore? && d.factId == id && (d.adjustment > 2 || -0x8000 < d.adjustment < -2)
    case UnknownFact(id) => !d.Supersede? && id !in db.facts && (id in Needs(d) || (d.TagOutcome? && d.factId == id))
    case SupersedeMissing(id) => d.Supersede? && id !in db.facts && id in {d.oldId, d.newId}
    case AlreadyExpired(id) =>
      && id in Needs(d) && id in db.facts
      && (db.facts[id].expired.Some? || Retired(before, id) || (d.Synthesize? && Repeats(d.sources, id)))
    case _ => false
  }

  ghost predicate Repeats(ids: seq<int>, id: int) { exists i, j :: 0 <= i < j < |ids| && ids[i] == id == ids[j] }

  ghost predicate FirstMissing(db: Db, ids: seq<int>, k: int) {
    0 <= k < |ids| && ids[k] !in db.facts && forall j :: 0 <= j < k ==> ids[j] in db.facts
  }

  /** The first delta that cannot be applied, or else the first unknown processed id, is to blame. */
  ghost predicate Refused(db: Db, lim: Limits, r: Report, e: Error) {
    if Applicable(db, lim, r.deltas) then
      exists k :: FirstMissing(db, r.processed, k) && e == UnknownFact(r.processed[k])
    else
      exists i :: 0 <= i < |r.deltas| && Applicable(db, lim, r.deltas[..i]) && !Applicable(db, lim, r.deltas[..i + 1])
        && Explains(db, lim, r.deltas[..i], r.deltas[i], e)
  }

  /** Exactly when a report is applied, and what the error of a refused one says. Only an otherwise good
      report can lack an embedding identity, and it does if it inserts anything. */
  lemma {:induction false} ReportVerdict(db: Db, lim: Limits, stamped: bool, r: Report, now: int)
    requires db.WellFormed() && Dimensioned(db, lim.dim)
    ensures var good := Applicable(db, lim, r.deltas) && forall id :: id in r.processed ==> id in db.facts;
      var inserts := exists i :: 0 <= i < |r.deltas| && Inserts(r.deltas[i]);
      match ApplyReport(db, lim, stamped, r, now)
      case Ok(_) => good && (stamped || !inserts)
      case Err(e) => if good then e == NoEmbeddingIdentity && !stamped && inserts else Refused(db, lim, r, e)
  {
    AcceptsIff(db, lim, r);
    var log := AppliesCleanly(db, lim, r, now);
    if ValidateReport(db, lim, r).Some? {
      Blamed(db, lim, r);
    }
  }

  /** A stored vector of the wrong length is found out only when its fact is promoted: the whole report is
      then rolled back, however good it is. */
  lemma {:induction false} MisfitRollsBack(db: Db, lim: Limits, r: Report, now: int, i: nat)
    requires db.WellFormed() && ValidateReport(db, lim, r).None? && i < |r.deltas| && r.deltas[i].Promote?
    requires r.deltas[i].factId in db.facts && |db.facts[r.deltas[i].factId].embedding| != lim.dim
    requires forall k :: 0 <= k < i ==> PromotesFit(db, lim, r.deltas[k])
    ensures ApplyReport(db, lim, true, r, now) == Err(EmbeddingDimension)
  {
    var start, init, rest := Applied(db, [], {}), r.deltas[..i], r.deltas[i..];
    AcceptsIff(db, lim, r);
    assert Elements(start.edges) == {} && ActiveLinks(db) + {} == ActiveLinks(db);
    forall k | 0 <= k < |init| ensures init[k] == r.deltas[k] {}
    assert Applicable(db, lim, init);
    ApplyLogGrows(db, start, lim, {}, init, now);
    ApplyLogSplits(start, lim, init, rest, now);
    assert r.deltas == init + rest && rest[0] == r.deltas[i];
    var mid := ApplyLog(start, lim, init, now).value;
    assert SameButAge(db.facts[r.deltas[i].factId], mid.db.facts[r.deltas[i].factId]);
  }

  lemma {:induction false} Blamed(db: Db, lim: Limits, r: Report)
    requires ValidateReport(db, lim, r).Some?
    ensures Refused(db, lim, r, ValidateReport(db, lim, r).value)
  {
    LogVerdict(db, lim, {}, r.deltas);
    if ValidateLog(db, lim, {}, r.deltas).Err? {
      var i := LogBlamed(db, lim, {}, r.deltas);
      var before, e := r.deltas[..i], ValidateReport(db, lim, r).value;
      LogVerdict(db, lim, {}, before);
      LogVerdict(db, lim, {}, r.deltas[..i + 1]);
      AllExpiredAre(before);
      forall id | id in {} + AllExpired(before) ensures Retired(before, id) {
        var k :| 0 <= k < |before| && id in Expires(before[k]);
        assert Retires(before[k], id);
      }
      DeltaBlamed(db, lim, before, {} + AllExpired(before), r.deltas[i], e);
      assert Applicable(db, lim, r.deltas[..i]) && !Applicable(db, lim, r.deltas[..i + 1]);
    } else {
      ProcessedBlamed(db, r.processed);
    }
  }

  /** Where the walk stops. */
  lemma {:induction false} LogBlamed(db: Db, lim: Limits, gone: set<int>, deltas: seq<Delta>) returns (i: nat)
    requires ValidateLog(db, lim, gone, deltas).Err?
    ensures i < |deltas| && ValidateLog(db, lim, gone, deltas[..i]).Ok?
    ensures ValidateLog(db, lim, gone, deltas[..i + 1]).Err?
    ensures ValidateDelta(db, lim, gone + AllExpired(deltas[..i]), deltas[i])
      == Err(ValidateLog(db, lim, gone, deltas).error)
    decreases |deltas|
  {
    var d, rest := deltas[0], deltas[1..];
    DeltaVerdict(db, lim, gone, d);
    if ValidateDelta(db, lim, gone, d).Err? {
      i := 0;
      assert gone + {} == gone && deltas[..1][0] == d;
    } else {
      var k := LogBlamed(db, lim, gone + Expires(d), rest);
      i := k + 1;
      assert deltas[..i][1..] == rest[..k] && deltas[..i + 1][1..] == rest[..k + 1];
      assert gone + AllExpired(deltas[..i]) == gone + Expires(d) + AllExpired(rest[..k]);
    }
  }

  lemma {:induction false} DeltaBlamed(db: Db, lim: Limits, before: seq<Delta>, gone: set<int>, d: Delta, e: Error)
    requires ValidateDelta(db, lim, gone, d) == Err(e) && forall id :: id in gone ==> Retired(before, id)
    ensures Explains(db, lim, before, d, e)
  {
    match d
    case Synthesize(sources, f) =>
      if Storable(lim, f) && sources != [] {
        SourcesBlamed(db, gone, sources, [], sources, gone, e);
      }
    case _ =>
  }

  lemma {:induction false} SourcesBlamed(db: Db, gone: set<int>, all: seq<int>, seen: seq<int>, rest: seq<int>,
                                         now: set<int>, e: Error)
    requires all == seen + rest && now == gone + Elements(seen) && ValidateSources(db, now, rest) == Err(e)
    ensures match e
      case UnknownFact(id) => id in all && id !in db.facts
      case AlreadyExpired(id) =>
        id in all && id in db.facts && (db.facts[id].expired.Some? || id in gone || Repeats(all, id))
      case _ => false
    decreases |rest|
  {
    var x := rest[0];
    assert all[|seen|] == x;
    assert x in all;
    if x in db.facts && db.facts[x].expired.None? && x !in now {
      assert all == (seen + [x]) + rest[1..];
      assert Elements(seen + [x]) == Elements(seen) + {x};
      SourcesBlamed(db, gone, all, seen + [x], rest[1..], now + {x}, e);
    } else if x in seen {
      var k :| 0 <= k < |seen| && seen[k] == x;
      assert all[k] == x && all[|seen|] == x;
    }
  }

  lemma {:induction false} ProcessedBlamed(db: Db, ids: seq<int>)
    requires FirstUnknown(db, ids).Some?
    ensures exists k :: FirstMissing(db, ids, k) && FirstUnknown(db, ids) == Some(UnknownFact(ids[k]))
  {
    if ids[0] in db.facts {
      var rest := ids[1..];
      ProcessedBlamed(db, rest);
      var k :| FirstMissing(db, rest, k) && FirstUnknown(db, rest) == Some(UnknownFact(rest[k]));
      assert ids[k + 1] == rest[k];
      forall j | 0 <= j < k + 1 ensures ids[j] in db.facts {
        assert j > 0 ==> ids[j] == rest[j - 1];
      }
      assert FirstMissing(db, ids, k + 1);
    } else {
      assert FirstMissing(db, ids, 0);
    }
  }
}
