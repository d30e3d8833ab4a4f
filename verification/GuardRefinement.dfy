/** The step the guard protocol takes for granted: applying a cycle report to the store
    (crates/me-backend-sqlite/src/sqlite/consolidation.rs:202-600) is an `Apply` step on the rows.

    So what `GuardProtocol` proves of runs holds of the facts the transaction leaves
    (`AppliedStoreIsSettled`).
  */
module GuardRefinement {
  import opened Collections
  import opened MemoryStore
  import C = CycleReports
  import G = GuardProtocol

  // ---------- the rows of a store ----------

  /** When each row became visible. */
  type Commits = map<int, int>

  function RowOf(f: Fact, committed: int): G.Row {
    G.Row(f.Active(), f.pinned, f.marked, committed, f.tValid, f.tInvalid)
  }

  /** Row by row the projection of the facts. */
  ghost predicate RowsAre(rows: map<int, G.Row>, db: Db, commits: Commits) {
    && (forall id :: id in rows <==> id in db.facts)
    && forall id :: id in rows ==> id in commits && rows[id] == RowOf(db.facts[id], commits[id])
  }

  /** The protocol state speaks of this store: same rows, and the highest id allocated so far. */
  ghost predicate Shows(s: G.State, db: Db, commits: Commits) {
    RowsAre(s.rows, db, commits) && s.hi == db.nextFact - 1
  }

  /** Rows that are new become visible at `clock`. */
  function Recommit(commits: Commits, before: Db, after: Db, clock: int): Commits
  {
    map id | id in after.facts :: if id in before.facts && id in commits then commits[id] else clock
  }

  /** What the cursor probe counts is the same in both. */
  lemma ProbeAgrees(s: G.State, db: Db, commits: Commits)
    requires Shows(s, db, commits)
    ensures G.EligibleIds(s) == C.CallerWrittenIds(db)
  {
    forall id ensures id in G.EligibleIds(s) <==> id in C.CallerWrittenIds(db) {
      if id in db.facts {
        assert s.rows[id] == RowOf(db.facts[id], commits[id]);
      }
    }
  }

  // ---------- a report is a step ----------

  function ReportOf(r: C.Report): G.Report {
    G.Report(G.Window(r.windowStart, r.windowEnd), Elements(r.processed))
  }

  /** `after` has the rows of `db` and the next `n` keys. */
  ghost predicate Extends(db: Db, after: Db, n: nat) {
    && after.nextFact == db.nextFact + n
    && forall id :: id in after.facts <==> id in db.facts || db.nextFact <= id < db.nextFact + n
  }

  /** The rows the report created, in key order. */
  ghost function NewRows(db: Db, after: Db, n: nat, clock: int): (rows: seq<G.Row>)
    requires Extends(db, after, n)
    ensures |rows| == n
    ensures forall k :: 0 <= k < n ==>
      db.nextFact + k in after.facts && rows[k] == RowOf(after.facts[db.nextFact + k], clock)
  {
    seq(n, k requires 0 <= k < n => RowOf(after.facts[db.nextFact + k], clock))
  }

  /** The step: what the log expires, the successors it leaves active, and the rows it creates. */
  ghost function StepOf(db: Db, r: C.Report, done: C.Applied, n: nat, clock: int): G.Event
    requires Extends(db, done.db, n)
  {
    G.Apply(ReportOf(r), C.AllExpired(r.deltas), done.outputs * db.facts.Keys, NewRows(db, done.db, n, clock))
  }

  /** The transaction went through from a store in order. */
  ghost predicate Goes(db: Db, lim: C.Limits, r: C.Report, now: int, done: C.Applied) {
    db.WellFormed() && Dimensioned(db, lim.dim) && C.ApplyReport(db, lim, true, r, now) == Ok(done)
  }

  /** What becomes of the columns of a row that was there. */
  ghost predicate Stays(f: Fact, g: Fact, gone: bool, named: bool) {
    && (g.Active() <==> f.Active() && !gone) && (g.marked <==> f.marked || named)
    && g.pinned == f.pinned && g.tValid == f.tValid && g.tInvalid == f.tInvalid
  }

  ghost predicate OldStay(db: Db, r: C.Report, done: C.Applied) {
    forall id :: id in db.facts ==> id in done.db.facts && Stays(
      db.facts[id], done.db.facts[id], id in C.AllExpired(r.deltas), id in r.processed || id in done.outputs)
  }

  lemma OldRows(db: Db, lim: C.Limits, r: C.Report, now: int, done: C.Applied)
    requires Goes(db, lim, r, now, done)
    ensures OldStay(db, r, done)
  {
    var log := C.AppliesCleanly(db, lim, r, now);
    forall id | id in db.facts
      ensures id in done.db.facts && Stays(
        db.facts[id], done.db.facts[id], id in C.AllExpired(r.deltas), id in r.processed || id in done.outputs)
    {
      assert C.SameButAge(db.facts[id], log.db.facts[id]);
      assert log.db.Has(id) <==> db.Has(id) && id !in C.AllExpired(r.deltas);
    }
  }

  ghost predicate NewMarked(db: Db, after: Db) {
    forall id :: id in after.facts && id !in db.facts ==> after.facts[id].marked
  }

  /** The new keys follow the counter, and their rows are marked. */
  lemma {:induction false} NewKeys(db: Db, lim: C.Limits, r: C.Report, now: int, done: C.Applied)
    requires Goes(db, lim, r, now, done)
    ensures Extends(db, done.db, C.Creations(r.deltas)) && NewMarked(db, done.db)
  {
    C.ApplyLogCreates(C.Applied(db, [], {}), lim, r.deltas, now);
    forall id | id in done.db.facts && id !in db.facts ensures done.db.facts[id].marked {
      C.MarkedAfter(db, lim, r, now, done, id);
    }
  }

  /** The row of one id after the step. */
  lemma OldRowAt(db: Db, r: C.Report, done: C.Applied, s: G.State, commits: Commits, outputs: seq<G.Row>, id: int)
    requires Shows(s, db, commits) && OldStay(db, r, done) && id in db.facts
    ensures var rows := G.RowsAfter(s, ReportOf(r), C.AllExpired(r.deltas), done.outputs * db.facts.Keys, outputs);
      id in rows && rows[id] == RowOf(done.db.facts[id], commits[id])
  {
    G.RowsAfterAt(s, ReportOf(r), C.AllExpired(r.deltas), done.outputs * db.facts.Keys, outputs, id);
    assert s.rows[id] == RowOf(db.facts[id], commits[id]);
    assert id in done.outputs <==> id in done.outputs * db.facts.Keys;
  }

  lemma NewRowAt(db: Db, r: C.Report, done: C.Applied, n: nat, s: G.State, commits: Commits, id: int)
    requires Shows(s, db, commits) && Extends(db, done.db, n) && id in done.db.facts && id !in db.facts
    ensures var rows := G.RowsAfter(s, ReportOf(r), C.AllExpired(r.deltas), done.outputs * db.facts.Keys,
                                    NewRows(db, done.db, n, s.clock));
      id in rows && rows[id] == RowOf(done.db.facts[id], s.clock)
  {
    var outputs, k := NewRows(db, done.db, n, s.clock), id - db.nextFact;
    G.RowsAfterAt(s, ReportOf(r), C.AllExpired(r.deltas), done.outputs * db.facts.Keys, outputs, id);
    assert outputs[k] == RowOf(done.db.facts[db.nextFact + k], s.clock);
  }

  lemma StepRows(db: Db, r: C.Report, done: C.Applied, n: nat, s: G.State, commits: Commits, rows: map<int, G.Row>)
    requires db.WellFormed() && Shows(s, db, commits) && Extends(db, done.db, n) && OldStay(db, r, done)
    requires rows == G.RowsAfter(s, ReportOf(r), C.AllExpired(r.deltas), done.outputs * db.facts.Keys,
                                 NewRows(db, done.db, n, s.clock))
    ensures RowsAre(rows, done.db, Recommit(commits, db, done.db, s.clock))
  {
    forall id ensures id in rows <==> id in done.db.facts {}
    forall id | id in rows
      ensures rows[id] == RowOf(done.db.facts[id], Recommit(commits, db, done.db, s.clock)[id])
    {
      if id in db.facts {
        OldRowAt(db, r, done, s, commits, NewRows(db, done.db, n, s.clock), id);
      } else {
        NewRowAt(db, r, done, n, s, commits, id);
      }
    }
  }

  /** Applying an accepted report is an `Apply` step of the protocol: same rows, counter and watermark. */
  lemma {:induction false} ReportIsStep(db: Db, lim: C.Limits, r: C.Report, now: int, done: C.Applied, s: G.State,
                                        commits: Commits) returns (e: G.Event)
    requires Goes(db, lim, r, now, done) && Shows(s, db, commits) && ReportOf(r) in s.reports
    ensures e.Apply? && e.report == ReportOf(r) && G.Enabled(s, e)
    ensures Shows(G.Next(s, e), done.db, Recommit(commits, db, done.db, s.clock))
    ensures G.Next(s, e).watermark == r.windowEnd
  {
    NewKeys(db, lim, r, now, done);
    OldRows(db, lim, r, now, done);
    var n := C.Creations(r.deltas);
    e := StepOf(db, r, done, n, s.clock);
    forall k | 0 <= k < |e.outputs| ensures e.outputs[k].marked && e.outputs[k].committed == s.clock {
      assert db.nextFact + k !in db.facts;
    }
    StepRows(db, r, done, n, s, commits, G.Next(s, e).rows);
  }

  /** When the fact was committed: before the report, or with it. */
  ghost function VisibleAt(db: Db, commits: Commits, clock: int, id: int): int
    requires id in db.facts ==> id in commits
  {
    if id in db.facts then commits[id] else clock
  }

  /** The fact is valid at the instant, which is not before `from`. */
  ghost predicate ValidFrom(f: Fact, from: int, x: int) {
    from <= x && (f.tValid.Some? ==> f.tValid.value <= x) && (f.tInvalid.Some? ==> x < f.tInvalid.value)
  }

  /** So the protocol's guarantee reaches the facts: from a state that has lost nothing, whatever the
      report's log did, every fact left active that was valid after its commit and before the window's end
      carries the mark, unless a cycle that was given it left it out; and the state has still lost nothing. */
  lemma {:induction false} AppliedStoreIsSettled(db: Db, lim: C.Limits, r: C.Report, now: int, done: C.Applied,
                                                 s: G.State, commits: Commits, id: int, x: int)
    returns (t: G.State)
    requires Goes(db, lim, r, now, done) && Shows(s, db, commits) && ReportOf(r) in s.reports && G.Lossless(s)
    ensures G.Lossless(t) && Shows(t, done.db, Recommit(commits, db, done.db, s.clock))
    ensures Live(done.db, id) && ValidFrom(done.db.facts[id], VisibleAt(db, commits, s.clock, id), x) && x < r.windowEnd
      ==> done.db.facts[id].marked || id in s.omitted
    ensures t.omitted == s.omitted
  {
    var e := ReportIsStep(db, lim, r, now, done, s, commits);
    t := G.Next(s, e);
    G.LosslessStep(s, e);
    if id in done.db.facts {
      assert t.rows[id] == RowOf(done.db.facts[id], if id in db.facts then commits[id] else s.clock);
    }
  }

  // ---------- the callers' writes are steps ----------

  /** A caller's insert is a `Write` step. */
  lemma {:induction false} InsertIsStep(db: Db, s: G.State, commits: Commits, f: Fact) returns (e: G.Event)
    requires db.WellFormed() && Shows(s, db, commits) && f.expired.None?
    ensures e == G.Write(G.Row(true, f.pinned, f.marked, s.clock, f.tValid, f.tInvalid)) && G.Enabled(s, e)
    ensures Shows(G.Next(s, e), InsertFact(db, f), commits[db.nextFact := s.clock])
  {
    e := G.Write(G.Row(true, f.pinned, f.marked, s.clock, f.tValid, f.tInvalid));
  }

  /** An expiry, a change of pin and the purge of an expired row are the steps of those names. */
  lemma {:induction false} EditsAreSteps(db: Db, s: G.State, commits: Commits, id: int, now: int, pin: bool)
    requires db.WellFormed() && Shows(s, db, commits) && id in db.facts
    ensures Shows(G.Next(s, G.Expire(id)), ExpireFact(db, id, now), commits)
    ensures Shows(G.Next(s, G.SetPinned(id, pin)), db.(facts := db.facts[id := db.facts[id].(pinned := pin)]), commits)
    ensures db.facts[id].expired.Some? ==>
      G.Enabled(s, G.Purge(id)) && Shows(G.Next(s, G.Purge(id)), HardDelete(db, {id}), commits)
  {
    assert s.rows[id] == RowOf(db.facts[id], commits[id]);
  }

  /** What a window selects is the active, unmarked facts of the store whose validity overlaps it. */
  lemma SelectionIs(s: G.State, db: Db, commits: Commits, w: G.Window, id: int)
    requires Shows(s, db, commits)
    ensures id in G.Selection(s, w) <==>
      && Live(db, id) && !db.facts[id].marked
      && !(db.facts[id].tValid.Some? && w.end <= db.facts[id].tValid.value)
      && !(db.facts[id].tInvalid.Some? && db.facts[id].tInvalid.value <= w.start)
  {
    if id in db.facts {
      assert s.rows[id] == RowOf(db.facts[id], commits[id]);
    }
  }

  /** And the guards see what invariant M says: no id the report processed, expired or put out is eligible
      in the state after it, and no other stops being so. */
  lemma {:induction false} EligibleAfter(db: Db, lim: C.Limits, r: C.Report, now: int, done: C.Applied, s: G.State,
                                         commits: Commits) returns (e: G.Event)
    requires Goes(db, lim, r, now, done) && Shows(s, db, commits) && ReportOf(r) in s.reports
    ensures e.Apply? && G.Enabled(s, e)
    ensures G.EligibleIds(G.Next(s, e))
      == G.EligibleIds(s) - Elements(r.processed) - C.AllExpired(r.deltas) - done.outputs
  {
    e := ReportIsStep(db, lim, r, now, done, s, commits);
    ProbeAgrees(s, db, commits);
    ProbeAgrees(G.Next(s, e), done.db, Recommit(commits, db, done.db, s.clock));
    C.InvariantM(db, lim, r, now, done);
  }
}
