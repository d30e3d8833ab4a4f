/** The guarded dream cycle (crates/me-cognitive/src/cognitive.rs) as a step system.

    Every port call is one step, and caller writes, other guards and report applications may
    fall between any two. The theorems are about all runs: what the caller-write cursor can
    never pass, how often guards stand down, and that standing down loses no fact.
  */
module GuardProtocol {
  import opened Collections

  const EPOCH := 0

  /** The columns the protocol reads; `committed` is the clock when the row became visible. */
  datatype Row = Row(active: bool, pinned: bool, marked: bool, committed: int, tValid: Option<int>,
                     tInvalid: Option<int>)
  {
    /** Counted by the cursor probe. */
    predicate Eligible() { active && !pinned && !marked }

    /** The first instant from which a committed row is valid. */
    function From(): int { if tValid.Some? && tValid.value > committed then tValid.value else committed }

    /** Some instant before `t` lies after the commit and inside the validity interval. */
    predicate MetBefore(t: int) { From() < t && (tInvalid.None? || From() < tInvalid.value) }
  }

  datatype Window = Window(start: int, end: int)

  /** `list_undreamt_in_period`: active, unmarked, validity overlapping the window. */
  predicate Selects(w: Window, f: Row) {
    && f.active && !f.marked
    && (f.tValid.None? || f.tValid.value < w.end)
    && (f.tInvalid.None? || f.tInvalid.value > w.start)
  }

  /** The row is valid at the instant, which lies in the window, its end excluded. */
  ghost predicate ValidIn(w: Window, f: Row, x: int) {
    w.start <= x < w.end && (f.tValid.Some? ==> f.tValid.value <= x) && (f.tInvalid.Some? ==> x < f.tInvalid.value)
  }

  /** For a window and a validity that are not empty: an active, unmarked row is selected exactly when it is
      valid at some instant of the window. */
  lemma SelectsIff(w: Window, f: Row)
    requires w.start < w.end && (f.tValid.Some? && f.tInvalid.Some? ==> f.tValid.value < f.tInvalid.value)
    ensures Selects(w, f) <==> f.active && !f.marked && exists x :: ValidIn(w, f, x)
  {
    if Selects(w, f) {
      assert ValidIn(w, f, if f.tValid.Some? && f.tValid.value > w.start then f.tValid.value else w.start);
    }
  }

  datatype Report = Report(window: Window, processed: set<int>)

  /** Where a guarded call stands between port calls. */
  datatype Pc =
    | Idle
    | HasCursor(cursor: int)
    | HasMax(cursor: int, max: int)
    | Running
    | HasNow(end: int)
    | HasWindow(window: Window)

  /** Store, clock, guards, reports; the last four fields record history. `omitted` are the ids some
      cycle was given and did not report as processed. */
  datatype State = State(
    rows: map<int, Row>, hi: int, cursor: int, watermark: int, clock: int,
    guards: map<int, Pc>, reports: set<Report>,
    applied: set<Window>, granted: set<int>, skipped: set<int>, omitted: set<int>)

  datatype Event =
    | Tick(span: nat)
    | Write(row: Row)
    | Expire(id: int)
    | SetPinned(id: int, pinned: bool)
    | Purge(id: int)
    | Enter(g: int)
    | ReadCursor(g: int)
    | ReadMax(g: int)
    | SetCursor(g: int)
    | ReadClock(g: int)
    | ReadWatermark(g: int)
    | Emit(g: int, processed: set<int>)
    | Apply(report: Report, expired: set<int>, survivors: set<int>, outputs: seq<Row>)

  function PcOf(s: State, g: int): Pc { if g in s.guards then s.guards[g] else Idle }

  ghost function EligibleIds(s: State): set<int> {
    set id | id in s.rows && s.rows[id].Eligible()
  }

  /** `max` is the probe's answer: the highest eligible id. */
  ghost predicate IsMaxEligible(s: State, max: int) {
    max in EligibleIds(s) && forall id :: id in EligibleIds(s) ==> id <= max
  }

  lemma {:induction false} HighestExists(ids: set<int>) returns (max: int)
    requires ids != {}
    ensures max in ids && forall id :: id in ids ==> id <= max
    decreases |ids|
  {
    var first := Pick(ids);
    var rest := ids - {first};
    if rest == {} {
      max := first;
    } else {
      var m := HighestExists(rest);
      max := if m > first then m else first;
    }
    forall id | id in ids ensures id <= max {
      assert id == first || id in rest;
    }
  }

  /** `max_caller_written_fact_id`. */
  ghost function Probe(s: State): (r: Option<int>)
    ensures r.None? <==> EligibleIds(s) == {}
    ensures r.Some? ==> IsMaxEligible(s, r.value)
  {
    if EligibleIds(s) == {} then None
    else
      assert exists max :: IsMaxEligible(s, max) by {
        var m := HighestExists(EligibleIds(s));
        assert IsMaxEligible(s, m);
      }
      var max :| IsMaxEligible(s, max); Some(max)
  }

  predicate Enabled(s: State, e: Event) {
    match e
    case Tick(_) => true
    case Write(row) => row.active && row.committed == s.clock
    case Expire(id) => id in s.rows
    case SetPinned(id, _) => id in s.rows
    case Purge(id) => id in s.rows && !s.rows[id].active
    case Enter(g) => PcOf(s, g).Idle?
    case ReadCursor(g) => PcOf(s, g).Idle?
    case ReadMax(g) => PcOf(s, g).HasCursor?
    case SetCursor(g) => PcOf(s, g).HasMax?
    case ReadClock(g) => PcOf(s, g).Running?
    case ReadWatermark(g) => PcOf(s, g).HasNow?
    case Emit(g, _) => PcOf(s, g).HasWindow?
    case Apply(r, _, _, outputs) =>
      r in s.reports && forall k :: 0 <= k < |outputs| ==> outputs[k].marked && outputs[k].committed == s.clock
  }

  function At(s: State, g: int, pc: Pc): State { s.(guards := s.guards[g := pc]) }

  /** The decision after the probe: stand down if the caller wrote since the cursor. */
  function Decide(cursor: int, max: Option<int>): Pc {
    if max.Some? && max.value > cursor then HasMax(cursor, max.value) else Running
  }

  ghost function Selection(s: State, w: Window): set<int> {
    set id | id in s.rows && Selects(w, s.rows[id])
  }

  /** Processed inputs and surviving successors are marked, the expired inactive, and the cycle's own
      rows join with the next ids. That `apply_cycle_report` does this is `GuardRefinement.ReportIsStep`. */
  function RowsAfter(s: State, r: Report, expired: set<int>, survivors: set<int>, outputs: seq<Row>): map<int, Row> {
    map id | id in s.rows.Keys + NewIds(s.hi, |outputs|) ::
      if id in s.rows then OldAfter(s.rows[id], id, r, expired, survivors) else outputs[id - s.hi - 1]
  }

  function OldAfter(row: Row, id: int, r: Report, expired: set<int>, survivors: set<int>): Row {
    row.(active := row.active && id !in expired, marked := row.marked || id in r.processed || id in survivors)
  }

  lemma RowsAfterAt(s: State, r: Report, expired: set<int>, survivors: set<int>, outputs: seq<Row>, id: int)
    ensures id in RowsAfter(s, r, expired, survivors, outputs) <==> id in s.rows || s.hi < id <= s.hi + |outputs|
    ensures id in s.rows ==>
      RowsAfter(s, r, expired, survivors, outputs)[id] == OldAfter(s.rows[id], id, r, expired, survivors)
    ensures id !in s.rows && s.hi < id <= s.hi + |outputs| ==>
      RowsAfter(s, r, expired, survivors, outputs)[id] == outputs[id - s.hi - 1]
  {}

  function NewIds(hi: int, n: nat): (r: set<int>)
    ensures forall id :: id in r <==> hi < id <= hi + n
  {
    if n == 0 then {} else NewIds(hi, n - 1) + {hi + n}
  }

  /** Ids of rows that a caller's step makes eligible. */
  function Grants(s: State, e: Event): set<int> {
    match e
    case Write(row) => if row.Eligible() then {s.hi + 1} else {}
    case SetPinned(id, pinned) =>
      if id in s.rows && !s.rows[id].Eligible() && s.rows[id].(pinned := pinned).Eligible() then {id} else {}
    case _ => {}
  }

  /** What an emitted report leaves out of the window's selection. */
  ghost function Omits(s: State, e: Event): set<int>
    requires Enabled(s, e)
  {
    if e.Emit? then Selection(s, PcOf(s, e.g).window) - e.processed else {}
  }

  ghost function Next(s: State, e: Event): State
    requires Enabled(s, e)
  {
    match e
    case Tick(span) => s.(clock := s.clock + span)
    case Write(row) => s.(rows := s.rows[s.hi + 1 := row], hi := s.hi + 1, granted := s.granted + Grants(s, e))
    case Expire(id) => s.(rows := s.rows[id := s.rows[id].(active := false)])
    case SetPinned(id, p) => s.(rows := s.rows[id := s.rows[id].(pinned := p)], granted := s.granted + Grants(s, e))
    case Purge(id) => s.(rows := s.rows - {id})
    case Enter(g) => At(s, g, Running)
    case ReadCursor(g) => At(s, g, HasCursor(s.cursor))
    case ReadMax(g) => At(s, g, Decide(PcOf(s, g).cursor, Probe(s)))
    case SetCursor(g) => At(s, g, Idle).(cursor := PcOf(s, g).max, skipped := s.skipped + {PcOf(s, g).max})
    case ReadClock(g) => At(s, g, HasNow(s.clock))
    case ReadWatermark(g) => At(s, g, HasWindow(Window(s.watermark, PcOf(s, g).end)))
    case Emit(g, processed) =>
      var w := PcOf(s, g).window;
      At(s, g, Idle).(reports := s.reports + {Report(w, processed)}, omitted := s.omitted + Omits(s, e))
    case Apply(r, expired, survivors, outputs) =>
      s.(rows := RowsAfter(s, r, expired, survivors, outputs), hi := s.hi + |outputs|,
         watermark := r.window.end, applied := s.applied + {r.window})
  }

  predicate Initial(s: State) {
    && s.rows == map[] && s.hi == 0 && s.cursor == 0 && s.watermark == EPOCH && s.clock >= EPOCH
    && s.guards == map[] && s.reports == {} && s.applied == {}
    && s.granted == {} && s.skipped == {} && s.omitted == {}
  }

  /** Consecutive states of a run, from any state. */
  ghost predicate IsRun(states: seq<State>, events: seq<Event>) {
    && |states| == |events| + 1
    && forall k :: 0 <= k < |events| ==> Enabled(states[k], events[k]) && states[k + 1] == Next(states[k], events[k])
  }

  lemma Extend(states: seq<State>, events: seq<Event>, e: Event) returns (more: seq<State>)
    requires IsRun(states, events) && Enabled(states[|events|], e)
    ensures more == states + [Next(states[|events|], e)] && IsRun(more, events + [e])
  {
    more := states + [Next(states[|events|], e)];
    forall k | 0 <= k < |events + [e]|
      ensures Enabled(more[k], (events + [e])[k]) && more[k + 1] == Next(more[k], (events + [e])[k])
    {
      assert k < |events| ==> Enabled(states[k], events[k]);
    }
  }

  // ---------- any number of guards ----------

  /** Ids and cursors never pass the highest id ever allocated. */
  ghost predicate Bounded(s: State) {
    && s.hi >= 0 && s.cursor <= s.hi
    && (forall id :: id in s.rows ==> id <= s.hi)
    && (forall g :: PcOf(s, g).HasMax? ==> PcOf(s, g).max <= s.hi)
  }

  lemma BoundedStep(s: State, e: Event)
    requires Bounded(s) && Enabled(s, e)
    ensures Bounded(Next(s, e)) && s.hi <= Next(s, e).hi
  {
    var t := Next(s, e);
    forall g | PcOf(t, g).HasMax? ensures PcOf(t, g).max <= t.hi {
      if !(e.ReadMax? && e.g == g) {
        assert PcOf(s, g) == PcOf(t, g);
      }
    }
  }

  lemma {:induction false} BoundedRun(states: seq<State>, events: seq<Event>, i: nat, j: nat)
    requires IsRun(states, events) && i <= j < |states| && Bounded(states[i])
    ensures Bounded(states[j]) && states[i].hi <= states[j].hi
  {
    if i < j {
      BoundedRun(states, events, i, j - 1);
      BoundedStep(states[j - 1], events[j - 1]);
    }
  }

  /** A write landing after a guard's probe always gets an id above the cursor that guard leaves. */
  lemma LateWriteStaysAbove(states: seq<State>, events: seq<Event>, i: nat, j: nat, g: int)
    requires IsRun(states, events) && Initial(states[0])
    requires i <= j < |events| && PcOf(states[i], g).HasMax? && events[j].Write?
    ensures states[j + 1].hi in states[j + 1].rows && states[j + 1].rows[states[j + 1].hi] == events[j].row
    ensures states[j + 1].hi > PcOf(states[i], g).max && states[j + 1].hi > states[j].cursor
  {
    BoundedRun(states, events, 0, i);
    BoundedRun(states, events, i, j);
  }

  function ProbeEvents(g: int, row: Row): seq<Event> { [Write(row), ReadCursor(g), ReadMax(g)] }

  /** A caller writes and a guard then reads the cursor and probes: it holds the new id. */
  lemma WriteThenProbe(states: seq<State>, events: seq<Event>, g: int, row: Row) returns (more: seq<State>)
    requires IsRun(states, events) && Bounded(states[|events|]) && PcOf(states[|events|], g).Idle?
    requires row.Eligible() && row.committed == states[|events|].clock
    ensures IsRun(more, events + ProbeEvents(g, row)) && more[0] == states[0]
    ensures var s, t := states[|events|], more[|events| + 3];
      && Bounded(t) && t.cursor == s.cursor && t.hi == s.hi + 1 && t.clock == s.clock
      && PcOf(t, g) == HasMax(s.cursor, s.hi + 1)
      && forall h :: h != g ==> PcOf(t, h) == PcOf(s, h)
  {
    var s := states[|events|];
    more := Extend(states, events, Write(row));
    more := Extend(more, events + [Write(row)], ReadCursor(g));
    var t := more[|events| + 2];
    assert IsMaxEligible(t, s.hi + 1);
    assert events + [Write(row)] + [ReadCursor(g)] + [ReadMax(g)] == events + ProbeEvents(g, row);
    BoundedStep(s, Write(row));
    BoundedStep(more[|events| + 1], ReadCursor(g));
    BoundedStep(t, ReadMax(g));
    more := Extend(more, events + [Write(row)] + [ReadCursor(g)], ReadMax(g));
  }

  /** With two guards the cursor can go back: the second reads and probes after one more write and
      stores the higher id, then the first stores its older maximum. */
  lemma CursorCanRetreat() returns (states: seq<State>, events: seq<Event>)
    ensures IsRun(states, events) && Initial(states[0]) && |events| == 8
    ensures states[7].cursor == 2 && states[8].cursor == 1
  {
    var row := Row(true, false, false, 0, None, None);
    states := WriteThenProbe([State(map[], 0, 0, EPOCH, 0, map[], {}, {}, {}, {}, {})], [], 1, row);
    events := [] + ProbeEvents(1, row);
    states := WriteThenProbe(states, events, 2, row);
    events := events + ProbeEvents(2, row);
    states := Extend(states, events, SetCursor(2));
    events := events + [SetCursor(2)];
    states := Extend(states, events, SetCursor(1));
    events := events + [SetCursor(1)];
  }

  // ---------- one guard at a time ----------

  predicate Deciding(pc: Pc) { pc.HasCursor? || pc.HasMax? }

  /** No two guards are between reading the cursor and deciding. */
  ghost predicate Solo(s: State) {
    forall g, h :: Deciding(PcOf(s, g)) && Deciding(PcOf(s, h)) ==> g == h
  }

  /** The deciding guard's copy of the cursor is current, and what it saw is granted. */
  ghost predicate Current(s: State) {
    && (forall g :: Deciding(PcOf(s, g)) ==> PcOf(s, g).cursor == s.cursor)
    && (forall g :: PcOf(s, g).HasMax? ==> PcOf(s, g).max > s.cursor && PcOf(s, g).max in s.granted)
    && EligibleIds(s) <= s.granted
    && s.skipped <= s.granted
    && (forall m :: m in s.skipped ==> m <= s.cursor)
  }

  lemma EligibleStep(s: State, e: Event)
    requires Enabled(s, e)
    ensures EligibleIds(Next(s, e)) <= EligibleIds(s) + Grants(s, e)
  {
    forall id | id in EligibleIds(Next(s, e)) ensures id in EligibleIds(s) + Grants(s, e) {
      assert id in s.rows ==> (s.rows[id].Eligible() <==> id in EligibleIds(s));
    }
  }

  /** After the only deciding guard has stored the cursor, none is deciding. */
  lemma StoreLeavesNone(s: State, e: Event, g: int)
    requires Solo(s) && Enabled(s, e) && e.SetCursor?
    ensures !Deciding(PcOf(Next(s, e), g))
  {
    assert Deciding(PcOf(s, e.g));
    assert g != e.g ==> PcOf(Next(s, e), g) == PcOf(s, g);
  }

  lemma DecidingStep(s: State, e: Event, g: int)
    requires Current(s) && Enabled(s, e) && !e.SetCursor? && Deciding(PcOf(Next(s, e), g))
    ensures PcOf(Next(s, e), g).cursor == s.cursor
    ensures PcOf(Next(s, e), g).HasMax? ==> PcOf(Next(s, e), g).max > s.cursor && PcOf(Next(s, e), g).max in s.granted
  {
    var t := Next(s, e);
    if (e.ReadMax? || e.ReadCursor?) && e.g == g {
      assert e.ReadMax? ==> PcOf(t, g) == Decide(s.cursor, Probe(s));
    } else {
      assert PcOf(t, g) == PcOf(s, g);
    }
  }

  lemma CurrentStep(s: State, e: Event)
    requires Current(s) && Solo(s) && Enabled(s, e)
    ensures Current(Next(s, e)) && s.cursor <= Next(s, e).cursor
    ensures e.SetCursor? ==> PcOf(s, e.g).max !in s.skipped
  {
    var t := Next(s, e);
    EligibleStep(s, e);
    forall g | Deciding(PcOf(t, g))
      ensures PcOf(t, g).cursor == t.cursor
      ensures PcOf(t, g).HasMax? ==> PcOf(t, g).max > t.cursor && PcOf(t, g).max in t.granted
    {
      if e.SetCursor? {
        StoreLeavesNone(s, e, g);
      } else {
        DecidingStep(s, e, g);
      }
    }
  }

  /** Every state of the run up to `j` is solo. */
  ghost predicate SoloUpTo(states: seq<State>, j: nat) {
    forall k :: 0 <= k < j && k < |states| ==> Solo(states[k])
  }

  lemma {:induction false} CurrentRun(states: seq<State>, events: seq<Event>, i: nat, j: nat)
    requires IsRun(states, events) && i <= j < |states| && SoloUpTo(states, j) && Current(states[i])
    ensures Current(states[j]) && states[i].cursor <= states[j].cursor
  {
    if i < j {
      CurrentRun(states, events, i, j - 1);
      CurrentStep(states[j - 1], events[j - 1]);
    }
  }

  /** One guard at a time: the cursor never decreases. */
  lemma CursorMonotone(states: seq<State>, events: seq<Event>, i: nat, j: nat)
    requires IsRun(states, events) && Initial(states[0]) && i <= j < |states| && SoloUpTo(states, j)
    ensures states[i].cursor <= states[j].cursor
  {
    CurrentRun(states, events, 0, i);
    CurrentRun(states, events, i, j);
  }

  // ---------- when a store takes the cursor back ----------

  /** Guard `g` read the cursor at `a` and is deciding on it ever since, up to `b`. */
  ghost predicate Decides(states: seq<State>, events: seq<Event>, a: nat, b: nat, g: int)
    requires b < |states| && |events| + 1 == |states|
  {
    a < b && events[a] == ReadCursor(g) && forall k :: a < k <= b ==> Deciding(PcOf(states[k], g))
  }

  /** Whoever is deciding has read the cursor at some point. */
  lemma {:induction false} DecisionStarts(states: seq<State>, events: seq<Event>, b: nat, g: int) returns (a: nat)
    requires IsRun(states, events) && Initial(states[0]) && b < |states| && Deciding(PcOf(states[b], g))
    ensures Decides(states, events, a, b, g)
  {
    assert Enabled(states[b - 1], events[b - 1]) && states[b] == Next(states[b - 1], events[b - 1]);
    if Deciding(PcOf(states[b - 1], g)) {
      a := DecisionStarts(states, events, b - 1, g);
    } else {
      a := b - 1;
    }
  }

  /** Its copy is the cursor of that moment, and a maximum it holds lies above it. */
  lemma {:induction false} CopyHeld(states: seq<State>, events: seq<Event>, a: nat, b: nat, g: int)
    requires IsRun(states, events) && b < |states| && Decides(states, events, a, b, g)
    ensures PcOf(states[b], g).cursor == states[a].cursor
    ensures PcOf(states[b], g).HasMax? ==> PcOf(states[b], g).max > states[a].cursor
  {
    assert Enabled(states[b - 1], events[b - 1]) && states[b] == Next(states[b - 1], events[b - 1]);
    if a + 1 < b {
      CopyHeld(states, events, a, b - 1, g);
      assert Deciding(PcOf(states[b - 1], g));
    }
  }

  /** The last store between `a` and `b`. */
  ghost predicate LastStore(events: seq<Event>, a: nat, b: nat, k: int) {
    a < k < b <= |events| && events[k].SetCursor? && forall m :: k < m < b ==> !events[m].SetCursor?
  }

  /** The cursor is what the last store left, or what it was. */
  lemma {:induction false} CursorIs(states: seq<State>, events: seq<Event>, a: nat, b: nat)
    requires IsRun(states, events) && a < b < |states| && !events[a].SetCursor?
    ensures states[b].cursor == states[a].cursor || exists k :: LastStore(events, a, b, k)
    ensures forall k :: LastStore(events, a, b, k) ==> states[b].cursor == PcOf(states[k], events[k].g).max
  {
    var e := events[b - 1];
    assert Enabled(states[b - 1], e) && states[b] == Next(states[b - 1], e);
    if a + 1 < b {
      CursorIs(states, events, a, b - 1);
      if e.SetCursor? {
        assert LastStore(events, a, b, b - 1);
      } else {
        var last := b - 1;
        forall k ensures LastStore(events, a, b, k) <==> LastStore(events, a, last, k) {}
        if k :| LastStore(events, a, last, k) {
          assert LastStore(events, a, b, k);
        }
      }
    }
  }

  /** Exactly when a guard that stands down lowers the cursor: when the last store since it read the cursor, which
      is another guard's, was of a higher maximum. */
  lemma {:induction false} StoreLowersIff(states: seq<State>, events: seq<Event>, a: nat, b: nat, g: int)
    requires IsRun(states, events) && b < |events| && events[b] == SetCursor(g) && Decides(states, events, a, b, g)
    ensures states[b + 1].cursor < states[b].cursor <==>
      exists k :: LastStore(events, a, b, k) && PcOf(states[k], events[k].g).max > PcOf(states[b], g).max
    ensures forall k :: LastStore(events, a, b, k) ==> events[k].g != g
  {
    assert Enabled(states[b], events[b]) && states[b + 1] == Next(states[b], events[b]);
    CopyHeld(states, events, a, b, g);
    CursorIs(states, events, a, b);
    forall k | LastStore(events, a, b, k) ensures events[k].g != g {
      assert Enabled(states[k], events[k]) && states[k + 1] == Next(states[k], events[k]);
      assert Deciding(PcOf(states[k + 1], g));
    }
  }

  function Skips(events: seq<Event>): nat {
    if events == [] then 0
    else Skips(events[..|events| - 1]) + if events[|events| - 1].SetCursor? then 1 else 0
  }

  /** How many times a caller made some fact eligible. */
  ghost function GrantCount(states: seq<State>, events: seq<Event>): nat
    requires |states| == |events| + 1
  {
    if events == [] then 0
    else
      var n := |events| - 1;
      GrantCount(states[..n + 1], events[..n]) + |Grants(states[n], events[n])|
  }

  lemma {:induction false} SkipsAreCounted(states: seq<State>, events: seq<Event>)
    requires IsRun(states, events) && Initial(states[0]) && SoloUpTo(states, |events|)
    ensures |states[|events|].skipped| == Skips(events)
    ensures |states[|events|].granted| <= GrantCount(states, events)
    ensures Current(states[|events|])
  {
    if events != [] {
      var n := |events| - 1;
      var init, before, e := states[..n + 1], states[n], events[n];
      assert IsRun(init, events[..n]) by {
        forall k | 0 <= k < n
          ensures Enabled(init[k], events[..n][k]) && init[k + 1] == Next(init[k], events[..n][k])
        {
          assert Enabled(states[k], events[k]);
        }
      }
      SkipsAreCounted(init, events[..n]);
      assert Enabled(before, e) && states[n + 1] == Next(before, e);
      CurrentStep(before, e);
      HistoryStep(before, e);
    }
  }

  lemma HistoryStep(s: State, e: Event)
    requires Enabled(s, e) && (e.SetCursor? ==> PcOf(s, e.g).max !in s.skipped)
    ensures |Next(s, e).skipped| == |s.skipped| + if e.SetCursor? then 1 else 0
    ensures |Next(s, e).granted| <= |s.granted| + |Grants(s, e)|
  {
    assert s.granted + {} == s.granted;
    if e.Write? || e.SetPinned? {
      UnionSize(s.granted, Grants(s, e));
    }
  }

  lemma UnionSize(a: set<int>, b: set<int>)
    ensures |a + b| <= |a| + |b|
  {
    assert a + b == a + (b - a);
    SubsetSize(b - a, b);
  }

  /** Guards stand down at most as often as a caller made a fact eligible. */
  lemma {:induction false} SkipsBounded(states: seq<State>, events: seq<Event>)
    requires IsRun(states, events) && Initial(states[0]) && SoloUpTo(states, |events|)
    ensures Skips(events) <= GrantCount(states, events)
  {
    SkipsAreCounted(states, events);
    SubsetSize(states[|events|].skipped, states[|events|].granted);
  }

  /** After a guard has probed `m`, while nothing becomes eligible. */
  ghost predicate Quiet(s: State, m: int) {
    && (forall id :: id in EligibleIds(s) ==> id <= m)
    && (forall g :: PcOf(s, g).HasMax? ==> PcOf(s, g).max <= m)
  }

  lemma QuietStep(s: State, e: Event, m: int)
    requires Quiet(s, m) && Enabled(s, e) && Grants(s, e) == {}
    ensures Quiet(Next(s, e), m)
  {
    var t := Next(s, e);
    EligibleStep(s, e);
    assert EligibleIds(s) + {} == EligibleIds(s);
    forall g | PcOf(t, g).HasMax? ensures PcOf(t, g).max <= m {
      if !(e.ReadMax? && e.g == g) {
        assert PcOf(s, g) == PcOf(t, g);
      }
    }
  }

  lemma {:induction false} QuietRun(states: seq<State>, events: seq<Event>, i: nat, j: nat, m: int)
    requires IsRun(states, events) && i <= j < |states| && Quiet(states[i], m)
    requires forall k :: i <= k < j ==> Grants(states[k], events[k]) == {}
    ensures Quiet(states[j], m)
  {
    if i < j {
      QuietRun(states, events, i, j - 1, m);
      QuietStep(states[j - 1], events[j - 1], m);
    }
  }

  /** Two guarded calls cannot both stand down when nothing became eligible since the first probe. */
  lemma NoSecondSkip(states: seq<State>, events: seq<Event>, a: nat, b: nat, c: nat, g: int)
    requires IsRun(states, events) && Initial(states[0]) && a < b < c < |events| && SoloUpTo(states, c)
    requires events[a] == ReadMax(g) && events[b] == SetCursor(g)
    requires forall k :: a < k < b ==> PcOf(states[k + 1], g) == PcOf(states[k], g)
    requires forall k :: a < k < c ==> Grants(states[k], events[k]) == {}
    ensures !events[c].SetCursor?
  {
    CurrentRun(states, events, 0, a);
    PcHeld(states, g, a + 1, b);
    var m := PcOf(states[b], g).max;
    assert Enabled(states[a], events[a]) && states[a + 1] == Next(states[a], events[a]);
    assert EligibleIds(states[a + 1]) == EligibleIds(states[a]);
    CurrentRun(states, events, a, a + 1);
    assert Quiet(states[a + 1], m);
    QuietRun(states, events, a + 1, c, m);
    assert Enabled(states[b], events[b]) && states[b + 1] == Next(states[b], events[b]);
    CurrentRun(states, events, a + 1, b + 1);
    CurrentRun(states, events, b + 1, c);
    assert Enabled(states[c], events[c]);
  }

  lemma {:induction false} PcHeld(states: seq<State>, g: int, i: nat, j: nat)
    requires i <= j < |states| && forall k :: i <= k < j ==> PcOf(states[k + 1], g) == PcOf(states[k], g)
    ensures PcOf(states[j], g) == PcOf(states[i], g)
  {
    if i < j {
      PcHeld(states, g, i, j - 1);
    }
  }

  // ---------- deferral is not loss: any number of guards, reports applied in any order ----------

  ghost predicate InSome(ws: set<Window>, x: int) { exists w :: w in ws && w.start <= x < w.end }

  /** Everything from the epoch up to `t` lies in the window of an applied report. */
  ghost predicate Covered(applied: set<Window>, t: int) {
    forall x :: EPOCH <= x < t ==> InSome(applied, x)
  }

  /** Every active row met before `t` is marked, or is one of `extra`. */
  ghost predicate Settled(rows: map<int, Row>, t: int, extra: set<int>) {
    forall id :: id in rows && rows[id].active && rows[id].MetBefore(t) ==> rows[id].marked || id in extra
  }

  /** Nothing dated in the future, and every window that is out starts where the work is done. */
  ghost predicate Lossless(s: State) {
    && Bounded(s)
    && s.watermark <= s.clock && Covered(s.applied, s.watermark) && Settled(s.rows, s.watermark, s.omitted)
    && (forall g :: PcOf(s, g).HasNow? ==> PcOf(s, g).end <= s.clock)
    && (forall g :: PcOf(s, g).HasWindow? ==> Opened(s, PcOf(s, g).window))
    && (forall r :: r in s.reports ==> Closed(s, r))
  }

  ghost predicate Opened(s: State, w: Window) {
    w.start <= s.clock && w.end <= s.clock && Covered(s.applied, w.start) && Settled(s.rows, w.start, s.omitted)
  }

  ghost predicate Closed(s: State, r: Report) {
    && r.window.end <= s.clock && Covered(s.applied, r.window.start)
    && Settled(s.rows, r.window.end, r.processed + s.omitted)
  }

  /** What every step keeps about a bound that is not in the future. */
  lemma SettledStep(s: State, e: Event, t: int, extra: set<int>)
    requires Bounded(s) && Enabled(s, e) && t <= s.clock
    requires Settled(s.rows, t, extra + s.omitted)
    ensures Settled(Next(s, e).rows, t, extra + Next(s, e).omitted) && t <= Next(s, e).clock
  {
    var u := Next(s, e).rows;
    forall id | id in u && u[id].active && u[id].MetBefore(t)
      ensures u[id].marked || id in extra + Next(s, e).omitted
    {
      if id in s.rows {
        assert u[id].From() == s.rows[id].From();
        assert s.rows[id].active && s.rows[id].MetBefore(t);
      }
    }
  }

  lemma CoveredStep(s: State, e: Event, t: int)
    requires Enabled(s, e) && Covered(s.applied, t)
    ensures Covered(Next(s, e).applied, t)
  {
    forall x | EPOCH <= x < t ensures InSome(Next(s, e).applied, x) {
      assert InSome(s.applied, x);
      var w :| w in s.applied && w.start <= x < w.end;
      assert w in Next(s, e).applied;
    }
  }

  /** The selection of a window takes whatever was met after its start; what is not processed is omitted. */
  lemma SelectionCloses(s: State, w: Window, processed: set<int>)
    requires Opened(s, w)
    ensures Settled(s.rows, w.end, processed + (s.omitted + (Selection(s, w) - processed)))
  {
    forall id | id in s.rows && s.rows[id].active && s.rows[id].MetBefore(w.end)
      ensures s.rows[id].marked || id in processed + (s.omitted + (Selection(s, w) - processed))
    {
      if !s.rows[id].MetBefore(w.start) {
        assert s.rows[id].From() >= w.start;
      }
    }
  }

  /** Applying a report settles everything up to its window's end. */
  lemma ApplySettles(s: State, e: Event)
    requires Bounded(s) && Enabled(s, e) && e.Apply? && Closed(s, e.report)
    ensures Settled(Next(s, e).rows, e.report.window.end, Next(s, e).omitted)
    ensures Covered(Next(s, e).applied, e.report.window.end)
  {
    SettledStep(s, e, e.report.window.end, e.report.processed);
    CoveredStep(s, e, e.report.window.start);
    var applied, w := Next(s, e).applied, e.report.window;
    assert w in applied;
    forall x | EPOCH <= x < w.end ensures InSome(applied, x) {
      assert x < w.start ==> InSome(applied, x);
    }
  }

  lemma LosslessStep(s: State, e: Event)
    requires Lossless(s) && Enabled(s, e)
    ensures Lossless(Next(s, e))
  {
    BoundedStep(s, e);
    WatermarkStep(s, e);
    WindowsStep(s, e);
    ReportsStep(s, e);
  }

  lemma WatermarkStep(s: State, e: Event)
    requires Lossless(s) && Enabled(s, e)
    ensures Next(s, e).watermark <= Next(s, e).clock
    ensures Covered(Next(s, e).applied, Next(s, e).watermark)
    ensures Settled(Next(s, e).rows, Next(s, e).watermark, Next(s, e).omitted)
  {
    if e.Apply? {
      ApplySettles(s, e);
    } else {
      SettledKept(s, e, s.watermark);
      CoveredStep(s, e, s.watermark);
    }
  }

  lemma SettledKept(s: State, e: Event, t: int)
    requires Bounded(s) && Enabled(s, e) && t <= s.clock && Settled(s.rows, t, s.omitted)
    ensures Settled(Next(s, e).rows, t, Next(s, e).omitted)
  {
    assert {} + s.omitted == s.omitted && {} + Next(s, e).omitted == Next(s, e).omitted;
    SettledStep(s, e, t, {});
  }

  lemma WindowsStep(s: State, e: Event)
    requires Lossless(s) && Enabled(s, e)
    ensures forall g :: PcOf(Next(s, e), g).HasNow? ==> PcOf(Next(s, e), g).end <= Next(s, e).clock
    ensures forall g :: PcOf(Next(s, e), g).HasWindow? ==> Opened(Next(s, e), PcOf(Next(s, e), g).window)
  {
    var t := Next(s, e);
    forall g | PcOf(t, g).HasNow? ensures PcOf(t, g).end <= t.clock {
      assert (e.ReadClock? && e.g == g) || PcOf(s, g) == PcOf(t, g);
    }
    forall g | PcOf(t, g).HasWindow? ensures Opened(t, PcOf(t, g).window) {
      var w := PcOf(t, g).window;
      if e.ReadWatermark? && e.g == g {
        assert PcOf(s, g).HasNow?;
      } else {
        assert PcOf(s, g) == PcOf(t, g);
        SettledKept(s, e, w.start);
        CoveredStep(s, e, w.start);
      }
    }
  }

  lemma ReportsStep(s: State, e: Event)
    requires Lossless(s) && Enabled(s, e)
    ensures forall r :: r in Next(s, e).reports ==> Closed(Next(s, e), r)
  {
    var t := Next(s, e);
    forall r | r in t.reports ensures Closed(t, r) {
      if r in s.reports {
        SettledStep(s, e, r.window.end, r.processed);
        CoveredStep(s, e, r.window.start);
      } else {
        SelectionCloses(s, PcOf(s, e.g).window, e.processed);
      }
    }
  }

  lemma {:induction false} LosslessRun(states: seq<State>, events: seq<Event>, j: nat)
    requires IsRun(states, events) && Initial(states[0]) && j < |states|
    ensures Lossless(states[j])
  {
    if j > 0 {
      LosslessRun(states, events, j - 1);
      LosslessStep(states[j - 1], events[j - 1]);
    }
  }

  /** Some report emitted before `j` left the id out, although its window selected it. */
  ghost predicate LeftOut(states: seq<State>, events: seq<Event>, j: nat, id: int) {
    exists k :: 0 <= k < j && k < |events| && k < |states|
      && Enabled(states[k], events[k]) && id in Omits(states[k], events[k])
  }

  lemma {:induction false} OmittedAre(states: seq<State>, events: seq<Event>, j: nat, id: int)
    requires IsRun(states, events) && Initial(states[0]) && j < |states|
    ensures id in states[j].omitted <==> LeftOut(states, events, j, id)
  {
    if j > 0 {
      OmittedAre(states, events, j - 1, id);
      var s, e := states[j - 1], events[j - 1];
      assert Enabled(s, e) && states[j] == Next(s, e);
      assert states[j].omitted == s.omitted + Omits(s, e);
    }
  }

  /** At the instant, which is before `t`, the row was committed and valid. */
  ghost predicate Met(f: Row, x: int, t: int) {
    f.committed <= x < t && (f.tValid.Some? ==> f.tValid.value <= x) && (f.tInvalid.Some? ==> x < f.tInvalid.value)
  }

  /** In every reachable state the applied windows cover the past up to the watermark, and every
      active fact that was valid at some instant after its commit and before the watermark has
      been processed, or a cycle that was given it did not report it. Guards may overlap, stand down,
      and have their reports applied late or in any order, so the watermark may also move back. */
  lemma DeferralIsNotLoss(states: seq<State>, events: seq<Event>, j: nat, id: int, x: int)
    requires IsRun(states, events) && Initial(states[0]) && j < |states|
    ensures Covered(states[j].applied, states[j].watermark)
    ensures id in states[j].rows && states[j].rows[id].active && Met(states[j].rows[id], x, states[j].watermark)
      ==> states[j].rows[id].marked || LeftOut(states, events, j, id)
  {
    LosslessRun(states, events, j);
    OmittedAre(states, events, j, id);
  }

  /** Cycles that report their whole window, as both shipped ones do, lose nothing. */
  lemma WholeWindowsLoseNothing(states: seq<State>, events: seq<Event>, j: nat, id: int, x: int)
    requires IsRun(states, events) && Initial(states[0]) && j < |states|
    requires forall k :: 0 <= k < j ==> Omits(states[k], events[k]) == {}
    requires id in states[j].rows && states[j].rows[id].active && Met(states[j].rows[id], x, states[j].watermark)
    ensures states[j].rows[id].marked
  {
    DeferralIsNotLoss(states, events, j, id, x);
  }

  /** A row can still be picked up by some window from `t` on, exactly when its validity reaches past `t`. */
  lemma ReachableIff(f: Row, t: int)
    requires f.active && !f.marked
    ensures (exists w: Window :: w.start >= t && Selects(w, f)) <==> (f.tInvalid.None? || f.tInvalid.value > t)
  {
    if f.tInvalid.None? || f.tInvalid.value > t {
      var w := Window(t, if f.tValid.Some? then f.tValid.value + 1 else t);
      assert Selects(w, f);
    }
  }

  /** A guard that runs at once opens the window from the watermark to the clock. */
  lemma {:induction false} Opening(before: seq<State>, trace: seq<Event>, g: int)
    returns (states: seq<State>, events: seq<Event>)
    requires IsRun(before, trace) && PcOf(before[|trace|], g).Idle?
    ensures events == trace + [Enter(g)] + [ReadClock(g)] + [ReadWatermark(g)]
    ensures IsRun(states, events) && states[0] == before[0]
    ensures var s, t := before[|trace|], states[|events|];
      t == s.(guards := t.guards) && PcOf(t, g) == HasWindow(Window(s.watermark, s.clock))
  {
    states, events := before, trace;
    states := Extend(states, events, Enter(g));
    events := events + [Enter(g)];
    states := Extend(states, events, ReadClock(g));
    events := events + [ReadClock(g)];
    states := Extend(states, events, ReadWatermark(g));
    events := events + [ReadWatermark(g)];
  }

  /** A cycle that processes nothing of its window, and whose report is applied: the rows stay as they are, the
      selection is on record as left out, and the watermark moves to the window's end. */
  lemma {:induction false} Passing(before: seq<State>, trace: seq<Event>, g: int)
    returns (states: seq<State>, events: seq<Event>)
    requires IsRun(before, trace) && PcOf(before[|trace|], g).HasWindow?
    ensures IsRun(states, events) && states[0] == before[0] && |events| == |trace| + 2
    ensures var s, t := before[|trace|], states[|events|];
      && t.rows == s.rows && t.hi == s.hi && t.clock == s.clock && t.watermark == PcOf(s, g).window.end
      && t.omitted == s.omitted + Selection(s, PcOf(s, g).window)
  {
    var s := before[|trace|];
    var report := Report(PcOf(s, g).window, {});
    states := Extend(before, trace, Emit(g, {}));
    events := trace + [Emit(g, {})];
    assert Omits(s, Emit(g, {})) == Selection(s, report.window);
    var emitted := states[|events|];
    var rows := RowsAfter(emitted, report, {}, {}, []);
    assert rows == emitted.rows;
    states := Extend(states, events, Apply(report, {}, {}, []));
    events := events + [Apply(report, {}, {}, [])];
  }

  /** The exception is real: a fact recorded with a validity that ended before the watermark is
      never selected, although it is active, unmarked and was committed after the last window. */
  lemma {:induction false} LapsedFactIsMissed() returns (states: seq<State>, events: seq<Event>)
    ensures IsRun(states, events) && Initial(states[0]) && states[|events|].omitted == {}
    ensures states[|events|].rows.Keys == {1} && states[|events|].rows[1].Eligible()
    ensures forall w: Window :: w.start >= states[|events|].watermark ==> !Selects(w, states[|events|].rows[1])
  {
    var s0 := State(map[], 0, 0, EPOCH, 5, map[], {}, {}, {}, {}, {});
    var row := Row(true, false, false, 5, Some(1), Some(4));
    states, events := Opening([s0], [], 1);
    assert Selection(states[|events|], Window(EPOCH, 5)) == {};
    states, events := Passing(states, events, 1);
    assert states[|events|].omitted == {};
    states := Extend(states, events, Write(row));
    events := events + [Write(row)];
  }

  /** So is the other: a cycle that leaves out a fact whose validity ends inside the window loses it. The fact
      was selected, its report is applied, it stays eligible, and no later window selects it. */
  lemma {:induction false} OmittedFactIsMissed() returns (states: seq<State>, events: seq<Event>)
    ensures IsRun(states, events) && Initial(states[0]) && LeftOut(states, events, |events|, 1)
    ensures states[|events|].rows.Keys == {1} && states[|events|].rows[1].Eligible()
    ensures forall w: Window :: w.start >= states[|events|].watermark ==> !Selects(w, states[|events|].rows[1])
  {
    var s0 := State(map[], 0, 0, EPOCH, 1, map[], {}, {}, {}, {}, {});
    var row := Row(true, false, false, 1, None, Some(4));
    states := Extend([s0], [], Write(row));
    states := Extend(states, [Write(row)], Tick(5));
    states, events := Opening(states, [Write(row)] + [Tick(5)], 1);
    assert states[|events|].rows == map[1 := row];
    assert 1 in Selection(states[|events|], Window(EPOCH, 6));
    states, events := Passing(states, events, 1);
    OmittedAre(states, events, |events|, 1);
  }

  // ---------- one call, step by step ----------

  datatype Outcome = Skipped(since: int, max: int) | Ran(report: Report)

  class Engine {
    var s: State

    constructor ()
      ensures Initial(s)
    {
      s := State(map[], 0, 0, EPOCH, 0, map[], {}, {}, {}, {}, {});
    }

    /** The port's `MAX(id)` over active, unpinned, unmarked rows. */
    method MaxCallerWritten() returns (max: Option<int>)
      ensures max == Probe(s)
    {
      max := None;
      var rest := s.rows.Keys;
      while rest != {}
        invariant rest <= s.rows.Keys
        invariant max.Some? ==> max.value in s.rows && s.rows[max.value].Eligible()
        invariant forall id :: id in EligibleIds(s) && id !in rest ==> max.Some? && id <= max.value
        decreases |rest|
      {
        var id := Choose(rest);
        if s.rows[id].Eligible() && (max.None? || max.value < id) {
          max := Some(id);
        }
        rest := rest - {id};
      }
      if max.Some? {
        assert IsMaxEligible(s, max.value);
      }
    }

    /** The unguarded cycle: clock, watermark, selection. */
    method RunCycle(g: int, ghost before: seq<State>, ghost trace: seq<Event>)
      returns (report: Report, ghost events: seq<Event>, ghost states: seq<State>)
      requires PcOf(s, g).Running? && IsRun(before, trace) && before[|trace|] == s
      modifies this
      ensures IsRun(states, events) && states[0] == before[0] && states[|events|] == s
      ensures report == Report(Window(old(s).watermark, old(s).clock), Selection(old(s), report.window))
      ensures s == old(s).(guards := s.guards, reports := old(s).reports + {report})
    {
      var now := s.clock;
      states := Extend(before, trace, ReadClock(g));
      events := trace + [ReadClock(g)];
      s := At(s, g, HasNow(now));
      states := Extend(states, events, ReadWatermark(g));
      events := events + [ReadWatermark(g)];
      var w := Window(s.watermark, now);
      s := At(s, g, HasWindow(w));
      report := Report(w, set id | id in s.rows && Selects(w, s.rows[id]));
      assert report.processed == Selection(s, w);
      states := Extend(states, events, Emit(g, report.processed));
      events := events + [Emit(g, report.processed)];
      s := At(s, g, Idle).(reports := s.reports + {report});
      assert Selection(s, w) == Selection(old(s), w);
    }

    /** A guarded call that nothing interrupts is a run of the step system. It stands down exactly
        when some eligible id lies above the cursor, and then only the cursor moves, to the highest
        such id; otherwise the cursor stays and the report covers watermark to now. */
    method RunGuarded(g: int) returns (outcome: Outcome, ghost events: seq<Event>, ghost states: seq<State>)
      requires PcOf(s, g).Idle?
      modifies this
      ensures IsRun(states, events) && states[0] == old(s) && states[|events|] == s
      ensures s.rows == old(s.rows) && s.watermark == old(s.watermark) && s.applied == old(s.applied)
      ensures outcome.Skipped? <==> exists id :: id in EligibleIds(old(s)) && id > old(s).cursor
      ensures outcome.Skipped? ==>
        outcome.since == old(s).cursor && IsMaxEligible(old(s), outcome.max) && s.cursor == outcome.max
      ensures outcome.Ran? ==>
        && s.cursor == old(s).cursor && outcome.report in s.reports
        && outcome.report == Report(Window(old(s).watermark, old(s).clock), Selection(old(s), outcome.report.window))
    {
      events, states := [], [s];
      var cursor := s.cursor;
      states := Extend(states, events, ReadCursor(g));
      events := events + [ReadCursor(g)];
      s := At(s, g, HasCursor(cursor));
      assert EligibleIds(s) == EligibleIds(old(s));
      var max := MaxCallerWritten();
      states := Extend(states, events, ReadMax(g));
      events := events + [ReadMax(g)];
      s := At(s, g, Decide(cursor, max));
      if max.Some? && max.value > cursor {
        states := Extend(states, events, SetCursor(g));
        events := events + [SetCursor(g)];
        s := At(s, g, Idle).(cursor := max.value, skipped := s.skipped + {max.value});
        return Skipped(cursor, max.value), events, states;
      }
      var report;
      report, events, states := RunCycle(g, states, events);
      return Ran(report), events, states;
    }
  }
}
