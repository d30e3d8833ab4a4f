/** The event upcaster chain (crates/me-storage/src/upcaster.rs).

    The registry keeps two maps up to date; its ghost history is the list of registrations, and
    everything the maps say is a function of it. `ClimbIff` reads an upcast as the ascending
    composition of registered steps, and `ClimbSplits` cuts it at any revision on the way.
  */
module Upcaster {
  import opened Collections

  const U16_MAX := 65535

  type Revision = n: int | 0 <= n <= U16_MAX

  type Json = string

  /** A step may fail. */
  type Step = Json -> Option<Json>

  datatype Registration = Registration(event: string, from: Revision, step: Step)

  datatype Error = MissingUpcaster(from: int) | StepFailed(from: int)

  function SatNext(r: Revision): Revision { if r == U16_MAX then r else r + 1 }

  // ---------- what the registrations mean ----------

  /** The step registered last for a revision. */
  function StepOf(history: seq<Registration>, event: string, from: int): Option<Step> {
    if history == [] then None
    else
      var last := history[|history| - 1];
      if last.event == event && last.from == from then Some(last.step)
      else StepOf(history[..|history| - 1], event, from)
  }

  function LatestOf(history: seq<Registration>, event: string): Revision {
    if history == [] then 1
    else
      var before, last := LatestOf(history[..|history| - 1], event), history[|history| - 1];
      if last.event == event && SatNext(last.from) > before then SatNext(last.from) else before
  }

  /** One revision up, as far as 16 bits go. */
  ghost function Above(r: Revision): int { if r < 65535 then r + 1 else 65535 }

  /** The latest revision is the saturating maximum over the registered steps of the type, at least 1. */
  lemma {:induction false} LatestIs(history: seq<Registration>, event: string)
    ensures LatestOf(history, event) >= 1
    ensures forall i :: 0 <= i < |history| && history[i].event == event ==>
      Above(history[i].from) <= LatestOf(history, event)
    ensures LatestOf(history, event) == 1
      || exists i :: 0 <= i < |history| && history[i].event == event
           && Above(history[i].from) == LatestOf(history, event)
  {
    if history != [] {
      var init := history[..|history| - 1];
      LatestIs(init, event);
      assert forall i :: 0 <= i < |init| ==> init[i] == history[i];
      if i :| 0 <= i < |init| && init[i].event == event && Above(init[i].from) == LatestOf(init, event) {
        assert history[i] == init[i];
      }
    }
  }

  // ---------- climbing ----------

  type Chain = int -> Option<Step>

  function ChainOf(history: seq<Registration>, event: string): Chain { (r: int) => StepOf(history, event, r) }

  function Climb(chain: Chain, value: Json, from: int, to: int): Result<Json, Error>
    decreases if from < to then to - from else 0
  {
    if from >= to then Ok(value)
    else
      var step := chain(from);
      if step.None? then Err(MissingUpcaster(from))
      else
        var next := step.value(value);
        if next.None? then Err(StepFailed(from)) else Climb(chain, next.value, from + 1, to)
  }

  lemma ClimbStep(chain: Chain, value: Json, from: int, to: int, step: Option<Step>)
    requires from < to && step == chain(from)
    ensures Climb(chain, value, from, to) ==
      if step.None? then Err(MissingUpcaster(from))
      else if step.value(value).None? then Err(StepFailed(from))
      else Climb(chain, step.value(value).value, from + 1, to)
  {}

  lemma ClimbRegistered(history: seq<Registration>, event: string, value: Json, from: int, to: int,
                        step: Option<Step>)
    requires from < to && step == StepOf(history, event, from)
    ensures Climb(ChainOf(history, event), value, from, to) ==
      if step.None? then Err(MissingUpcaster(from))
      else if step.value(value).None? then Err(StepFailed(from))
      else Climb(ChainOf(history, event), step.value(value).value, from + 1, to)
  {
    ClimbStep(ChainOf(history, event), value, from, to, step);
  }

  ghost predicate Lifts(chain: Chain, at: int, value: Json, next: Json) {
    chain(at).Some? && chain(at).value(value) == Some(next)
  }

  /** The payload at every revision from `from` on, each the image of the one before. */
  ghost predicate IsAscent(chain: Chain, values: seq<Json>, from: int) {
    0 < |values| && forall k :: 0 <= k < |values| - 1 ==> Lifts(chain, from + k, values[k], values[k + 1])
  }

  ghost predicate Reaches(chain: Chain, value: Json, from: int, to: int, result: Json, values: seq<Json>) {
    && from <= to && |values| == to - from + 1 && IsAscent(chain, values, from)
    && values[0] == value && values[to - from] == result
  }

  /** A climb succeeds exactly when every step is present and succeeds, and then composes them in order. */
  lemma {:induction false} ClimbIff(chain: Chain, value: Json, from: int, to: int, result: Json)
    requires from <= to
    ensures Climb(chain, value, from, to) == Ok(result) <==>
      exists values :: Reaches(chain, value, from, to, result, values)
  {
    if Climb(chain, value, from, to) == Ok(result) {
      var values := ClimbAscends(chain, value, from, to, result);
    }
    if values :| Reaches(chain, value, from, to, result, values) {
      AscentClimbs(chain, value, from, to, result, values);
    }
  }

  lemma {:induction false} ClimbAscends(chain: Chain, value: Json, from: int, to: int, result: Json)
    returns (values: seq<Json>)
    requires from <= to && Climb(chain, value, from, to) == Ok(result)
    ensures Reaches(chain, value, from, to, result, values)
    decreases if from < to then to - from else 0
  {
    if from == to {
      values := [value];
    } else {
      var rest := ClimbAscends(chain, chain(from).value(value).value, from + 1, to, result);
      values := [value] + rest;
      forall k | 0 <= k < |values| - 1 ensures Lifts(chain, from + k, values[k], values[k + 1]) {
        if k > 0 {
          assert Lifts(chain, from + 1 + (k - 1), rest[k - 1], rest[k]);
        }
      }
    }
  }

  lemma {:induction false} AscentClimbs(chain: Chain, value: Json, from: int, to: int, result: Json, values: seq<Json>)
    requires Reaches(chain, value, from, to, result, values)
    ensures Climb(chain, value, from, to) == Ok(result)
    decreases if from < to then to - from else 0
  {
    if from < to {
      var rest := values[1..];
      assert Lifts(chain, from + 0, values[0], values[1]);
      forall k | 0 <= k < |rest| - 1 ensures Lifts(chain, from + 1 + k, rest[k], rest[k + 1]) {
        assert Lifts(chain, from + (k + 1), values[k + 1], values[k + 2]);
      }
      AscentClimbs(chain, values[1], from + 1, to, result, rest);
    }
  }

  /** A climb can be cut at any revision on the way, failures included. */
  lemma {:induction false} ClimbSplits(chain: Chain, value: Json, from: int, mid: int, to: int)
    requires from <= mid <= to
    ensures var low := Climb(chain, value, from, mid);
      Climb(chain, value, from, to) == if low.Err? then low else Climb(chain, low.value, mid, to)
    decreases if from < mid then mid - from else 0
  {
    if from < mid {
      var step := chain(from);
      if step.Some? && step.value(value).Some? {
        ClimbSplits(chain, step.value(value).value, from + 1, mid, to);
      }
    }
  }

  ghost predicate FailsAt(chain: Chain, value: Json, from: int, to: int, e: Error) {
    && from <= e.from < to && Climb(chain, value, from, e.from).Ok?
    && if e.MissingUpcaster? then chain(e.from).None?
       else chain(e.from).Some? && chain(e.from).value(Climb(chain, value, from, e.from).value).None?
  }

  /** The error names the first revision without a step, or whose step fails, after a climb that succeeded so far. */
  lemma {:induction false} ClimbFails(chain: Chain, value: Json, from: int, to: int)
    requires from <= to && Climb(chain, value, from, to).Err?
    ensures FailsAt(chain, value, from, to, Climb(chain, value, from, to).error)
    decreases if from < to then to - from else 0
  {
    var step := chain(from);
    if step.Some? && step.value(value).Some? {
      ClimbFails(chain, step.value(value).value, from + 1, to);
    }
  }

  // ---------- one type among others ----------

  /** The registrations for one type, in order. */
  function Restrict(history: seq<Registration>, event: string): seq<Registration> {
    if history == [] then []
    else
      var n := |history| - 1;
      Restrict(history[..n], event) + if history[n].event == event then [history[n]] else []
  }

  lemma {:induction false} RestrictMeansTheSame(history: seq<Registration>, event: string)
    ensures LatestOf(Restrict(history, event), event) == LatestOf(history, event)
    ensures forall from :: StepOf(Restrict(history, event), event, from) == StepOf(history, event, from)
  {
    if history != [] {
      var n := |history| - 1;
      var init := Restrict(history[..n], event);
      RestrictMeansTheSame(history[..n], event);
      if history[n].event == event {
        assert (init + [history[n]])[..|init|] == init;
      } else {
        assert init + [] == init;
      }
    }
  }

  lemma {:induction false} SameChainSameClimb(a: Chain, b: Chain, value: Json, from: int, to: int)
    requires forall r :: a(r) == b(r)
    ensures Climb(a, value, from, to) == Climb(b, value, from, to)
    decreases if from < to then to - from else 0
  {
    if from < to && a(from).Some? && a(from).value(value).Some? {
      SameChainSameClimb(a, b, a(from).value(value).value, from + 1, to);
    }
  }

  /** However the registrations of other types are interleaved with those of this one, the latest revision,
      every step and every upcast stay the same. */
  lemma {:induction false} OtherTypesApart(a: seq<Registration>, b: seq<Registration>, event: string, current: int,
                                           payload: Json)
    requires Restrict(a, event) == Restrict(b, event)
    ensures LatestOf(a, event) == LatestOf(b, event)
    ensures forall from :: StepOf(a, event, from) == StepOf(b, event, from)
    ensures Climb(ChainOf(a, event), payload, current, LatestOf(a, event))
      == Climb(ChainOf(b, event), payload, current, LatestOf(b, event))
  {
    RestrictMeansTheSame(a, event);
    RestrictMeansTheSame(b, event);
    forall from ensures StepOf(a, event, from) == StepOf(b, event, from) {
      assert StepOf(Restrict(a, event), event, from) == StepOf(a, event, from);
      assert StepOf(Restrict(b, event), event, from) == StepOf(b, event, from);
    }
    SameChainSameClimb(ChainOf(a, event), ChainOf(b, event), payload, current, LatestOf(a, event));
  }

  // ---------- the registry ----------

  type Steps = map<string, map<Revision, Step>>

  type Tops = map<string, Revision>

  function Lookup(upcasters: Steps, event: string, from: Revision): Option<Step> {
    if event in upcasters && from in upcasters[event] then Some(upcasters[event][from]) else None
  }

  function Latest(latest: Tops, event: string): Revision { if event in latest then latest[event] else 1 }

  ghost predicate StepsAgree(upcasters: Steps, history: seq<Registration>) {
    forall e, r: Revision :: Lookup(upcasters, e, r) == StepOf(history, e, r)
  }

  ghost predicate TopsAgree(latest: Tops, history: seq<Registration>) {
    forall e :: Latest(latest, e) == LatestOf(history, e)
  }

  lemma StepRegistered(upcasters: Steps, history: seq<Registration>, reg: Registration, inner: map<Revision, Step>)
    requires StepsAgree(upcasters, history)
    requires inner == if reg.event in upcasters then upcasters[reg.event] else map[]
    ensures StepsAgree(upcasters[reg.event := inner[reg.from := reg.step]], history + [reg])
  {
    assert (history + [reg])[..|history|] == history;
    forall e, r: Revision
      ensures Lookup(upcasters[reg.event := inner[reg.from := reg.step]], e, r) == StepOf(history + [reg], e, r)
    {
      assert Lookup(upcasters, e, r) == StepOf(history, e, r);
    }
  }

  lemma TopRegistered(latest: Tops, history: seq<Registration>, reg: Registration)
    requires TopsAgree(latest, history)
    ensures var current := Latest(latest, reg.event);
      var top := if SatNext(reg.from) > current then SatNext(reg.from) else current;
      TopsAgree(latest[reg.event := top], history + [reg])
  {
    assert (history + [reg])[..|history|] == history;
    var target, current := SatNext(reg.from), Latest(latest, reg.event);
    var after := latest[reg.event := if target > current then target else current];
    forall e ensures Latest(after, e) == LatestOf(history + [reg], e) {
      assert Latest(latest, e) == LatestOf(history, e);
    }
  }

  class Registry {
    var upcasters: Steps
    var latest: Tops
    ghost var history: seq<Registration>

    /** Both maps say what the history says. */
    ghost predicate Valid()
      reads this
    {
      StepsAgree(upcasters, history) && TopsAgree(latest, history)
    }

    constructor ()
      ensures Valid() && history == []
    {
      upcasters, latest, history := map[], map[], [];
    }

    method LatestRevision(event: string) returns (r: Revision)
      requires Valid()
      ensures r == LatestOf(history, event)
    {
      r := Latest(latest, event);
    }

    method Register(event: string, from: Revision, step: Step)
      requires Valid()
      modifies this
      ensures Valid() && history == old(history) + [Registration(event, from, step)]
    {
      var target := SatNext(from);
      var inner := if event in upcasters then upcasters[event] else map[];
      var current := Latest(latest, event);
      StepRegistered(upcasters, history, Registration(event, from, step), inner);
      TopRegistered(latest, history, Registration(event, from, step));
      upcasters := upcasters[event := inner[from := step]];
      latest := latest[event := if target > current then target else current];
      history := history + [Registration(event, from, step)];
    }

    /** The loop climbs from the payload's revision to the latest; a payload already there, or
        beyond, comes back unchanged. */
    method Upcast(event: string, current: Revision, payload: Json) returns (r: Result<(Json, Revision), Error>)
      requires Valid()
      ensures var top := LatestOf(history, event); var climb := Climb(ChainOf(history, event), payload, current, top);
        && (r.Ok? <==> climb.Ok?) && (r.Err? ==> r.error == climb.error)
        && (r.Ok? ==> r.value == (climb.value, if current < top then top else current))
    {
      var top := LatestRevision(event);
      if current >= top {
        return Ok((payload, current));
      }
      var value, rev := payload, current;
      ghost var chain := ChainOf(history, event);
      ghost var climb := Climb(chain, payload, current, top);
      while rev < top
        invariant current <= rev <= top
        invariant Climb(chain, value, rev, top) == climb
      {
        var step := Lookup(upcasters, event, rev);
        assert step == StepOf(history, event, rev);
        ClimbRegistered(history, event, value, rev, top, step);
        if step.None? {
          return Err(MissingUpcaster(rev));
        }
        var next := step.value(value);
        if next.None? {
          return Err(StepFailed(rev));
        }
        value, rev := next.value, rev + 1;
      }
      return Ok((value, rev));
    }
  }

  /** The registry's verdict in terms of the registrations: an older payload is upcast exactly when
      every step from its revision up to the latest is registered and succeeds in turn. */
  lemma {:induction false} UpcastIff(history: seq<Registration>, event: string, current: Revision, payload: Json)
    ensures var top := LatestOf(history, event); var climb := Climb(ChainOf(history, event), payload, current, top);
      && (current >= top ==> climb == Ok(payload))
      && (current < top ==>
            (climb.Ok? <==> exists v, values :: Reaches(ChainOf(history, event), payload, current, top, v, values)))
  {
    var chain, top := ChainOf(history, event), LatestOf(history, event);
    if current < top {
      if Climb(chain, payload, current, top).Ok? {
        var values := ClimbAscends(chain, payload, current, top, Climb(chain, payload, current, top).value);
      }
      if v, values :| Reaches(chain, payload, current, top, v, values) {
        AscentClimbs(chain, payload, current, top, v, values);
      }
    }
  }
}
