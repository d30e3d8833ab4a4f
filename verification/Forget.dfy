/** Forgetting (crates/me-forget/src/policy.rs): importance scoring and the prune sweep.

    One sweep is not idempotent, because expiring a fact takes edges from its neighbours.
    `PruneConverges` shows what repeating it computes: within as many rounds as there are
    active facts it reaches the largest set of facts that keep each other above threshold.
  */
module Forget {
  import opened Collections
  import opened MemoryGraphs
  import opened MemoryStore

  const FREQUENCY_NORMALIZATION_ARG := 101.0
  const CONNECTIVITY_NORMALIZATION_ARG := 51.0

  /** The transcendental functions the score uses, as parameters. */
  datatype Numerics = Numerics(exp2: real -> real, ln: real -> real)
  {
    ghost predicate Legal() {
      && ln(1.0) == 0.0
      && (forall x, y :: 0.0 < x < y ==> ln(x) < ln(y))
      && (forall x :: x <= 0.0 ==> 0.0 <= exp2(x) <= 1.0)
      && exp2(0.0) == 1.0
      && (forall x, y :: x <= y ==> exp2(x) <= exp2(y))
      && (forall x :: exp2(x - 1.0) == exp2(x) / 2.0)
    }
  }

  datatype Policy = Policy(
    halfLife: real, overrides: map<FactType, real>, exempt: set<FactType>, minImportance: real,
    recencyWeight: real, frequencyWeight: real, degreeWeight: real, baseWeight: real)
  {
    predicate Validate() {
      && halfLife > 0.0
      && (forall t :: t in overrides ==> overrides[t] > 0.0)
      && 0.0 <= minImportance <= 1.0
      && recencyWeight >= 0.0 && frequencyWeight >= 0.0 && degreeWeight >= 0.0 && baseWeight >= 0.0
    }

    /** An explicit half-life override re-enables decay for an exempt type. */
    predicate IsDecayExempt(t: FactType) { t in exempt && t !in overrides }

    function HalfLifeOf(t: FactType): real { if t in overrides then overrides[t] else halfLife }
  }

  function Min(a: real, b: real): real { if a <= b then a else b }

  function Max(a: real, b: real): real { if a >= b then a else b }

  function EbbinghausDecay(num: Numerics, ageDays: real, halfLife: real): real
    requires halfLife > 0.0
  {
    num.exp2(-ageDays / halfLife)
  }

  function Ln1p(num: Numerics, x: real): real { num.ln(1.0 + x) }

  /** `min(ln(1 + count) / ln(cap), 1)`; the guard stands for a non-zero `ln(cap)`. */
  function Saturation(num: Numerics, count: nat, cap: real): real {
    if num.ln(cap) == 0.0 then 1.0 else Min(Ln1p(num, count as real) / num.ln(cap), 1.0)
  }

  function Recency(num: Numerics, f: Fact, now: int, policy: Policy): real
    requires policy.Validate()
  {
    if policy.IsDecayExempt(f.factType) then 1.0
    else EbbinghausDecay(num, Max((now - f.lastAccessed) as real / 86400.0, 0.0), policy.HalfLifeOf(f.factType))
  }

  /** The weighted sum of the four signals. */
  function Weigh(p: Policy, recency: real, frequency: real, connectivity: real, base: real): real {
    (p.recencyWeight * recency + p.frequencyWeight * frequency) + (p.degreeWeight * connectivity + p.baseWeight * base)
  }

  function ComputeImportance(num: Numerics, f: Fact, degree: nat, now: int, policy: Policy): real
    requires policy.Validate()
  {
    Weigh(policy, Recency(num, f, now, policy), Saturation(num, f.accessCount, FREQUENCY_NORMALIZATION_ARG),
      Saturation(num, degree, CONNECTIVITY_NORMALIZATION_ARG), f.base)
  }

  lemma DivMonotone(a: real, b: real, d: real)
    requires a <= b && d > 0.0
    ensures a / d <= b / d
  {}

  lemma ScaleMonotone(w: real, a: real, b: real)
    requires w >= 0.0 && a <= b
    ensures w * a <= w * b
  {}

  lemma SaturationMonotone(num: Numerics, m: nat, n: nat, cap: real)
    requires num.Legal() && m <= n && cap > 1.0
    ensures 0.0 <= Saturation(num, m, cap) <= Saturation(num, n, cap) <= 1.0
  {
    var d := num.ln(cap);
    assert d > 0.0;
    assert 0.0 <= Ln1p(num, m as real) <= Ln1p(num, n as real);
    DivMonotone(0.0, Ln1p(num, m as real), d);
    DivMonotone(Ln1p(num, m as real), Ln1p(num, n as real), d);
  }

  /** Retention is 1 at age 0 and halves with every half-life. */
  lemma DecayHalves(num: Numerics, age: real, halfLife: real)
    requires num.Legal() && halfLife > 0.0
    ensures EbbinghausDecay(num, 0.0, halfLife) == 1.0
    ensures EbbinghausDecay(num, age + halfLife, halfLife) == EbbinghausDecay(num, age, halfLife) / 2.0
  {
    OneHalfLife(age, halfLife);
  }

  lemma OneHalfLife(age: real, h: real)
    requires h > 0.0
    ensures -(age + h) / h == -age / h - 1.0 && -0.0 / h == 0.0
  {
    var q := -age / h;
    assert -age == q * h;
    QuotientIs(-(age + h), q - 1.0, h);
    QuotientIs(0.0, 0.0, h);
  }

  lemma QuotientIs(x: real, q: real, h: real)
    requires h > 0.0 && x == q * h
    ensures x / h == q
  {}

  /** A fact used no earlier and no less often, connected no less and seeded no lower, scores no lower. */
  lemma ScoreDominance(num: Numerics, f: Fact, g: Fact, m: nat, n: nat, now: int, policy: Policy)
    requires num.Legal() && policy.Validate() && f.factType == g.factType
    requires f.lastAccessed <= g.lastAccessed && f.accessCount <= g.accessCount && m <= n && f.base <= g.base
    ensures ComputeImportance(num, f, m, now, policy) <= ComputeImportance(num, g, n, now, policy)
  {
    SignalsMonotone(num, f, g, m, n, now, policy);
    SumMonotone(policy,
      Recency(num, f, now, policy), Recency(num, g, now, policy),
      Saturation(num, f.accessCount, FREQUENCY_NORMALIZATION_ARG),
      Saturation(num, g.accessCount, FREQUENCY_NORMALIZATION_ARG),
      Saturation(num, m, CONNECTIVITY_NORMALIZATION_ARG), Saturation(num, n, CONNECTIVITY_NORMALIZATION_ARG),
      f.base, g.base);
  }

  lemma SignalsMonotone(num: Numerics, f: Fact, g: Fact, m: nat, n: nat, now: int, policy: Policy)
    requires num.Legal() && policy.Validate() && f.factType == g.factType
    requires f.lastAccessed <= g.lastAccessed && f.accessCount <= g.accessCount && m <= n
    ensures Recency(num, f, now, policy) <= Recency(num, g, now, policy)
    ensures Saturation(num, f.accessCount, FREQUENCY_NORMALIZATION_ARG)
      <= Saturation(num, g.accessCount, FREQUENCY_NORMALIZATION_ARG)
    ensures Saturation(num, m, CONNECTIVITY_NORMALIZATION_ARG) <= Saturation(num, n, CONNECTIVITY_NORMALIZATION_ARG)
  {
    RecencyMonotone(num, f, g, now, policy);
    SaturationMonotone(num, f.accessCount, g.accessCount, FREQUENCY_NORMALIZATION_ARG);
    SaturationMonotone(num, m, n, CONNECTIVITY_NORMALIZATION_ARG);
  }

  lemma SumMonotone(p: Policy, r: real, r2: real, q: real, q2: real, c: real, c2: real, b: real, b2: real)
    requires p.Validate() && r <= r2 && q <= q2 && c <= c2 && b <= b2
    ensures Weigh(p, r, q, c, b) <= Weigh(p, r2, q2, c2, b2)
  {
    var r0, r1 := Scaled(p.recencyWeight, r, r2);
    var q0, q1 := Scaled(p.frequencyWeight, q, q2);
    var c0, c1 := Scaled(p.degreeWeight, c, c2);
    var b0, b1 := Scaled(p.baseWeight, b, b2);
    assert (r0 + q0) + (c0 + b0) <= (r1 + q1) + (c1 + b1);
  }

  lemma Scaled(w: real, a: real, b: real) returns (x: real, y: real)
    requires w >= 0.0 && a <= b
    ensures x == w * a && y == w * b && x <= y
  {
    x, y := w * a, w * b;
    ScaleMonotone(w, a, b);
  }

  lemma RecencyMonotone(num: Numerics, f: Fact, g: Fact, now: int, policy: Policy)
    requires num.Legal() && policy.Validate() && f.factType == g.factType && f.lastAccessed <= g.lastAccessed
    ensures Recency(num, f, now, policy) <= Recency(num, g, now, policy)
  {
    var a := Max((now - f.lastAccessed) as real / 86400.0, 0.0);
    var b := Max((now - g.lastAccessed) as real / 86400.0, 0.0);
    DivMonotone(-a, -b, policy.HalfLifeOf(f.factType));
  }

  /** Each weight scales its own signal: an exempt type is fully recent, 100 accesses and 50 edges are
      full marks, a fact never accessed and without edges gets nothing for either. */
  lemma ScoreAtCorners(num: Numerics, f: Fact, degree: nat, now: int, policy: Policy)
    requires num.Legal() && policy.Validate() && policy.IsDecayExempt(f.factType)
    requires (f.accessCount == 0 || f.accessCount >= 100) && (degree == 0 || degree >= 50)
    ensures ComputeImportance(num, f, degree, now, policy) ==
      policy.recencyWeight + (if f.accessCount == 0 then 0.0 else policy.frequencyWeight)
      + (if degree == 0 then 0.0 else policy.degreeWeight) + policy.baseWeight * f.base
  {
    SaturationCorners(num, f.accessCount, FREQUENCY_NORMALIZATION_ARG);
    SaturationCorners(num, degree, CONNECTIVITY_NORMALIZATION_ARG);
  }

  // ---------- how a score ages ----------

  /** The share of full marks that `count` earns when `full` of them is the most that counts. */
  ghost function Marks(ln: real -> real, count: nat, full: nat): real
    requires ln(1.0 + full as real) > 0.0
  {
    var share := ln(1.0 + count as real) / ln(1.0 + full as real);
    if share > 1.0 then 1.0 else share
  }

  /** The part of a score that does not depend on the clock: 100 accesses and 50 edges are full marks. */
  ghost function TimelessPart(num: Numerics, f: Fact, degree: nat, policy: Policy): real
    requires num.Legal()
  {
    policy.frequencyWeight * Marks(num.ln, f.accessCount, 100) + policy.degreeWeight * Marks(num.ln, degree, 50)
    + policy.baseWeight * f.base
  }

  /** Days since the last access; none before it. */
  ghost function DaysOld(f: Fact, now: int): real {
    if now >= f.lastAccessed then (now - f.lastAccessed) as real / 86400.0 else 0.0
  }

  /** The half-life in days that a type's facts decay with. */
  ghost function DaysToHalve(policy: Policy, t: FactType): real {
    if t in policy.overrides then policy.overrides[t] else policy.halfLife
  }

  /** A type that is exempt, and has no half-life of its own, does not age. */
  lemma ExemptNeverAges(num: Numerics, f: Fact, degree: nat, now: int, policy: Policy)
    requires num.Legal() && policy.Validate()
    requires f.factType in policy.exempt && f.factType !in policy.overrides
    ensures ComputeImportance(num, f, degree, now, policy)
      == policy.recencyWeight + TimelessPart(num, f, degree, policy)
  {
    SaturationIsMarks(num, f.accessCount, 100, FREQUENCY_NORMALIZATION_ARG);
    SaturationIsMarks(num, degree, 50, CONNECTIVITY_NORMALIZATION_ARG);
  }

  /** One half to the power of the age in half-lives. */
  ghost function Retained(num: Numerics, f: Fact, now: int, policy: Policy): real
    requires policy.Validate()
  {
    num.exp2(-DaysOld(f, now) / DaysToHalve(policy, f.factType))
  }

  /** What recency still adds to the score of a fact that ages. */
  ghost function RecencyPart(num: Numerics, f: Fact, now: int, policy: Policy): real
    requires policy.Validate()
  {
    policy.recencyWeight * Retained(num, f, now, policy)
  }

  /** Any other fact decays from its last access on, by days and with its own type's half-life. */
  lemma ScoreAges(num: Numerics, f: Fact, degree: nat, now: int, policy: Policy)
    requires num.Legal() && policy.Validate()
    requires f.factType !in policy.exempt || f.factType in policy.overrides
    ensures ComputeImportance(num, f, degree, now, policy)
      == RecencyPart(num, f, now, policy) + TimelessPart(num, f, degree, policy)
  {
    SumParts(num, f, degree, now, policy, Retained(num, f, now, policy));
  }

  /** It keeps the full recency weight up to its last access and loses half of what is left of it with
      every half-life after that. */
  lemma ScoreHalves(num: Numerics, f: Fact, degree: nat, now: int, n: nat, policy: Policy)
    requires num.Legal() && policy.Validate()
    requires f.factType !in policy.exempt || f.factType in policy.overrides
    requires n as real == 86400.0 * DaysToHalve(policy, f.factType)
    ensures var rest := TimelessPart(num, f, degree, policy);
      && (now <= f.lastAccessed ==> ComputeImportance(num, f, degree, now, policy) - rest == policy.recencyWeight)
      && (now >= f.lastAccessed ==>
            ComputeImportance(num, f, degree, now + n, policy) - rest
            == (ComputeImportance(num, f, degree, now, policy) - rest) / 2.0)
  {
    RecencyPartHalves(num, f, now, n, policy);
    ScoreAges(num, f, degree, now, policy);
    ScoreAges(num, f, degree, now + n, policy);
  }

  lemma RecencyPartHalves(num: Numerics, f: Fact, now: int, n: nat, policy: Policy)
    requires num.Legal() && policy.Validate() && n as real == 86400.0 * DaysToHalve(policy, f.factType)
    ensures now <= f.lastAccessed ==> RecencyPart(num, f, now, policy) == policy.recencyWeight
    ensures now >= f.lastAccessed ==>
      RecencyPart(num, f, now + n, policy) == RecencyPart(num, f, now, policy) / 2.0
  {
    RetainedHalves(num, f, now, n, policy);
    Halved(policy.recencyWeight, Retained(num, f, now, policy), Retained(num, f, now + n, policy));
  }

  lemma Halved(w: real, whole: real, part: real)
    ensures whole == 1.0 ==> w * whole == w
    ensures part == whole / 2.0 ==> w * part == (w * whole) / 2.0
  {}

  lemma RetainedHalves(num: Numerics, f: Fact, now: int, n: nat, policy: Policy)
    requires num.Legal() && policy.Validate() && n as real == 86400.0 * DaysToHalve(policy, f.factType)
    ensures now <= f.lastAccessed ==> Retained(num, f, now, policy) == 1.0
    ensures now >= f.lastAccessed ==> Retained(num, f, now + n, policy) == Retained(num, f, now, policy) / 2.0
  {
    var h, was := DaysToHalve(policy, f.factType), DaysOld(f, now);
    OneHalfLife(was, h);
    if now >= f.lastAccessed {
      DaysPass(f, now, n, h);
    }
  }

  lemma DaysPass(f: Fact, now: int, n: nat, h: real)
    requires now >= f.lastAccessed && n as real == 86400.0 * h
    ensures DaysOld(f, now + n) == DaysOld(f, now) + h
  {
    QuotientIs(n as real, h, 86400.0);
    assert (now + n - f.lastAccessed) as real == (now - f.lastAccessed) as real + n as real;
  }

  lemma SumParts(num: Numerics, f: Fact, degree: nat, now: int, policy: Policy, recency: real)
    requires num.Legal() && policy.Validate() && Recency(num, f, now, policy) == recency
    ensures ComputeImportance(num, f, degree, now, policy) - TimelessPart(num, f, degree, policy)
      == policy.recencyWeight * recency
  {
    var q, c := Marks(num.ln, f.accessCount, 100), Marks(num.ln, degree, 50);
    SaturationIsMarks(num, f.accessCount, 100, FREQUENCY_NORMALIZATION_ARG);
    SaturationIsMarks(num, degree, 50, CONNECTIVITY_NORMALIZATION_ARG);
    WeighParts(policy, recency, q, c, f.base, ComputeImportance(num, f, degree, now, policy),
      TimelessPart(num, f, degree, policy));
  }

  lemma WeighParts(p: Policy, r: real, q: real, c: real, b: real, score: real, rest: real)
    requires score == Weigh(p, r, q, c, b)
    requires rest == p.frequencyWeight * q + p.degreeWeight * c + p.baseWeight * b
    ensures score - rest == p.recencyWeight * r
  {
    var wr, wq, wc, wb := p.recencyWeight * r, p.frequencyWeight * q, p.degreeWeight * c, p.baseWeight * b;
    assert score == (wr + wq) + (wc + wb) && rest == wq + wc + wb;
  }

  /** A score never rises as time passes. */
  lemma ScoreFalls(num: Numerics, f: Fact, degree: nat, now: int, later: int, policy: Policy)
    requires num.Legal() && policy.Validate() && now <= later
    ensures ComputeImportance(num, f, degree, later, policy) <= ComputeImportance(num, f, degree, now, policy)
  {
    var older := f.(lastAccessed := f.lastAccessed - (later - now));
    assert Recency(num, older, now, policy) == Recency(num, f, later, policy);
    ScoreDominance(num, older, f, degree, degree, now, policy);
  }

  lemma SaturationIsMarks(num: Numerics, count: nat, full: nat, cap: real)
    requires num.Legal() && full > 0 && cap == 1.0 + full as real
    ensures num.ln(cap) > 0.0 && Saturation(num, count, cap) == Marks(num.ln, count, full)
  {}

  lemma SaturationCorners(num: Numerics, count: nat, cap: real)
    requires num.Legal() && cap > 1.0
    ensures count == 0 ==> Saturation(num, count, cap) == 0.0
    ensures 1.0 + count as real >= cap ==> Saturation(num, count, cap) == 1.0
  {
    var d := num.ln(cap);
    assert d > 0.0;
    DivCorners(d, Ln1p(num, count as real));
  }

  lemma DivCorners(d: real, x: real)
    requires d > 0.0
    ensures 0.0 / d == 0.0 && (x >= d ==> x / d >= 1.0)
  {
    if x >= d {
      DivMonotone(d, x, d);
    }
  }

  /** More edges never lower a score. */
  lemma ScoreMonotone(num: Numerics, f: Fact, m: nat, n: nat, now: int, policy: Policy)
    requires num.Legal() && policy.Validate() && m <= n
    ensures ComputeImportance(num, f, m, now, policy) <= ComputeImportance(num, f, n, now, policy)
  {
    ScoreDominance(num, f, f, m, n, now, policy);
  }

  lemma RecencyBounds(num: Numerics, f: Fact, now: int, policy: Policy)
    requires num.Legal() && policy.Validate()
    ensures 0.0 <= Recency(num, f, now, policy) <= 1.0
  {
    var age := Max((now - f.lastAccessed) as real / 86400.0, 0.0);
    DivMonotone(-age, 0.0, policy.HalfLifeOf(f.factType));
  }

  /** With a base prior in [0, 1] the score lies in [0, sum of weights]. */
  lemma ScoreBounds(num: Numerics, f: Fact, degree: nat, now: int, policy: Policy)
    requires num.Legal() && policy.Validate() && 0.0 <= f.base <= 1.0
    ensures 0.0 <= ComputeImportance(num, f, degree, now, policy)
      <= policy.recencyWeight + policy.frequencyWeight + policy.degreeWeight + policy.baseWeight
  {
    RecencyBounds(num, f, now, policy);
    SaturationMonotone(num, f.accessCount, f.accessCount, FREQUENCY_NORMALIZATION_ARG);
    SaturationMonotone(num, degree, degree, CONNECTIVITY_NORMALIZATION_ARG);
    WeightedSum(policy, Recency(num, f, now, policy), Saturation(num, f.accessCount, FREQUENCY_NORMALIZATION_ARG),
      Saturation(num, degree, CONNECTIVITY_NORMALIZATION_ARG), f.base);
  }

  lemma WeightedSum(p: Policy, r: real, q: real, c: real, b: real)
    requires p.Validate() && 0.0 <= r <= 1.0 && 0.0 <= q <= 1.0 && 0.0 <= c <= 1.0 && 0.0 <= b <= 1.0
    ensures 0.0 <= Weigh(p, r, q, c, b) <= p.recencyWeight + p.frequencyWeight + p.degreeWeight + p.baseWeight
  {
    var wr, wq, wc, wb := p.recencyWeight, p.frequencyWeight, p.degreeWeight, p.baseWeight;
    var pr := Weighted(wr, r);
    var pq := Weighted(wq, q);
    var pc := Weighted(wc, c);
    var pb := Weighted(wb, b);
    assert 0.0 <= (pr + pq) + (pc + pb) <= wr + wq + wc + wb;
  }

  lemma Weighted(w: real, x: real) returns (p: real)
    requires w >= 0.0 && 0.0 <= x <= 1.0
    ensures p == w * x && 0.0 <= p <= w
  {
    p := w * x;
    ScaleMonotone(w, 0.0, x);
    ScaleMonotone(w, x, 1.0);
  }

  // ---------- one sweep over the store ----------

  /** Policy, clock and numerics of one or more sweeps. */
  datatype Sweep = Sweep(num: Numerics, policy: Policy, now: int)
  {
    predicate Protects(f: Fact)
    {
      f.pinned || policy.IsDecayExempt(f.factType)
    }

    predicate Keeps(f: Fact, degree: nat)
      requires policy.Validate()
    {
      Protects(f) || ComputeImportance(num, f, degree, now, policy) >= policy.minImportance
    }
  }

  /** The ids below threshold: what `prune` hands the port to expire. */
  ghost function Selection(sw: Sweep, db: Db, cache: multiset<Link>, ids: seq<int>): (r: seq<int>)
    requires sw.policy.Validate() && forall k :: 0 <= k < |ids| ==> ids[k] in db.facts
    ensures forall id :: id in r <==> id in ids && !sw.Keeps(db.facts[id], DegreeOf(cache, id))
    ensures |r| <= |ids|
  {
    if ids == [] then []
    else
      var n := |ids| - 1;
      assert ids == ids[..n] + [ids[n]];
      Selection(sw, db, cache, ids[..n]) + if sw.Keeps(db.facts[ids[n]], DegreeOf(cache, ids[n])) then [] else [ids[n]]
  }

  ghost function Scored(sw: Sweep, db: Db, cache: multiset<Link>, ids: seq<int>): map<int, real>
    requires sw.policy.Validate() && forall k :: 0 <= k < |ids| ==> ids[k] in db.facts
  {
    map id | id in ids && id in db.facts ::
      ComputeImportance(sw.num, db.facts[id], DegreeOf(cache, id), sw.now, sw.policy)
  }

  function Materialize(db: Db, scored: map<int, real>): Db {
    db.(facts := map id | id in db.facts :: if id in scored then db.facts[id].(score := scored[id]) else db.facts[id])
  }

  /** Expire each fact and its edges in turn; any fact not active rolls everything back. */
  function ExpireEach(db: Db, ids: seq<int>, now: int): Option<Db>
    decreases |ids|
  {
    if ids == [] then Some(db)
    else if !db.Has(ids[0]) then None
    else ExpireEach(ExpireEdges(ExpireFact(db, ids[0], now), ids[0]), ids[1..], now)
  }

  /** `prune_atomic`. */
  function PruneAtomic(db: Db, scored: map<int, real>, toExpire: seq<int>, now: int): Option<Db> {
    ExpireEach(Materialize(db, scored), toExpire, now)
  }

  /** The facts in `ids` are expired at `now`, the others are as they were. */
  ghost predicate ExpiredAt(before: Db, after: Db, ids: seq<int>, now: int) {
    && after.nextFact == before.nextFact && after.nextEdge == before.nextEdge
    && after.facts.Keys == before.facts.Keys
    && (forall id :: id in before.facts ==>
          after.facts[id] == if id in ids then before.facts[id].(expired := Some(now)) else before.facts[id])
  }

  ghost predicate SameEnds(before: Db, after: Db) {
    && after.edges.Keys == before.edges.Keys
    && forall e :: e in before.edges ==>
         after.edges[e].source == before.edges[e].source && after.edges[e].target == before.edges[e].target
  }

  lemma {:induction false} ExpireEachDoes(db: Db, ids: seq<int>, now: int)
    requires Distinct(ids) && forall k :: 0 <= k < |ids| ==> db.Has(ids[k])
    ensures ExpireEach(db, ids, now).Some?
    ensures ExpiredAt(db, ExpireEach(db, ids, now).value, ids, now)
    ensures SameEnds(db, ExpireEach(db, ids, now).value)
    ensures multiset(ActiveLinks(ExpireEach(db, ids, now).value)) == CutAll(multiset(ActiveLinks(db)), ids)
    decreases |ids|
  {
    if ids != [] {
      var next, rest := ExpireEdges(ExpireFact(db, ids[0], now), ids[0]), ids[1..];
      SameEdgesSameLinks(ExpireFact(db, ids[0], now), db);
      ExpireEdgesCuts(ExpireFact(db, ids[0], now), ids[0]);
      forall k | 0 <= k < |rest| ensures next.Has(rest[k]) {
        assert db.Has(ids[k + 1]);
      }
      ExpireEachDoes(next, rest, now);
      ExpiredChain(db, next, ExpireEach(next, rest, now).value, ids, now);
    }
  }

  lemma ExpiredChain(db: Db, next: Db, last: Db, ids: seq<int>, now: int)
    requires ids != [] && Distinct(ids)
    requires ExpiredAt(db, next, [ids[0]], now) && ExpiredAt(next, last, ids[1..], now)
    ensures ExpiredAt(db, last, ids, now)
  {
    assert ids == [ids[0]] + ids[1..];
  }

  ghost function Actives(db: Db): set<int> {
    set id | id in db.facts && db.facts[id].Active()
  }

  /** One sweep from a cache that mirrors the store. */
  ghost function PruneOnce(sw: Sweep, db: Db): Db
    requires sw.policy.Validate() && db.WellFormed()
  {
    var cache, ids := multiset(ActiveLinks(db)), ActiveIds(db, db.nextFact);
    var r := PruneAtomic(db, Scored(sw, db, cache, ids), Selection(sw, db, cache, ids), sw.now);
    if r.Some? then r.value else db
  }

  /** The active edges that no fact outside `s` has taken with it. */
  ghost function LinksLeft(db: Db, s: set<int>): set<Link> {
    set l | l in ActiveLinks(db)
      && (l.source in Actives(db) ==> l.source in s) && (l.target in Actives(db) ==> l.target in s)
  }

  /** The members of `s` that stay, given the edges still left among `s`. */
  ghost function Survivors(sw: Sweep, db: Db, s: set<int>): set<int>
    requires sw.policy.Validate()
  {
    set id | id in s && id in db.facts && sw.Keeps(db.facts[id], DegreeIn(LinksLeft(db, s), id))
  }

  /** Every member is pinned, exempt, or at or above threshold on the edges left in the set. */
  ghost predicate SelfSupporting(sw: Sweep, db: Db, s: set<int>)
    requires sw.policy.Validate()
  {
    s <= Actives(db) && Survivors(sw, db, s) == s
  }

  lemma DegreeGrows(a: set<Link>, b: set<Link>, id: int)
    requires a <= b
    ensures DegreeIn(a, id) <= DegreeIn(b, id)
  {
    SubsetSize(OutOf(a, id), OutOf(b, id));
    SubsetSize(Into(a, id), Into(b, id));
  }

  lemma SurvivorsMonotone(sw: Sweep, db: Db, s: set<int>, t: set<int>)
    requires sw.policy.Validate() && sw.num.Legal() && s <= t
    ensures Survivors(sw, db, s) <= Survivors(sw, db, t)
  {
    forall id | id in Survivors(sw, db, s) ensures id in Survivors(sw, db, t) {
      var m, n := DegreeIn(LinksLeft(db, s), id), DegreeIn(LinksLeft(db, t), id);
      DegreeGrows(LinksLeft(db, s), LinksLeft(db, t), id);
      ScoreMonotone(sw.num, db.facts[id], m, n, sw.now, sw.policy);
    }
  }

  lemma {:induction false} SelectionDistinct(sw: Sweep, db: Db, cache: multiset<Link>, ids: seq<int>)
    requires sw.policy.Validate() && forall k :: 0 <= k < |ids| ==> ids[k] in db.facts
    requires forall i, j :: 0 <= i < j < |ids| ==> ids[i] < ids[j]
    ensures Distinct(Selection(sw, db, cache, ids))
  {
    if ids != [] {
      var n := |ids| - 1;
      SelectionDistinct(sw, db, cache, ids[..n]);
      var init, last := Selection(sw, db, cache, ids[..n]), ids[n];
      assert last !in ids[..n];
      assert last !in init;
    }
  }

  /** Attributes the score reads are those of the first sweep's facts. */
  ghost predicate SameScoring(a: Db, b: Db) {
    forall id :: id in Actives(b) ==> id in a.facts && b.facts[id] == a.facts[id].(score := b.facts[id].score)
  }

  /** What one sweep does: exactly the survivors stay, and the edges that touch only them. */
  ghost predicate Swept(sw: Sweep, db: Db, after: Db)
    requires sw.policy.Validate()
  {
    && after.WellFormed()
    && SameScoring(db, after)
    && Actives(after) == Survivors(sw, db, Actives(db))
    && ActiveLinks(after) == LinksLeft(db, Actives(after))
  }

  lemma PruneOnceDoes(sw: Sweep, db: Db)
    requires sw.policy.Validate() && db.WellFormed()
    ensures Swept(sw, db, PruneOnce(sw, db))
  {
    var cache, ids := multiset(ActiveLinks(db)), ActiveIds(db, db.nextFact);
    var scored, gone := Scored(sw, db, cache, ids), Selection(sw, db, cache, ids);
    SelectionIsRest(sw, db, ids, gone);
    SelectionDistinct(sw, db, cache, ids);
    SelectionExpires(db, scored, gone, sw.now);
    ExpiringSweeps(sw, db, Materialize(db, scored), PruneAtomic(db, scored, gone, sw.now).value, gone);
  }

  // ---------- what a sweep does to each row ----------

  /** Ends of active edge rows at a fact, a self-loop counted twice. */
  ghost function EdgeEnds(db: Db, id: int): nat {
    |set e | e in db.edges && db.edges[e].active && db.edges[e].source == id|
    + |set e | e in db.edges && db.edges[e].active && db.edges[e].target == id|
  }

  ghost function SweptScore(sw: Sweep, db: Db, id: int): real
    requires sw.policy.Validate() && id in db.facts
  {
    ComputeImportance(sw.num, db.facts[id], EdgeEnds(db, id), sw.now, sw.policy)
  }

  /** Pinned, of an exempt type without a half-life of its own, or at or above the threshold. */
  ghost predicate Stays(sw: Sweep, db: Db, id: int)
    requires sw.policy.Validate() && id in db.facts
  {
    var f := db.facts[id];
    || f.pinned
    || (f.factType in sw.policy.exempt && f.factType !in sw.policy.overrides)
    || SweptScore(sw, db, id) >= sw.policy.minImportance
  }

  /** The row a fact has after a sweep: the score of every active fact is stored, and the facts that do not
      stay are expired at the sweep's instant. */
  ghost function SweptRow(sw: Sweep, db: Db, id: int): Fact
    requires sw.policy.Validate() && id in db.facts
  {
    var f := db.facts[id];
    if f.expired.Some? then f
    else f.(score := SweptScore(sw, db, id), expired := if Stays(sw, db, id) then None else Some(sw.now))
  }

  lemma PruneRows(sw: Sweep, db: Db)
    requires sw.policy.Validate() && db.WellFormed()
    ensures PruneOnce(sw, db).facts == map id | id in db.facts :: SweptRow(sw, db, id)
  {
    var cache, ids := multiset(ActiveLinks(db)), ActiveIds(db, db.nextFact);
    var scored, gone := Scored(sw, db, cache, ids), Selection(sw, db, cache, ids);
    SelectionDistinct(sw, db, cache, ids);
    SelectionExpires(db, scored, gone, sw.now);
    RowsOf(sw, db, ids, scored, gone, PruneAtomic(db, scored, gone, sw.now).value);
  }

  lemma {:induction false} RowsOf(sw: Sweep, db: Db, ids: seq<int>, scored: map<int, real>, gone: seq<int>, after: Db)
    requires sw.policy.Validate() && db.WellFormed() && ids == ActiveIds(db, db.nextFact)
    requires scored == Scored(sw, db, multiset(ActiveLinks(db)), ids)
    requires gone == Selection(sw, db, multiset(ActiveLinks(db)), ids)
    requires ExpiredAt(Materialize(db, scored), after, gone, sw.now)
    ensures after.facts == map id | id in db.facts :: SweptRow(sw, db, id)
  {
    forall id | id in db.facts ensures after.facts[id] == SweptRow(sw, db, id) {
      assert id in ids <==> db.Has(id);
      RowOf(sw, db, ids, id, id in gone);
    }
  }

  lemma {:induction false} RowOf(sw: Sweep, db: Db, ids: seq<int>, id: int, falls: bool)
    requires sw.policy.Validate() && id in db.facts && (id in ids <==> db.Has(id))
    requires falls <==> id in ids && !sw.Keeps(db.facts[id], DegreeOf(multiset(ActiveLinks(db)), id))
    ensures var f, d := db.facts[id], DegreeOf(multiset(ActiveLinks(db)), id);
      var scored := if id in ids then f.(score := ComputeImportance(sw.num, f, d, sw.now, sw.policy)) else f;
      SweptRow(sw, db, id) == if falls then scored.(expired := Some(sw.now)) else scored
  {
    RowDegree(db, id);
  }

  lemma {:induction false} RowDegree(db: Db, id: int)
    ensures DegreeOf(multiset(ActiveLinks(db)), id) == EdgeEnds(db, id)
  {
    DegreeOfSet(ActiveLinks(db), id);
    RowsOut(db, id);
    RowsInto(db, id);
  }

  lemma RowsOut(db: Db, id: int)
    ensures |OutOf(ActiveLinks(db), id)|
      == |set e | e in db.edges && db.edges[e].active && db.edges[e].source == id|
  {
    var rows := set e | e in db.edges && db.edges[e].active && db.edges[e].source == id;
    var key := (l: Link) => l.data.edgeId;
    forall e | e in rows ensures exists l :: l in OutOf(ActiveLinks(db), id) && key(l) == e {
      assert LinkOf(e, db.edges[e]) in OutOf(ActiveLinks(db), id);
    }
    SameSize(rows, OutOf(ActiveLinks(db), id), key);
  }

  lemma RowsInto(db: Db, id: int)
    ensures |Into(ActiveLinks(db), id)|
      == |set e | e in db.edges && db.edges[e].active && db.edges[e].target == id|
  {
    var rows := set e | e in db.edges && db.edges[e].active && db.edges[e].target == id;
    var key := (l: Link) => l.data.edgeId;
    forall e | e in rows ensures exists l :: l in Into(ActiveLinks(db), id) && key(l) == e {
      assert LinkOf(e, db.edges[e]) in Into(ActiveLinks(db), id);
    }
    SameSize(rows, Into(ActiveLinks(db), id), key);
  }

  /** The port's transaction cannot roll back on a selection of active facts. */
  lemma {:induction false} SelectionExpires(db: Db, scored: map<int, real>, gone: seq<int>, now: int)
    requires db.WellFormed() && Distinct(gone) && forall id :: id in gone ==> db.Has(id)
    ensures PruneAtomic(db, scored, gone, now).Some?
    ensures var after := PruneAtomic(db, scored, gone, now).value;
      && ExpiredAt(Materialize(db, scored), after, gone, now) && SameEnds(db, after) && after.WellFormed()
      && multiset(ActiveLinks(after)) == CutAll(multiset(ActiveLinks(db)), gone)
  {
    var mid := Materialize(db, scored);
    forall k | 0 <= k < |gone| ensures mid.Has(gone[k]) {
      var x := gone[k];
      assert x in gone;
    }
    ExpireEachDoes(mid, gone, now);
    SameEdgesSameLinks(db, mid);
  }

  /** Expiring what does not survive, over freshly scored facts, is a sweep. */
  lemma {:induction false} ExpiringSweeps(sw: Sweep, db: Db, mid: Db, after: Db, gone: seq<int>)
    requires sw.policy.Validate() && db.WellFormed()
    requires mid.facts.Keys == db.facts.Keys && mid.edges == db.edges
    requires mid.nextFact == db.nextFact && mid.nextEdge == db.nextEdge
    requires forall id :: id in db.facts ==> mid.facts[id] == db.facts[id].(score := mid.facts[id].score)
    requires ExpiredAt(mid, after, gone, sw.now) && SameEnds(mid, after)
    requires multiset(ActiveLinks(after)) == CutAll(multiset(ActiveLinks(db)), gone)
    requires forall id :: id in gone <==> id in Actives(db) && id !in Survivors(sw, db, Actives(db))
    ensures Swept(sw, db, after)
  {
    forall id ensures id in Actives(after) <==> id in Actives(db) && id !in gone {
      if id in db.facts {
        assert mid.facts[id].Active() == db.facts[id].Active();
      }
    }
    assert Actives(after) == Survivors(sw, db, Actives(db));
    CutAllCounts(multiset(ActiveLinks(db)), gone);
    forall l ensures l in ActiveLinks(after) <==> l in LinksLeft(db, Actives(after)) {
      assert multiset(ActiveLinks(after))[l] == CutAll(multiset(ActiveLinks(db)), gone)[l];
    }
  }

  lemma {:induction false} SelectionIsRest(sw: Sweep, db: Db, ids: seq<int>, gone: seq<int>)
    requires sw.policy.Validate() && db.WellFormed() && ids == ActiveIds(db, db.nextFact)
    requires gone == Selection(sw, db, multiset(ActiveLinks(db)), ids)
    ensures forall id :: id in gone <==> id in Actives(db) && id !in Survivors(sw, db, Actives(db))
  {
    assert LinksLeft(db, Actives(db)) == ActiveLinks(db);
    forall id ensures id in gone <==> id in Actives(db) && id !in Survivors(sw, db, Actives(db)) {
      DegreeOfSet(ActiveLinks(db), id);
    }
  }

  // ---------- repeated sweeps ----------

  /** A run: each store is one sweep on from the one before. */
  ghost predicate IsRun(sw: Sweep, dbs: seq<Db>)
    requires sw.policy.Validate()
  {
    && |dbs| > 0
    && (forall k :: 0 <= k < |dbs| ==> dbs[k].WellFormed())
    && (forall k :: 0 < k < |dbs| ==> dbs[k] == PruneOnce(sw, dbs[k - 1]))
  }

  ghost function Rounds(sw: Sweep, db: Db, k: nat): set<int>
    requires sw.policy.Validate()
  {
    if k == 0 then Actives(db) else Survivors(sw, db, Rounds(sw, db, k - 1))
  }

  /** Store `k` of a run holds exactly round `k`, with the edges left to it. */
  ghost predicate AtRound(sw: Sweep, db: Db, now: Db, k: nat)
    requires sw.policy.Validate()
  {
    && Actives(now) == Rounds(sw, db, k) && Actives(now) <= Actives(db)
    && ActiveLinks(now) == LinksLeft(db, Actives(now))
    && SameScoring(db, now)
  }

  lemma {:induction false} RunIsRounds(sw: Sweep, dbs: seq<Db>, k: nat)
    requires sw.policy.Validate() && IsRun(sw, dbs) && k < |dbs|
    ensures AtRound(sw, dbs[0], dbs[k], k)
  {
    if k > 0 {
      RunIsRounds(sw, dbs, k - 1);
      PruneOnceDoes(sw, dbs[k - 1]);
      SweepStep(sw, dbs[0], dbs[k - 1]);
    }
  }

  /** A sweep from a later store judges by the same attributes and edges as from the first. */
  lemma SweepStep(sw: Sweep, db: Db, last: Db)
    requires sw.policy.Validate()
    requires SameScoring(db, last) && Actives(last) <= Actives(db)
    requires ActiveLinks(last) == LinksLeft(db, Actives(last))
    ensures Survivors(sw, last, Actives(last)) == Survivors(sw, db, Actives(last))
    ensures LinksLeft(last, Survivors(sw, db, Actives(last))) == LinksLeft(db, Survivors(sw, db, Actives(last)))
  {
    assert LinksLeft(last, Actives(last)) == ActiveLinks(last);
    forall id | id in Actives(last)
      ensures id in Survivors(sw, last, Actives(last)) <==> id in Survivors(sw, db, Actives(last))
    {
      var d := DegreeIn(ActiveLinks(last), id);
      KeepsIgnoresScore(sw, db.facts[id], last.facts[id].score, d);
    }
  }

  lemma KeepsIgnoresScore(sw: Sweep, f: Fact, score: real, d: nat)
    requires sw.policy.Validate()
    ensures sw.Keeps(f.(score := score), d) == sw.Keeps(f, d)
  {
    var g := f.(score := score);
    assert Recency(sw.num, g, sw.now, sw.policy) == Recency(sw.num, f, sw.now, sw.policy);
    assert ComputeImportance(sw.num, g, d, sw.now, sw.policy) == ComputeImportance(sw.num, f, d, sw.now, sw.policy);
  }

  lemma {:induction false} RoundsSettle(sw: Sweep, db: Db, k: nat)
    requires sw.policy.Validate()
    ensures Rounds(sw, db, k) <= Actives(db)
    ensures Rounds(sw, db, k + 1) == Rounds(sw, db, k) || |Rounds(sw, db, k)| + k <= |Actives(db)|
  {
    if k > 0 {
      RoundsSettle(sw, db, k - 1);
      var was, now := Rounds(sw, db, k - 1), Rounds(sw, db, k);
      assert now <= was;
      if now != was {
        SubsetSize(now, was);
      }
    }
  }

  /** A self-supporting set is never touched by any number of sweeps. */
  lemma {:induction false} SupportSurvives(sw: Sweep, db: Db, t: set<int>, k: nat)
    requires sw.policy.Validate() && sw.num.Legal() && SelfSupporting(sw, db, t)
    ensures t <= Rounds(sw, db, k)
  {
    if k > 0 {
      SupportSurvives(sw, db, t, k - 1);
      SurvivorsMonotone(sw, db, t, Rounds(sw, db, k - 1));
    }
  }

  /** Within |active facts| sweeps, pruning reaches the largest self-supporting set and stops. */
  lemma PruneConverges(sw: Sweep, dbs: seq<Db>, k: nat)
    requires sw.policy.Validate() && sw.num.Legal() && IsRun(sw, dbs)
    requires |Actives(dbs[0])| <= k < |dbs|
    ensures SelfSupporting(sw, dbs[0], Actives(dbs[k]))
    ensures forall t :: SelfSupporting(sw, dbs[0], t) ==> t <= Actives(dbs[k])
    ensures k + 1 < |dbs| ==> Actives(dbs[k + 1]) == Actives(dbs[k]) && ActiveLinks(dbs[k + 1]) == ActiveLinks(dbs[k])
  {
    var db := dbs[0];
    RunIsRounds(sw, dbs, k);
    RoundsSettle(sw, db, k);
    if |Rounds(sw, db, k)| + k <= |Actives(db)| {
      assert Rounds(sw, db, k) == {};
      assert Survivors(sw, db, {}) == {};
    }
    forall t | SelfSupporting(sw, db, t) ensures t <= Actives(dbs[k]) {
      SupportSurvives(sw, db, t, k);
    }
    if k + 1 < |dbs| {
      RunIsRounds(sw, dbs, k + 1);
    }
  }

  /** Sweeps only ever shrink the active set. */
  lemma PruneShrinks(sw: Sweep, dbs: seq<Db>, k: nat)
    requires sw.policy.Validate() && IsRun(sw, dbs) && k + 1 < |dbs|
    ensures Actives(dbs[k + 1]) <= Actives(dbs[k])
  {
    RunIsRounds(sw, dbs, k);
    RunIsRounds(sw, dbs, k + 1);
  }

  // ---------- one sweep is not enough ----------

  function Plain(base: real): Fact {
    Fact("", [], Episodic, 1, false, false, base, 0.0, 0, 0, 0, None, None, None)
  }

  /** Two linked facts: the first sweep expires one, and only then does the other fall. */
  lemma PruneNotIdempotent(num: Numerics) returns (sw: Sweep, db: Db, one: Db, two: Db)
    requires num.Legal()
    ensures sw.num == num && sw.policy.Validate() && db.WellFormed() && one.WellFormed()
    ensures one == PruneOnce(sw, db) && two == PruneOnce(sw, one)
    ensures Actives(db) == {1, 2} && Actives(one) == {2} && Actives(two) == {}
  {
    var s := Saturation(num, 1, CONNECTIVITY_NORMALIZATION_ARG);
    SaturationMonotone(num, 0, 1, CONNECTIVITY_NORMALIZATION_ARG);
    assert s > 0.0;
    var policy := Policy(1.0, map[], {}, s / 2.0 + 0.5, 0.0, 0.0, 0.5, 0.5);
    sw := Sweep(num, policy, 0);
    db := Db(map[1 := Plain(0.0), 2 := Plain(1.0)], map[1 := EdgeRow(1, 2, "supplements", 1.0, true)], 3, 2);
    TwoFacts(sw, db);
    one, two := SweepTwice(sw, db);
  }

  lemma SweepTwice(sw: Sweep, db: Db) returns (one: Db, two: Db)
    requires sw.policy.Validate() && db.WellFormed()
    ensures one == PruneOnce(sw, db) && one.WellFormed() && two == PruneOnce(sw, one)
    ensures Actives(one) == Survivors(sw, db, Actives(db))
    ensures Actives(two) == Survivors(sw, db, Actives(one))
  {
    PruneOnceDoes(sw, db);
    one := PruneOnce(sw, db);
    PruneOnceDoes(sw, one);
    two := PruneOnce(sw, one);
    SweepStep(sw, db, one);
  }

  /** When a second sweep at the same instant expires nothing: exactly when every fact the first one keeps
      reaches the threshold, or is exempt or pinned, on the edges among the kept facts alone. */
  lemma PruneAgainIff(sw: Sweep, db: Db) returns (one: Db, two: Db)
    requires sw.policy.Validate() && db.WellFormed()
    ensures one == PruneOnce(sw, db) && one.WellFormed() && two == PruneOnce(sw, one)
    ensures Actives(two) == Actives(one) <==> SelfSupporting(sw, db, Survivors(sw, db, Actives(db)))
  {
    one, two := SweepTwice(sw, db);
  }

  /** With weight on connectivity and base alone, half each. */
  lemma HalfScores(sw: Sweep, base: real, degree: nat)
    requires sw.policy.Validate() && sw.policy.recencyWeight == 0.0 == sw.policy.frequencyWeight
    requires sw.policy.degreeWeight == 0.5 == sw.policy.baseWeight && sw.policy.exempt == {}
    ensures sw.Keeps(Plain(base), degree)
      <==> Saturation(sw.num, degree, CONNECTIVITY_NORMALIZATION_ARG) / 2.0 + base / 2.0 >= sw.policy.minImportance
  {
    var recency := Recency(sw.num, Plain(base), sw.now, sw.policy);
    assert 0.0 * recency == 0.0;
  }

  /** The store of two linked facts: what is left of the edge among the facts of each sweep. */
  lemma TwoDegrees(db: Db)
    requires db.facts == map[1 := Plain(0.0), 2 := Plain(1.0)]
    requires db.edges == map[1 := EdgeRow(1, 2, "supplements", 1.0, true)]
    ensures Actives(db) == {1, 2}
    ensures DegreeIn(LinksLeft(db, {1, 2}), 1) == 1 && DegreeIn(LinksLeft(db, {1, 2}), 2) == 1
    ensures DegreeIn(LinksLeft(db, {2}), 2) == 0
  {
    var l := LinkOf(1, db.edges[1]);
    assert Actives(db) == {1, 2};
    assert LinksLeft(db, {1, 2}) == {l} && LinksLeft(db, {2}) == {};
    assert OutOf({l}, 1) == {l} && Into({l}, 1) == {} && OutOf({l}, 2) == {} && Into({l}, 2) == {l};
    assert OutOf({}, 2) == {} && Into({}, 2) == {};
  }

  lemma TwoFacts(sw: Sweep, db: Db)
    requires sw.num.Legal() && sw.policy.Validate() && db.WellFormed()
    requires db.facts == map[1 := Plain(0.0), 2 := Plain(1.0)]
    requires db.edges == map[1 := EdgeRow(1, 2, "supplements", 1.0, true)]
    requires sw.policy == Policy(1.0, map[], {}, Saturation(sw.num, 1, CONNECTIVITY_NORMALIZATION_ARG) / 2.0 + 0.5,
                                 0.0, 0.0, 0.5, 0.5)
    requires Saturation(sw.num, 1, CONNECTIVITY_NORMALIZATION_ARG) > 0.0
    ensures Actives(db) == {1, 2}
    ensures Survivors(sw, db, {1, 2}) == {2} && Survivors(sw, db, {2}) == {}
  {
    TwoDegrees(db);
    assert Saturation(sw.num, 0, CONNECTIVITY_NORMALIZATION_ARG) == 0.0;
    HalfScores(sw, 0.0, 1);
    HalfScores(sw, 1.0, 1);
    HalfScores(sw, 1.0, 0);
  }
}
