/** The default dream cycle (crates/me-cognitive/src/default_impl.rs): promote the best member of
    each dense cluster, rescore the rest from outcomes.

    `PercentileIs` pins the bar as an order statistic, `PromotedIff` says who is promoted, and
    `ReportApplies` that a report on an active window names each fact once and is never refused.
  */
module DefaultCycle {
  import opened Collections
  import opened MemoryStore
  import opened CycleReports
  import Dbscan

  const EPS := 0.15
  const MIN_PTS := 3
  const QUARANTINE_NEGATIVE_THRESHOLD := 3

  // ---------- nearest-rank percentile ----------

  /** Ascending order is falling order of the negated value. */
  function Negated(): real -> real { (x: real) => -x }

  function Sort(values: seq<real>): (r: seq<real>)
    ensures |r| == |values|
  {
    SortedByIs(values, Negated());
    SortedBy(values, Negated())
  }

  ghost predicate Ascending(s: seq<real>) { forall i, j :: 0 <= i < j < |s| ==> s[i] <= s[j] }

  lemma SortSorts(values: seq<real>)
    ensures Ascending(Sort(values)) && multiset(Sort(values)) == multiset(values)
  {
    SortedByIs(values, Negated());
    var s := Sort(values);
    forall i, j | 0 <= i < j < |s| ensures s[i] <= s[j] {
      assert Negated()(s[i]) >= Negated()(s[j]);
    }
  }

  lemma ScaledBounds(q: real, n: nat)
    requires 0.0 <= q <= 1.0
    ensures 0.0 <= q * n as real <= n as real
  {}

  /** `round(p * (n - 1))`, halves up, kept below `n`. */
  function Rank(p: real, n: nat): (k: nat)
    requires n > 0
    ensures k < n && (p <= 0.0 ==> k == 0) && (p >= 1.0 ==> k == n - 1)
  {
    ScaledBounds(Clamp01(p), n - 1);
    var k := (Clamp01(p) * (n - 1) as real + 0.5).Floor;
    if k < n then k else n - 1
  }

  function Percentile(values: seq<real>, p: real): real {
    if values == [] then 0.0
    else Sort(values)[Rank(p, |values|)]
  }

  function Less(v: real): real -> bool { x => x < v }

  function AtMost(v: real): real -> bool { x => x <= v }

  /** At most `k` entries are below `v`, and more than `k` are not above it. */
  ghost predicate IsOrderStatistic(m: multiset<real>, k: nat, v: real) {
    v in m && Count(m, Less(v)) <= k < Count(m, AtMost(v))
  }

  /** `k` is the integer nearest to `p * (n - 1)`, halves going up, for `p` cut off at 0 and 1. */
  ghost predicate IsNearest(p: real, n: nat, k: nat)
    requires n > 0
  {
    if p < 0.0 then k == 0
    else if p > 1.0 then k == n - 1
    else k as real - 0.5 <= p * (n - 1) as real < k as real + 0.5
  }

  lemma RankIsNearest(p: real, n: nat, k: nat)
    requires n > 0
    ensures IsNearest(p, n, k) <==> k == Rank(p, n)
  {
    if 0.0 <= p <= 1.0 {
      ScaledBounds(p, n - 1);
    }
  }

  /** The percentile of no values is 0; of others it is the order statistic of the nearest rank. */
  lemma PercentileIs(values: seq<real>, p: real, k: nat)
    requires values != [] ==> IsNearest(p, |values|, k)
    ensures if values == [] then Percentile(values, p) == 0.0
            else k < |values| && IsOrderStatistic(multiset(values), k, Percentile(values, p))
  {
    if values != [] {
      RankIsNearest(p, |values|, k);
      SortSorts(values);
      RankedIs(Sort(values), k);
    }
  }

  lemma RankedIs(s: seq<real>, k: nat)
    requires Ascending(s) && k < |s|
    ensures IsOrderStatistic(multiset(s), k, s[k])
  {
    FewBelow(s, k, s[k]);
    ManyUpTo(s, k, s[k]);
  }

  lemma FewBelow(s: seq<real>, k: nat, v: real)
    requires k < |s| && forall i :: k <= i < |s| ==> v <= s[i]
    ensures Count(multiset(s), Less(v)) <= k
  {
    assert s == s[..k] + s[k..];
    CountSum(multiset(s[..k]), multiset(s[k..]), Less(v));
    CountBounds(multiset(s[..k]), Less(v));
    AllBounds(s[k..], Less(v), AtMost(v));
  }

  lemma ManyUpTo(s: seq<real>, k: nat, v: real)
    requires k < |s| && forall i :: 0 <= i <= k ==> s[i] <= v
    ensures Count(multiset(s), AtMost(v)) > k
  {
    assert s == s[..k + 1] + s[k + 1..];
    CountSum(multiset(s[..k + 1]), multiset(s[k + 1..]), AtMost(v));
    AllBounds(s[..k + 1], Less(v), AtMost(v));
  }

  /** A run of entries that all miss `p` counts nothing; one whose entries all meet `q` counts fully. */
  lemma AllBounds(s: seq<real>, p: real -> bool, q: real -> bool)
    ensures (forall i :: 0 <= i < |s| ==> !p(s[i])) ==> Count(multiset(s), p) == 0
    ensures (forall i :: 0 <= i < |s| ==> q(s[i])) ==> Count(multiset(s), q) == |s|
  {
    forall x | x in multiset(s) ensures exists i :: 0 <= i < |s| && s[i] == x {
      assert x in s;
    }
    CountBounds(multiset(s), p);
    CountBounds(multiset(s), q);
  }

  lemma OrderStatisticUnique(m: multiset<real>, k: nat, v: real, w: real)
    requires IsOrderStatistic(m, k, v) && IsOrderStatistic(m, k, w)
    ensures v == w
  {
    CountMonotone(m, AtMost(v), Less(if v < w then w else v + 1.0));
    CountMonotone(m, AtMost(w), Less(if w < v then v else w + 1.0));
  }

  lemma PercentileOrderFree(a: seq<real>, b: seq<real>, p: real)
    requires multiset(a) == multiset(b)
    ensures Percentile(a, p) == Percentile(b, p)
  {
    assert |multiset(a)| == |a| && |multiset(b)| == |b|;
    if a != [] {
      var k := Rank(p, |a|);
      RankIsNearest(p, |a|, k);
      PercentileIs(a, p, k);
      PercentileIs(b, p, k);
      OrderStatisticUnique(multiset(a), k, Percentile(a, p), Percentile(b, p));
    }
  }

  // ---------- the representative ----------

  /** Higher importance, then smaller id. */
  predicate Beats(byId: Facts, a: int, b: int)
    requires a in byId && b in byId
  {
    byId[a].base > byId[b].base || (byId[a].base == byId[b].base && a < b)
  }

  predicate Members(byId: Facts, ids: seq<int>) { forall k :: 0 <= k < |ids| ==> ids[k] in byId }

  ghost predicate IsBest(byId: Facts, cluster: seq<int>, m: int)
    requires Members(byId, cluster)
  {
    && m in byId && m in cluster
    && forall k :: 0 <= k < |cluster| ==>
         byId[cluster[k]].base < byId[m].base || (byId[cluster[k]].base == byId[m].base && m <= cluster[k])
  }

  lemma BestUnique(byId: Facts, cluster: seq<int>, a: int, b: int)
    requires Members(byId, cluster) && IsBest(byId, cluster, a) && IsBest(byId, cluster, b)
    ensures a == b
  {
    var i :| 0 <= i < |cluster| && cluster[i] == a;
    var j :| 0 <= j < |cluster| && cluster[j] == b;
  }

  method Medoid(byId: Facts, cluster: seq<int>) returns (m: int)
    requires Members(byId, cluster) && cluster != []
    ensures IsBest(byId, cluster, m)
  {
    m := cluster[0];
    var at := 0;
    for k := 1 to |cluster|
      invariant 0 <= at < |cluster| && cluster[at] == m
      invariant forall j :: 0 <= j < k ==> cluster[j] == m || Beats(byId, m, cluster[j])
    {
      if !Beats(byId, m, cluster[k]) {
        m, at := cluster[k], k;
      }
    }
    BestAt(cluster, at);
  }

  lemma BestAt(s: seq<int>, k: nat)
    requires k < |s|
    ensures s[k] in s
  {}

  // ---------- promotion ----------

  /** The bucket of one fact type, in window order. */
  function Bucket(byId: Facts, window: seq<int>, t: FactType): (r: seq<int>)
    requires Members(byId, window)
    ensures Members(byId, r) && forall k :: 0 <= k < |r| ==> byId[r[k]].factType == t
  {
    if window == [] then []
    else
      var n := |window| - 1;
      Bucket(byId, window[..n], t) + if byId[window[n]].factType == t then [window[n]] else []
  }

  lemma {:induction false} BucketIs(byId: Facts, window: seq<int>, t: FactType)
    requires Members(byId, window)
    ensures forall id :: id in Bucket(byId, window, t) <==> id in window && id in byId && byId[id].factType == t
    ensures Distinct(window) ==> Distinct(Bucket(byId, window, t))
  {
    if window != [] {
      var init, last := window[..|window| - 1], window[|window| - 1];
      BucketIs(byId, init, t);
      assert window == init + [last];
    }
  }

  function Bases(byId: Facts, ids: seq<int>): (r: seq<real>)
    requires Members(byId, ids)
    ensures |r| == |ids|
  {
    seq(|ids|, k requires 0 <= k < |ids| => byId[ids[k]].base)
  }

  function CloudOf(byId: Facts, ids: seq<int>, sim: (Dbscan.Embedding, Dbscan.Embedding) -> real): (c: Dbscan.Cloud)
    requires Members(byId, ids)
    ensures Dbscan.Ids(c.points) == ids
  {
    Dbscan.Cloud(seq(|ids|, k requires 0 <= k < |ids| => Dbscan.Point(ids[k], byId[ids[k]].embedding)),
                 sim, 1.0 - EPS, MIN_PTS)
  }

  datatype Counts = Counts(positive: nat, negative: nat)

  /** Similarity, promotion percentile, recorded outcomes. */
  datatype Setup = Setup(sim: (Dbscan.Embedding, Dbscan.Embedding) -> real, percentile: real, counts: int -> Counts)

  /** A bucket's clusters: none below three facts, else the clustering of its embeddings. */
  ghost predicate AreClusters(byId: Facts, bucket: seq<int>, setup: Setup, clusters: seq<seq<int>>)
    requires Members(byId, bucket)
  {
    if |bucket| < MIN_PTS then clusters == [] else Dbscan.IsClustering(CloudOf(byId, bucket, setup.sim), clusters)
  }

  function Bar(byId: Facts, bucket: seq<int>, setup: Setup): real
    requires Members(byId, bucket)
  {
    Percentile(Bases(byId, bucket), setup.percentile)
  }

  /** The best member of the cluster, if it reaches the bar. */
  ghost predicate Wins(byId: Facts, cluster: seq<int>, bar: real, m: int) {
    Members(byId, cluster) && IsBest(byId, cluster, m) && byId[m].base >= bar
  }

  ghost predicate NoneWins(byId: Facts, cluster: seq<int>, bar: real) { forall m :: !Wins(byId, cluster, bar, m) }

  /** One winner for each cluster that has one, in cluster order. */
  ghost predicate AreWinners(byId: Facts, clusters: seq<seq<int>>, bar: real, winners: seq<int>, from: seq<int>) {
    && |from| == |winners|
    && (forall i, j :: 0 <= i < j < |from| ==> from[i] < from[j])
    && (forall i :: 0 <= i < |from| ==> 0 <= from[i] < |clusters| && Wins(byId, clusters[from[i]], bar, winners[i]))
    && (forall l :: 0 <= l < |clusters| && l !in from ==> NoneWins(byId, clusters[l], bar))
  }

  ghost predicate Clean(byId: Facts, clusters: seq<seq<int>>) {
    && Dbscan.Disjoint(clusters)
    && forall l :: 0 <= l < |clusters| ==> clusters[l] != [] && Members(byId, clusters[l])
  }

  method Promote(byId: Facts, clusters: seq<seq<int>>, bar: real) returns (winners: seq<int>, ghost from: seq<int>)
    requires Clean(byId, clusters)
    ensures AreWinners(byId, clusters, bar, winners, from)
    ensures forall m :: m in winners <==> WinsSome(byId, clusters, bar, m)
  {
    winners, from := [], [];
    for l := 0 to |clusters|
      invariant AreWinners(byId, clusters[..l], bar, winners, from)
    {
      var m := Medoid(byId, clusters[l]);
      ghost var wins := byId[m].base >= bar;
      NextWinner(byId, clusters, l, bar, winners, from, m, wins);
      if byId[m].base >= bar {
        winners, from := winners + [m], from + [l];
      }
    }
    assert clusters[..|clusters|] == clusters;
    WinnersAre(byId, clusters, bar, winners, from);
  }

  ghost predicate WinsSome(byId: Facts, clusters: seq<seq<int>>, bar: real, m: int) {
    exists l :: 0 <= l < |clusters| && Wins(byId, clusters[l], bar, m)
  }

  lemma WinnersAre(byId: Facts, clusters: seq<seq<int>>, bar: real, winners: seq<int>, from: seq<int>)
    requires AreWinners(byId, clusters, bar, winners, from)
    ensures forall m :: m in winners <==> WinsSome(byId, clusters, bar, m)
  {
    forall m | m in winners ensures WinsSome(byId, clusters, bar, m) {
      var k :| 0 <= k < |winners| && winners[k] == m;
      assert Wins(byId, clusters[from[k]], bar, m);
    }
    forall m | WinsSome(byId, clusters, bar, m) ensures m in winners {
      var l :| 0 <= l < |clusters| && Wins(byId, clusters[l], bar, m);
      var k :| 0 <= k < |from| && from[k] == l;
      BestUnique(byId, clusters[l], m, winners[k]);
    }
  }

  lemma NextWinner(byId: Facts, clusters: seq<seq<int>>, l: nat, bar: real, winners: seq<int>, from: seq<int>, m: int,
                   wins: bool)
    requires l < |clusters| && AreWinners(byId, clusters[..l], bar, winners, from)
    requires Members(byId, clusters[l]) && IsBest(byId, clusters[l], m) && wins == (byId[m].base >= bar)
    ensures wins ==> AreWinners(byId, clusters[..l + 1], bar, winners + [m], from + [l])
    ensures !wins ==> AreWinners(byId, clusters[..l + 1], bar, winners, from)
  {
    forall x | IsBest(byId, clusters[l], x) ensures x == m {
      BestUnique(byId, clusters[l], x, m);
    }
    assert !wins ==> NoneWins(byId, clusters[l], bar);
    forall k | 0 <= k < l && k !in from ensures NoneWins(byId, clusters[..l + 1][k], bar) {
      assert clusters[..l + 1][k] == clusters[..l][k];
    }
    assert forall k :: k in from + [l] <==> k in from || k == l;
  }

  // ---------- rescoring ----------

  function Clamp2(net: int): Quanta {
    if net > MAX_ADJUSTMENT then MAX_ADJUSTMENT else if net < -MAX_ADJUSTMENT then -MAX_ADJUSTMENT else net
  }

  /** At most one delta for a fact that was not promoted. */
  function Rescore(id: int, c: Counts): seq<Delta> {
    if c.positive == 0 && c.negative >= QUARANTINE_NEGATIVE_THRESHOLD then [Quarantine(id)]
    else if c.positive != c.negative then [AdjustScore(id, Clamp2(c.positive - c.negative))]
    else []
  }

  function RescoreLog(window: seq<int>, promoted: set<int>, counts: int -> Counts): seq<Delta> {
    if window == [] then []
    else
      var n := |window| - 1;
      RescoreLog(window[..n], promoted, counts)
      + if window[n] in promoted then [] else Rescore(window[n], counts(window[n]))
  }

  function Promotions(ids: seq<int>): (r: seq<Delta>)
    ensures |r| == |ids| && forall k :: 0 <= k < |r| ==> r[k] == Delta.Promote(ids[k])
  {
    seq(|ids|, k requires 0 <= k < |ids| => Delta.Promote(ids[k]))
  }

  // ---------- the cycle ----------

  const TYPES: seq<FactType> := [Episodic, Semantic, Procedural]

  /** What one fact type contributes. */
  datatype Yield = Yield(clusters: seq<seq<int>>, winners: seq<int>, from: seq<int>)

  ghost predicate IsYield(byId: Facts, window: seq<int>, setup: Setup, t: FactType, y: Yield)
    requires Members(byId, window)
  {
    && AreClusters(byId, Bucket(byId, window, t), setup, y.clusters)
    && AreWinners(byId, y.clusters, Bar(byId, Bucket(byId, window, t), setup), y.winners, y.from)
  }

  function AllWinners(ys: seq<Yield>): seq<int> {
    if ys == [] then [] else AllWinners(ys[..|ys| - 1]) + ys[|ys| - 1].winners
  }

  ghost predicate AreYields(byId: Facts, window: seq<int>, setup: Setup, ys: seq<Yield>)
    requires Members(byId, window)
  {
    |ys| <= |TYPES| && forall t :: 0 <= t < |ys| ==> IsYield(byId, window, setup, TYPES[t], ys[t])
  }

  /** The clusters of a bucket stay in it and do not overlap. */
  lemma ClustersClean(byId: Facts, bucket: seq<int>, setup: Setup, clusters: seq<seq<int>>)
    requires Members(byId, bucket) && Distinct(bucket) && Dbscan.SymmetricSim(setup.sim)
    requires AreClusters(byId, bucket, setup, clusters)
    ensures Clean(byId, clusters) && forall l, x :: 0 <= l < |clusters| && x in clusters[l] ==> x in bucket
  {
    if |bucket| >= MIN_PTS {
      Dbscan.ClustersCover(CloudOf(byId, bucket, setup.sim), clusters);
      forall l, k | 0 <= l < |clusters| && 0 <= k < |clusters[l]| ensures clusters[l][k] in byId {
        var x := clusters[l][k];
        assert x in clusters[l] && x in bucket;
      }
    }
  }

  method Cluster(byId: Facts, bucket: seq<int>, setup: Setup) returns (clusters: seq<seq<int>>)
    requires Members(byId, bucket) && Dbscan.SymmetricSim(setup.sim)
    ensures AreClusters(byId, bucket, setup, clusters)
  {
    if |bucket| < MIN_PTS {
      return [];
    }
    clusters := Dbscan.Run(CloudOf(byId, bucket, setup.sim));
  }

  /** The clusters and winners of one type. */
  method RunType(byId: Facts, window: seq<int>, setup: Setup, t: FactType) returns (winners: seq<int>, ghost y: Yield)
    requires Members(byId, window) && Distinct(window) && Dbscan.SymmetricSim(setup.sim)
    ensures IsYield(byId, window, setup, t, y) && winners == y.winners
  {
    var bucket := Bucket(byId, window, t);
    BucketIs(byId, window, t);
    var clusters := Cluster(byId, bucket, setup);
    ClustersClean(byId, bucket, setup, clusters);
    ghost var from;
    winners, from := Promote(byId, clusters, Bar(byId, bucket, setup));
    y := Yield(clusters, winners, from);
  }

  method Run(byId: Facts, window: seq<int>, setup: Setup) returns (deltas: seq<Delta>, ghost ys: seq<Yield>)
    requires Members(byId, window) && Distinct(window) && Dbscan.SymmetricSim(setup.sim)
    ensures |ys| == |TYPES| && AreYields(byId, window, setup, ys)
    ensures deltas == Promotions(AllWinners(ys)) + RescoreLog(window, Elements(AllWinners(ys)), setup.counts)
    ensures NamesOnce(deltas, Elements(window))
  {
    ys := [];
    var promoted: seq<int> := [];
    for t := 0 to |TYPES|
      invariant |ys| == t && AreYields(byId, window, setup, ys) && promoted == AllWinners(ys)
    {
      var winners, y := RunType(byId, window, setup, TYPES[t]);
      assert (ys + [y])[..t] == ys;
      ys := ys + [y];
      promoted := promoted + winners;
    }
    var log := RescoreAll(window, Elements(promoted), setup.counts);
    deltas := Promotions(promoted) + log;
    ReportNamesOnce(byId, window, setup, ys, deltas);
  }

  /** `RescoredIff` says what is in the log, `RescoreOrder` where. */
  method RescoreAll(window: seq<int>, promoted: set<int>, counts: int -> Counts) returns (log: seq<Delta>)
    ensures log == RescoreLog(window, promoted, counts)
  {
    log := [];
    for k := 0 to |window|
      invariant log == RescoreLog(window[..k], promoted, counts)
    {
      assert window[..k + 1][..k] == window[..k];
      if window[k] !in promoted {
        log := log + Rescore(window[k], counts(window[k]));
      }
    }
    assert window[..|window|] == window;
  }

  // ---------- what the report is ----------

  /** The fact a delta of this cycle is about. */
  function Subject(d: Delta): int
    requires d.Promote? || d.Quarantine? || d.AdjustScore?
  {
    match d
    case Promote(id) => id
    case Quarantine(id) => id
    case AdjustScore(id, _) => id
  }

  predicate Plain(d: Delta) {
    || d.Promote? || d.Quarantine?
    || (d.AdjustScore? && d.adjustment != 0 && -2 <= d.adjustment <= 2)
  }

  /** Deltas about facts of `ids`, no fact twice, every adjustment non-zero and in range. */
  ghost predicate NamesOnce(deltas: seq<Delta>, ids: set<int>) {
    && (forall i :: 0 <= i < |deltas| ==> Plain(deltas[i]) && Subject(deltas[i]) in ids)
    && forall i, j :: 0 <= i < j < |deltas| ==> Subject(deltas[i]) != Subject(deltas[j])
  }

  lemma NamesJoin(a: seq<Delta>, b: seq<Delta>, x: set<int>, y: set<int>)
    requires NamesOnce(a, x) && NamesOnce(b, y) && x !! y
    ensures NamesOnce(a + b, x + y)
  {}

  lemma {:induction false} RescoreNames(window: seq<int>, promoted: set<int>, counts: int -> Counts)
    requires Distinct(window)
    ensures NamesOnce(RescoreLog(window, promoted, counts), Elements(window) - promoted)
  {
    if window != [] {
      var n := |window| - 1;
      var init, last := window[..n], window[n];
      RescoreNames(init, promoted, counts);
      assert window == init + [last];
      if last !in promoted {
        assert last !in init;
        NamesJoin(RescoreLog(init, promoted, counts), Rescore(last, counts(last)), Elements(init) - promoted, {last});
        assert Elements(window) - promoted == Elements(init) - promoted + {last};
      } else {
        assert Elements(window) - promoted == Elements(init) - promoted;
        assert RescoreLog(window, promoted, counts) == RescoreLog(init, promoted, counts);
      }
    }
  }

  // ---------- who is quarantined, who is adjusted ----------

  predicate Failing(c: Counts) { c.positive == 0 && c.negative >= 3 }

  /** `a` is the surplus of positive outcomes, cut off at two either way. */
  predicate Moves(c: Counts, a: int) {
    var net := c.positive - c.negative;
    a != 0 && ((-2 < a < 2 && a == net) || (a == 2 && net >= 2) || (a == -2 && net <= -2))
  }

  lemma {:induction false} RescoreLogHas(window: seq<int>, promoted: set<int>, counts: int -> Counts, d: Delta)
    requires d.Quarantine? || d.AdjustScore?
    ensures d in RescoreLog(window, promoted, counts) <==>
      Subject(d) in window && Subject(d) !in promoted && d in Rescore(Subject(d), counts(Subject(d)))
  {
    if window != [] {
      var n := |window| - 1;
      RescoreLogHas(window[..n], promoted, counts, d);
      assert window == window[..n] + [window[n]];
    }
  }

  lemma RescoreIs(id: int, c: Counts, a: Quanta)
    ensures Quarantine(id) in Rescore(id, c) <==> Failing(c)
    ensures AdjustScore(id, a) in Rescore(id, c) <==> !Failing(c) && Moves(c, a)
  {
    assert [Quarantine(id)][0] == Quarantine(id);
    var x := AdjustScore(id, Clamp2(c.positive - c.negative));
    assert [x][0] == x;
  }

  /** Quarantined are exactly the facts of the window that are not promoted and have no positive and at least
      three negative outcomes; adjusted, by exactly their clamped surplus, the others that have one. */
  lemma {:induction false} RescoredIff(byId: Facts, window: seq<int>, setup: Setup, ys: seq<Yield>, deltas: seq<Delta>,
                                       id: int, a: Quanta)
    requires Members(byId, window) && |ys| == |TYPES| && AreYields(byId, window, setup, ys)
    requires deltas == Promotions(AllWinners(ys)) + RescoreLog(window, Elements(AllWinners(ys)), setup.counts)
    ensures Quarantine(id) in deltas <==> id in window && id !in AllWinners(ys) && Failing(setup.counts(id))
    ensures AdjustScore(id, a) in deltas <==>
      id in window && id !in AllWinners(ys) && !Failing(setup.counts(id)) && Moves(setup.counts(id), a)
  {
    var winners := Elements(AllWinners(ys));
    RescoreLogHas(window, winners, setup.counts, Quarantine(id));
    RescoreLogHas(window, winners, setup.counts, AdjustScore(id, a));
    RescoreIs(id, setup.counts(id), a);
  }

  /** The deltas of `log` come in the order of the window. */
  ghost predicate InOrder(window: seq<int>, log: seq<Delta>) {
    forall i, j, p, q | 0 <= i < j < |log| && 0 <= p < |window| && 0 <= q < |window| ::
      About(log[i], window[p]) && About(log[j], window[q]) ==> p < q
  }

  predicate About(d: Delta, id: int) { Plain(d) && Subject(d) == id }

  lemma {:induction false} RescoreOrder(window: seq<int>, promoted: set<int>, counts: int -> Counts)
    requires Distinct(window)
    ensures InOrder(window, RescoreLog(window, promoted, counts))
  {
    if window != [] {
      var n := |window| - 1;
      RescoreNames(window[..n], promoted, counts);
      RescoreOrder(window[..n], promoted, counts);
      OrderJoins(window, RescoreLog(window[..n], promoted, counts),
                 if window[n] in promoted then [] else Rescore(window[n], counts(window[n])));
    }
  }

  lemma OrderJoins(window: seq<int>, init: seq<Delta>, tail: seq<Delta>)
    requires window != [] && Distinct(window) && InOrder(window[..|window| - 1], init)
    requires NamesOnce(init, Elements(window[..|window| - 1]))
    requires |tail| <= 1 && forall d :: d in tail ==> About(d, window[|window| - 1])
    ensures InOrder(window, init + tail)
  {
    var n := |window| - 1;
    forall i, p | 0 <= i < |init| && 0 <= p < |window| && About(init[i], window[p]) ensures p < n {
      assert Subject(init[i]) in Elements(window[..n]);
    }
    var log := init + tail;
    forall i, j, p, q | 0 <= i < j < |log| && 0 <= p < |window| && 0 <= q < |window|
        && About(log[i], window[p]) && About(log[j], window[q])
      ensures p < q
    {
      assert log[i] == init[i] && p < n;
      if j == |init| {
        var d := tail[0];
        assert log[j] == d && d in tail;
      } else {
        assert log[j] == init[j] && window[..n][p] == window[p] && window[..n][q] == window[q];
      }
    }
  }

  /** The winners of one type: distinct, in the window, of that type. */
  lemma WinnersDistinct(byId: Facts, window: seq<int>, setup: Setup, t: FactType, y: Yield)
    requires Members(byId, window) && Distinct(window) && Dbscan.SymmetricSim(setup.sim)
    requires IsYield(byId, window, setup, t, y)
    ensures Distinct(y.winners)
    ensures forall k :: 0 <= k < |y.winners| ==>
      y.winners[k] in window && y.winners[k] in byId && byId[y.winners[k]].factType == t
  {
    var bucket := Bucket(byId, window, t);
    BucketIs(byId, window, t);
    ClustersClean(byId, bucket, setup, y.clusters);
    forall k | 0 <= k < |y.winners| ensures y.winners[k] in y.clusters[y.from[k]] && y.winners[k] in bucket {
      assert Wins(byId, y.clusters[y.from[k]], Bar(byId, bucket, setup), y.winners[k]);
    }
  }

  /** Of one of the first `n` types. */
  ghost predicate OfTypes(byId: Facts, x: int, n: nat)
    requires n <= |TYPES|
  {
    x in byId && exists t :: 0 <= t < n && byId[x].factType == TYPES[t]
  }

  lemma {:induction false} AllWinnersDistinct(byId: Facts, window: seq<int>, setup: Setup, ys: seq<Yield>)
    requires Members(byId, window) && Distinct(window) && Dbscan.SymmetricSim(setup.sim)
    requires AreYields(byId, window, setup, ys)
    ensures Distinct(AllWinners(ys)) && Elements(AllWinners(ys)) <= Elements(window)
    ensures forall k :: 0 <= k < |AllWinners(ys)| ==> OfTypes(byId, AllWinners(ys)[k], |ys|)
  {
    if ys != [] {
      var n := |ys| - 1;
      var init, last := ys[..n], ys[n];
      AllWinnersDistinct(byId, window, setup, init);
      WinnersDistinct(byId, window, setup, TYPES[n], last);
      JoinWinners(byId, window, AllWinners(init), last.winners, n);
    }
  }

  lemma {:induction false} AllWinnersAre(ys: seq<Yield>, x: int)
    ensures x in AllWinners(ys) <==> exists t :: 0 <= t < |ys| && x in ys[t].winners
  {
    if ys != [] {
      var init := ys[..|ys| - 1];
      AllWinnersAre(init, x);
      assert forall t :: 0 <= t < |init| ==> init[t] == ys[t];
    }
  }

  lemma JoinWinners(byId: Facts, window: seq<int>, a: seq<int>, b: seq<int>, n: nat)
    requires n < |TYPES| && Distinct(a) && Distinct(b) && Elements(a) <= Elements(window)
    requires forall k :: 0 <= k < |a| ==> OfTypes(byId, a[k], n)
    requires forall k :: 0 <= k < |b| ==> b[k] in window && b[k] in byId && byId[b[k]].factType == TYPES[n]
    ensures Distinct(a + b) && Elements(a + b) <= Elements(window)
    ensures forall k :: 0 <= k < |a + b| ==> OfTypes(byId, (a + b)[k], n + 1)
  {
    forall i, j | 0 <= i < |a| && 0 <= j < |b| ensures a[i] != b[j] {
      assert OfTypes(byId, a[i], n);
    }
    assert Elements(a + b) == Elements(a) + Elements(b);
  }

  // ---------- who is clustered ----------

  /** The facts of the window that have `x`'s type. */
  ghost function Kind(byId: Facts, window: seq<int>, t: FactType): set<int> {
    set id | id in window && id in byId && byId[id].factType == t
  }

  /** The other facts of its type that `x` is at least 0.85 similar to. */
  ghost function Kin(byId: Facts, window: seq<int>, setup: Setup, x: int): set<int>
    requires x in byId
  {
    set y | y in Kind(byId, window, byId[x].factType) && y != x
      && setup.sim(byId[x].embedding, byId[y].embedding) >= 0.85
  }

  /** The fact and its kin number three or more. */
  ghost predicate Dense(byId: Facts, window: seq<int>, setup: Setup, x: int) {
    x in window && x in byId && |Kin(byId, window, setup, x)| >= 2
  }

  ghost predicate InOne(clusters: seq<seq<int>>, x: int) { exists l :: 0 <= l < |clusters| && x in clusters[l] }

  ghost predicate Clustered(ys: seq<Yield>, x: int) { exists t :: 0 <= t < |ys| && InOne(ys[t].clusters, x) }

  /** Dense, or kin to a dense fact, and of a type with no more facts than are clustered at all. */
  ghost predicate Clusterable(byId: Facts, window: seq<int>, setup: Setup, x: int)
    requires x in byId
  {
    && |Kind(byId, window, byId[x].factType)| <= 10000
    && (Dense(byId, window, setup, x)
        || exists p :: p in Kin(byId, window, setup, x) && Dense(byId, window, setup, p))
  }

  /** A fact is in a cluster exactly when it is dense or kin to a dense one, and its type has not too many facts. */
  lemma {:induction false} ClusteredIff(byId: Facts, window: seq<int>, setup: Setup, ys: seq<Yield>, x: int)
    requires Members(byId, window) && Distinct(window) && Dbscan.SymmetricSim(setup.sim)
    requires |ys| == |TYPES| && AreYields(byId, window, setup, ys) && x in window && x in byId
    ensures Clustered(ys, x) <==> Clusterable(byId, window, setup, x)
  {
    var t := TypeIndex(byId[x].factType);
    forall u | 0 <= u < |ys| && InOne(ys[u].clusters, x) ensures u == t {
      assert IsYield(byId, window, setup, TYPES[u], ys[u]);
      OwnType(byId, window, setup, TYPES[u], ys[u].clusters, x);
    }
    assert IsYield(byId, window, setup, TYPES[t], ys[t]);
    InClusterIff(byId, window, setup, ys[t].clusters, x);
  }

  lemma {:induction false} OwnType(byId: Facts, window: seq<int>, setup: Setup, f: FactType, clusters: seq<seq<int>>,
                                   x: int)
    requires Members(byId, window) && Distinct(window) && Dbscan.SymmetricSim(setup.sim)
    requires AreClusters(byId, Bucket(byId, window, f), setup, clusters) && InOne(clusters, x)
    ensures x in byId && byId[x].factType == f
  {
    BucketIs(byId, window, f);
    ClustersClean(byId, Bucket(byId, window, f), setup, clusters);
  }

  lemma TypeIndex(f: FactType) returns (t: nat)
    ensures t < |TYPES| && TYPES[t] == f && forall u :: 0 <= u < |TYPES| && TYPES[u] == f ==> u == t
  {
    t := if f == Episodic then 0 else if f == Semantic then 1 else 2;
  }

  lemma {:induction false} InClusterIff(byId: Facts, window: seq<int>, setup: Setup, clusters: seq<seq<int>>, x: int)
    requires Members(byId, window) && Distinct(window) && Dbscan.SymmetricSim(setup.sim) && x in window && x in byId
    requires AreClusters(byId, Bucket(byId, window, byId[x].factType), setup, clusters)
    ensures InOne(clusters, x) <==> Clusterable(byId, window, setup, x)
  {
    var bucket := Bucket(byId, window, byId[x].factType);
    KindSize(byId, window, byId[x].factType, bucket);
    assert x in Elements(bucket);
    var i :| 0 <= i < |bucket| && bucket[i] == x;
    var c := CloudOf(byId, bucket, setup.sim);
    if |bucket| < MIN_PTS {
      FewKin(byId, window, setup, x);
    } else {
      Dbscan.ClustersCover(c, clusters);
      assert c.points[i].id == x;
      forall p | 0 <= p < |bucket| ensures p in c.Shape().core <==> Dense(byId, window, setup, bucket[p]) {
        CoreIff(byId, window, setup, bucket, p);
      }
      AdjacentIff(byId, window, setup, bucket, i);
    }
  }

  /** Fewer than three facts of a type: none of them is dense. */
  lemma {:induction false} FewKin(byId: Facts, window: seq<int>, setup: Setup, x: int)
    requires x in window && x in byId && |Kind(byId, window, byId[x].factType)| < 3
    ensures !Dense(byId, window, setup, x)
    ensures forall p :: p in Kin(byId, window, setup, x) ==> !Dense(byId, window, setup, p)
  {
    var kind := Kind(byId, window, byId[x].factType);
    forall p | p in kind ensures !Dense(byId, window, setup, p) {
      SubsetSize(Kin(byId, window, setup, p) + {p}, kind);
    }
  }

  /** A core point of the cloud is a dense fact. */
  lemma {:induction false} CoreIff(byId: Facts, window: seq<int>, setup: Setup, bucket: seq<int>, i: nat)
    requires i < |bucket| && bucket[i] in byId && Members(byId, bucket) && Distinct(bucket)
    requires Elements(bucket) == Kind(byId, window, byId[bucket[i]].factType)
    ensures i in CloudOf(byId, bucket, setup.sim).Shape().core <==> Dense(byId, window, setup, bucket[i])
  {
    var c, x := CloudOf(byId, bucket, setup.sim), bucket[i];
    var at := j => if 0 <= j < |bucket| then bucket[j] else x;
    assert x in Elements(bucket);
    KinAt(byId, window, setup, bucket, i);
    forall y | y in Kin(byId, window, setup, x) ensures exists j :: j in c.Around(i) && at(j) == y {
      assert y in Elements(bucket);
      var j :| 0 <= j < |bucket| && bucket[j] == y;
      assert j in c.Around(i) && at(j) == y;
    }
    SameSize(Kin(byId, window, setup, x), c.Around(i), at);
  }

  lemma {:induction false} KinAt(byId: Facts, window: seq<int>, setup: Setup, bucket: seq<int>, i: nat)
    requires i < |bucket| && bucket[i] in byId && Members(byId, bucket) && Distinct(bucket)
    requires Elements(bucket) == Kind(byId, window, byId[bucket[i]].factType)
    ensures forall j :: 0 <= j < |bucket| ==>
      (CloudOf(byId, bucket, setup.sim).Near(i, j) <==> bucket[j] in Kin(byId, window, setup, bucket[i]))
  {
    forall j | 0 <= j < |bucket|
      ensures CloudOf(byId, bucket, setup.sim).Near(i, j) <==> bucket[j] in Kin(byId, window, setup, bucket[i])
    {
      var y := bucket[j];
      assert y in bucket && y in Elements(bucket);
    }
  }

  lemma {:induction false} AdjacentIff(byId: Facts, window: seq<int>, setup: Setup, bucket: seq<int>, i: nat)
    requires i < |bucket| && bucket[i] in byId && Members(byId, bucket) && Distinct(bucket)
    requires Elements(bucket) == Kind(byId, window, byId[bucket[i]].factType) && Dbscan.SymmetricSim(setup.sim)
    requires var g := CloudOf(byId, bucket, setup.sim).Shape();
      forall p :: 0 <= p < |bucket| ==> (p in g.core <==> Dense(byId, window, setup, bucket[p]))
    ensures var g := CloudOf(byId, bucket, setup.sim).Shape();
      (exists p :: p in g.core && g.Adj(p, i))
      <==> exists y :: y in Kin(byId, window, setup, bucket[i]) && Dense(byId, window, setup, y)
  {
    var c := CloudOf(byId, bucket, setup.sim);
    var g := c.Shape();
    KinAt(byId, window, setup, bucket, i);
    if p :| p in g.core && g.Adj(p, i) {
      assert c.Near(p, i) && c.Near(i, p);
      assert bucket[p] in Kin(byId, window, setup, bucket[i]);
    }
    if y :| y in Kin(byId, window, setup, bucket[i]) && Dense(byId, window, setup, y) {
      assert y in Elements(bucket);
      var p :| 0 <= p < |bucket| && bucket[p] == y;
      assert c.Near(i, p) && c.Near(p, i);
      assert g.Adj(p, i);
    }
  }

  lemma {:induction false} KindSize(byId: Facts, window: seq<int>, t: FactType, bucket: seq<int>)
    requires Members(byId, window) && Distinct(window) && bucket == Bucket(byId, window, t)
    ensures Elements(bucket) == Kind(byId, window, t) && |Kind(byId, window, t)| == |bucket| && Distinct(bucket)
  {
    BucketIs(byId, window, t);
    DistinctSize(bucket);
  }

  // ---------- who is promoted ----------

  ghost function Lower(byId: Facts, ids: set<int>, v: real): set<int> {
    set id | id in ids && id in byId && byId[id].base < v
  }

  ghost function NoHigher(byId: Facts, ids: set<int>, v: real): set<int> {
    set id | id in ids && id in byId && byId[id].base <= v
  }

  /** The bar of a type: the base of one of its facts in the window, with at most `k` facts lower and more than
      `k` no higher, for the `k` nearest to the percentile. */
  ghost predicate IsBar(byId: Facts, window: seq<int>, percentile: real, f: FactType, bar: real) {
    var kind := Kind(byId, window, f);
    && (exists id :: id in kind && byId[id].base == bar)
    && exists k: nat :: RankFits(byId, kind, percentile, bar, k)
  }

  ghost predicate RankFits(byId: Facts, kind: set<int>, percentile: real, bar: real, k: nat) {
    kind != {} && IsNearest(percentile, |kind|, k) && |Lower(byId, kind, bar)| <= k < |NoHigher(byId, kind, bar)|
  }

  lemma BarUnique(byId: Facts, window: seq<int>, percentile: real, f: FactType, v: real, w: real)
    requires IsBar(byId, window, percentile, f, v) && IsBar(byId, window, percentile, f, w)
    ensures v == w
  {
    var kind := Kind(byId, window, f);
    var k :| RankFits(byId, kind, percentile, v, k);
    var m :| RankFits(byId, kind, percentile, w, m);
    RankIsNearest(percentile, |kind|, k);
    RankIsNearest(percentile, |kind|, m);
    if v < w {
      SubsetSize(NoHigher(byId, kind, v), Lower(byId, kind, w));
    } else if w < v {
      SubsetSize(NoHigher(byId, kind, w), Lower(byId, kind, v));
    }
  }

  ghost function Fitting(byId: Facts, ids: seq<int>, p: real -> bool): set<int> {
    set id | id in ids && id in byId && p(byId[id].base)
  }

  /** Counting bases is counting facts. */
  lemma {:induction false} BasesCount(byId: Facts, ids: seq<int>, p: real -> bool)
    requires Members(byId, ids) && Distinct(ids)
    ensures Count(multiset(Bases(byId, ids)), p) == |Fitting(byId, ids, p)|
  {
    if ids == [] {
      assert Fitting(byId, ids, p) == {};
    } else {
      var init, last := ids[..|ids| - 1], ids[|ids| - 1];
      assert ids == init + [last] && last !in init;
      BasesCount(byId, init, p);
      assert Bases(byId, ids) == Bases(byId, init) + [byId[last].base];
      CountLast(Bases(byId, init), byId[last].base, p);
      FittingLast(byId, init, last, p);
    }
  }

  lemma {:induction false} CountLast(s: seq<real>, v: real, p: real -> bool)
    ensures Count(multiset(s + [v]), p) == Count(multiset(s), p) + if p(v) then 1 else 0
  {
    CountTake(multiset(s + [v]), p, v);
    assert multiset(s + [v]) - multiset{v} == multiset(s);
  }

  lemma FittingLast(byId: Facts, init: seq<int>, last: int, p: real -> bool)
    requires last in byId && last !in init
    ensures |Fitting(byId, init + [last], p)| == |Fitting(byId, init, p)| + if p(byId[last].base) then 1 else 0
  {
    var fits := Fitting(byId, init, p);
    assert Fitting(byId, init + [last], p) == if p(byId[last].base) then fits + {last} else fits;
  }

  lemma {:induction false} BarIs(byId: Facts, window: seq<int>, setup: Setup, f: FactType)
    requires Members(byId, window) && Distinct(window) && Kind(byId, window, f) != {}
    ensures IsBar(byId, window, setup.percentile, f, Bar(byId, Bucket(byId, window, f), setup))
  {
    var bucket, kind := Bucket(byId, window, f), Kind(byId, window, f);
    KindSize(byId, window, f, bucket);
    var k, bases := Rank(setup.percentile, |kind|), Bases(byId, bucket);
    var bar := Percentile(bases, setup.percentile);
    RankIsNearest(setup.percentile, |kind|, k);
    PercentileIs(bases, setup.percentile, k);
    BasesCount(byId, bucket, Less(bar));
    BasesCount(byId, bucket, AtMost(bar));
    assert Lower(byId, kind, bar) == Fitting(byId, bucket, Less(bar));
    assert NoHigher(byId, kind, bar) == Fitting(byId, bucket, AtMost(bar));
    assert RankFits(byId, kind, setup.percentile, bar, k);
    BaseOfSome(byId, bucket, bar);
  }

  lemma BaseOfSome(byId: Facts, ids: seq<int>, v: real)
    requires Members(byId, ids) && v in multiset(Bases(byId, ids))
    ensures exists id :: id in Elements(ids) && id in byId && byId[id].base == v
  {
    assert v in Bases(byId, ids);
    var k :| 0 <= k < |ids| && Bases(byId, ids)[k] == v;
    var id := ids[k];
    assert id in Elements(ids) && byId[id].base == v;
  }

  /** In its cluster `x` has the highest base, the smallest id among those that share it, and it reaches the
      bar of its type. */
  ghost predicate Leads(byId: Facts, window: seq<int>, percentile: real, cluster: seq<int>, x: int) {
    && x in cluster && x in byId
    && (forall y :: y in cluster && y in byId ==>
          byId[y].base < byId[x].base || (byId[y].base == byId[x].base && x <= y))
    && exists bar :: IsBar(byId, window, percentile, byId[x].factType, bar) && byId[x].base >= bar
  }

  ghost predicate LeadsSome(byId: Facts, window: seq<int>, percentile: real, ys: seq<Yield>, x: int) {
    exists t, l :: 0 <= t < |ys| && 0 <= l < |ys[t].clusters| && Leads(byId, window, percentile, ys[t].clusters[l], x)
  }

  /** Who is promoted: exactly the facts that lead a cluster of their type. */
  lemma {:induction false} PromotedIff(byId: Facts, window: seq<int>, setup: Setup, ys: seq<Yield>, deltas: seq<Delta>,
                                       x: int)
    requires Members(byId, window) && Distinct(window) && Dbscan.SymmetricSim(setup.sim)
    requires |ys| == |TYPES| && AreYields(byId, window, setup, ys)
    requires deltas == Promotions(AllWinners(ys)) + RescoreLog(window, Elements(AllWinners(ys)), setup.counts)
    ensures Delta.Promote(x) in deltas <==> LeadsSome(byId, window, setup.percentile, ys, x)
  {
    PromotionsHave(window, AllWinners(ys), setup.counts, x);
    AllWinnersAre(ys, x);
    forall t | 0 <= t < |ys|
      ensures x in ys[t].winners
        <==> exists l :: 0 <= l < |ys[t].clusters| && Leads(byId, window, setup.percentile, ys[t].clusters[l], x)
    {
      assert IsYield(byId, window, setup, TYPES[t], ys[t]);
      TypePromotes(byId, window, setup, TYPES[t], ys[t], x);
    }
  }

  lemma {:induction false} TypePromotes(byId: Facts, window: seq<int>, setup: Setup, f: FactType, y: Yield, x: int)
    requires Members(byId, window) && Distinct(window) && Dbscan.SymmetricSim(setup.sim)
    requires IsYield(byId, window, setup, f, y)
    ensures x in y.winners
      <==> exists l :: 0 <= l < |y.clusters| && Leads(byId, window, setup.percentile, y.clusters[l], x)
  {
    var bucket := Bucket(byId, window, f);
    var bar := Bar(byId, bucket, setup);
    WinnersAre(byId, y.clusters, bar, y.winners, y.from);
    BucketIs(byId, window, f);
    ClustersClean(byId, bucket, setup, y.clusters);
    forall l | 0 <= l < |y.clusters|
      ensures Wins(byId, y.clusters[l], bar, x) <==> Leads(byId, window, setup.percentile, y.clusters[l], x)
    {
      WinsIsLeads(byId, window, setup, f, y.clusters[l], bar, x);
    }
  }

  lemma {:induction false} WinsIsLeads(byId: Facts, window: seq<int>, setup: Setup, f: FactType, cluster: seq<int>,
                                       bar: real, x: int)
    requires Members(byId, window) && Distinct(window) && Members(byId, cluster)
    requires forall y :: y in cluster ==> y in Bucket(byId, window, f)
    requires bar == Bar(byId, Bucket(byId, window, f), setup)
    ensures Wins(byId, cluster, bar, x) <==> Leads(byId, window, setup.percentile, cluster, x)
  {
    BestIs(byId, cluster, x);
    if x in cluster {
      BucketIs(byId, window, f);
      assert x in Kind(byId, window, f);
      BarIs(byId, window, setup, f);
      OneBar(byId, window, setup.percentile, f, bar, byId[x].base);
    }
  }

  lemma BestIs(byId: Facts, cluster: seq<int>, x: int)
    requires Members(byId, cluster)
    ensures IsBest(byId, cluster, x) <==>
      && x in cluster && x in byId
      && forall y :: y in cluster && y in byId ==>
           byId[y].base < byId[x].base || (byId[y].base == byId[x].base && x <= y)
  {
    forall y | y in cluster ensures exists k :: 0 <= k < |cluster| && cluster[k] == y {}
    forall k | 0 <= k < |cluster| ensures cluster[k] in cluster {
      BestAt(cluster, k);
    }
  }

  lemma OneBar(byId: Facts, window: seq<int>, percentile: real, f: FactType, bar: real, base: real)
    requires IsBar(byId, window, percentile, f, bar)
    ensures base >= bar <==> exists v :: IsBar(byId, window, percentile, f, v) && base >= v
  {
    if v :| IsBar(byId, window, percentile, f, v) && base >= v {
      BarUnique(byId, window, percentile, f, v, bar);
    }
  }

  lemma {:induction false} PromotionsHave(window: seq<int>, winners: seq<int>, counts: int -> Counts, x: int)
    ensures Delta.Promote(x) in Promotions(winners) + RescoreLog(window, Elements(winners), counts) <==> x in winners
  {
    NoPromotions(window, Elements(winners), counts, x);
    if x in winners {
      var k :| 0 <= k < |winners| && winners[k] == x;
      assert Promotions(winners)[k] == Delta.Promote(x);
    }
  }

  lemma {:induction false} NoPromotions(window: seq<int>, promoted: set<int>, counts: int -> Counts, x: int)
    ensures Delta.Promote(x) !in RescoreLog(window, promoted, counts)
  {
    if window != [] {
      NoPromotions(window[..|window| - 1], promoted, counts, x);
    }
  }

  /** Each fact is named at most once, and only facts of the window are. */
  lemma {:induction false} ReportNamesOnce(byId: Facts, window: seq<int>, setup: Setup, ys: seq<Yield>,
                                           deltas: seq<Delta>)
    requires Members(byId, window) && Distinct(window) && Dbscan.SymmetricSim(setup.sim)
    requires |ys| == |TYPES| && AreYields(byId, window, setup, ys)
    requires deltas == Promotions(AllWinners(ys)) + RescoreLog(window, Elements(AllWinners(ys)), setup.counts)
    ensures NamesOnce(deltas, Elements(window))
  {
    var winners := AllWinners(ys);
    AllWinnersDistinct(byId, window, setup, ys);
    RescoreNames(window, Elements(winners), setup.counts);
    forall k | 0 <= k < |winners| ensures Subject(Promotions(winners)[k]) in Elements(winners) {
      var x := winners[k];
      assert x in winners;
    }
    NamesJoin(Promotions(winners), RescoreLog(window, Elements(winners), setup.counts), Elements(winners),
              Elements(window) - Elements(winners));
    assert Elements(winners) + (Elements(window) - Elements(winners)) == Elements(window);
  }

  /** On an active window the report is always accepted. */
  lemma ReportApplies(db: Db, lim: Limits, window: seq<int>, r: Report)
    requires ActiveWindow(db, window) && r.processed == window && NamesOnce(r.deltas, Elements(window))
    ensures ValidateReport(db, lim, r).None?
  {
    AcceptsIff(db, lim, r);
    forall i | 0 <= i < |r.deltas|
      ensures WellShaped(db, lim, r.deltas[i]) && Needs(r.deltas[i]) == {Subject(r.deltas[i])}
    {
      assert Plain(r.deltas[i]);
    }
    forall i, j, id | 0 <= i < j < |r.deltas| && id in Expires(r.deltas[i]) ensures id !in Needs(r.deltas[j]) {
      assert id == Subject(r.deltas[i]);
    }
  }
}
