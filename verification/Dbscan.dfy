/** Density clustering of a cycle window (crates/me-cognitive/src/dbscan.rs).

    The algorithm is the source's worklist over three mutable vectors. Its specification
    says nothing of worklists: two core points share a label exactly when a chain of core
    points links them, a border point takes the smallest label next to it, and clusters are
    numbered by their smallest core index. `LabellingUnique` shows that this leaves exactly
    one labelling, and `OrderIndependent` that the partition survives any reordering.
  */
module Dbscan {
  import opened Collections

  const UNVISITED := -2
  const NOISE := -1
  const MAX_DBSCAN_POINTS := 10_000

  type Embedding = seq<real>

  datatype Point = Point(id: int, embedding: Embedding)

  /** The input of one call; `threshold` is the code's `1.0 - eps`. */
  datatype Cloud = Cloud(points: seq<Point>, sim: (Embedding, Embedding) -> real, threshold: real, minPts: nat)
  {
    predicate Near(i: int, j: int)
      requires 0 <= i < |points| && 0 <= j < |points|
    {
      i != j && sim(points[i].embedding, points[j].embedding) >= threshold
    }

    ghost function Around(i: int): set<int>
      requires 0 <= i < |points|
    {
      set j | 0 <= j < |points| && Near(i, j)
    }

    /** The neighbour graph and its core points: at least `minPts` around, itself included. */
    ghost function Shape(): Net {
      Net(|points|,
          set i | 0 <= i < |points| && |Around(i)| + 1 >= minPts,
          set i, j | 0 <= i < |points| && 0 <= j < |points| && Near(i, j) :: (i, j))
    }
  }

  // ---------- similarity ----------

  function Dot(a: Embedding, b: Embedding, n: nat): real
    requires n <= |a| && n <= |b|
  {
    if n == 0 then 0.0 else Dot(a, b, n - 1) + a[n - 1] * b[n - 1]
  }

  function Shorter(a: Embedding, b: Embedding): nat {
    if |a| <= |b| then |a| else |b|
  }

  /** Cosine similarity over the common prefix; 0 when either magnitude is 0. */
  function Cosine(sqrt: real -> real, a: Embedding, b: Embedding): real {
    var n := Shorter(a, b);
    var denom := sqrt(Dot(a, a, n)) * sqrt(Dot(b, b, n));
    if denom == 0.0 then 0.0 else Dot(a, b, n) / denom
  }

  method CosineSimilarity(sqrt: real -> real, a: Embedding, b: Embedding) returns (r: real)
    ensures r == Cosine(sqrt, a, b)
  {
    var dot, normA, normB := 0.0, 0.0, 0.0;
    for k := 0 to Shorter(a, b)
      invariant dot == Dot(a, b, k) && normA == Dot(a, a, k) && normB == Dot(b, b, k)
    {
      dot, normA, normB := a[k] * b[k] + dot, a[k] * a[k] + normA, b[k] * b[k] + normB;
    }
    var denom := sqrt(normA) * sqrt(normB);
    r := if denom == 0.0 then 0.0 else dot / denom;
  }

  lemma {:induction false} DotSymmetric(a: Embedding, b: Embedding, n: nat)
    requires n <= |a| && n <= |b|
    ensures Dot(a, b, n) == Dot(b, a, n)
  {
    if n > 0 {
      DotSymmetric(a, b, n - 1);
    }
  }

  ghost predicate SymmetricSim(sim: (Embedding, Embedding) -> real) {
    forall a, b :: sim(a, b) == sim(b, a)
  }

  /** The similarity the clustering runs on is symmetric, as the partition proof needs. */
  lemma CosineSymmetric(sqrt: real -> real)
    ensures SymmetricSim((a, b) => Cosine(sqrt, a, b))
  {
    forall a, b ensures Cosine(sqrt, a, b) == Cosine(sqrt, b, a) {
      DotSymmetric(a, b, Shorter(a, b));
    }
  }

  // ---------- a cosine ----------

  ghost predicate IsRoot(sqrt: real -> real) {
    forall x :: x >= 0.0 ==> sqrt(x) >= 0.0 && sqrt(x) * sqrt(x) == x
  }

  lemma {:induction false} DotSquares(a: Embedding, n: nat)
    requires n <= |a|
    ensures Dot(a, a, n) >= 0.0
  {
    if n > 0 {
      DotSquares(a, n - 1);
      SquarePositive(a[n - 1]);
    }
  }

  lemma SquarePositive(x: real)
    ensures x * x >= 0.0
  {}

  /** The square of the dot product is at most the product of the squared magnitudes. */
  lemma {:induction false} CauchySchwarz(a: Embedding, b: Embedding, n: nat)
    requires n <= |a| && n <= |b|
    ensures Squared(Dot(a, b, n)) <= Times(Dot(a, a, n), Dot(b, b, n))
  {
    if n > 0 {
      CauchySchwarz(a, b, n - 1);
      DotSquares(a, n - 1);
      DotSquares(b, n - 1);
      CauchyStep(Dot(a, b, n - 1), Dot(a, a, n - 1), Dot(b, b, n - 1), a[n - 1], b[n - 1]);
    }
  }

  function Times(x: real, y: real): real { x * y }

  function Squared(x: real): real { Times(x, x) }

  lemma CauchyStep(d: real, a: real, b: real, x: real, y: real)
    requires a >= 0.0 && b >= 0.0 && Squared(d) <= Times(a, b)
    ensures Squared(d + x * y) <= Times(a + x * x, b + y * y)
  {
    var p, q, r := a * (y * y), b * (x * x), d * (x * y);
    CrossTerms(d, a, b, x, y, p, q, r);
    MeansBound(p, q, r);
    calc {
      (d + x * y) * (d + x * y);
      d * d + 2.0 * r + (x * y) * (x * y);
    }
    calc {
      (a + x * x) * (b + y * y);
      a * b + p + q + (x * x) * (y * y);
    }
    FourFactors(x, y);
  }

  lemma FourFactors(x: real, y: real)
    ensures (x * y) * (x * y) == (x * x) * (y * y)
  {}

  lemma CrossTerms(d: real, a: real, b: real, x: real, y: real, p: real, q: real, r: real)
    requires a >= 0.0 && b >= 0.0 && Squared(d) <= Times(a, b)
    requires p == a * (y * y) && q == b * (x * x) && r == d * (x * y)
    ensures p >= 0.0 && q >= 0.0 && r * r <= p * q
  {
    var s := (x * y) * (x * y);
    FourFactors(x, y);
    assert s >= 0.0;
    calc {
      r * r;
      (d * d) * s;
    <= { ScaleUp(s, d * d, a * b); }
      (a * b) * s;
      (a * b) * ((x * x) * (y * y));
      p * q;
    }
  }

  lemma ScaleUp(s: real, x: real, y: real)
    requires s >= 0.0 && x <= y
    ensures x * s <= y * s
  {}

  /** A geometric mean is at most the arithmetic one. */
  lemma MeansBound(p: real, q: real, r: real)
    requires p >= 0.0 && q >= 0.0 && r * r <= p * q
    ensures 2.0 * r <= p + q
  {
    var mean, twice := p + q, 2.0 * r;
    assert mean * mean == 4.0 * (p * q) + (p - q) * (p - q);
    SquarePositive(p - q);
    if mean < twice {
      SquaresGrow(mean, twice);
    }
  }

  lemma SquaresGrow(x: real, y: real)
    requires 0.0 <= x < y
    ensures x * x < y * y
  {
    PositiveProduct(y - x, y + x);
    Difference(x, y);
  }

  lemma PositiveProduct(x: real, y: real)
    requires x > 0.0 && y > 0.0
    ensures x * y > 0.0
  {}

  lemma Difference(x: real, y: real)
    ensures y * y - x * x == (y - x) * (y + x)
  {}

  function Ratio(d: real, m: real): real { if m == 0.0 then 0.0 else d / m }

  /** The similarity lies between -1 and 1, and that of a vector with itself is 1 unless its magnitude is 0. */
  lemma {:induction false} CosineBounds(sqrt: real -> real, a: Embedding, b: Embedding)
    requires IsRoot(sqrt)
    ensures -1.0 <= Cosine(sqrt, a, b) <= 1.0
    ensures Cosine(sqrt, a, a) == if Dot(a, a, |a|) == 0.0 then 0.0 else 1.0
  {
    var n := Shorter(a, b);
    DotSquares(a, n);
    DotSquares(b, n);
    DotSquares(a, |a|);
    CauchySchwarz(a, b, n);
    RootsBound(Dot(a, b, n), Dot(a, a, n), Dot(b, b, n), sqrt(Dot(a, a, n)), sqrt(Dot(b, b, n)));
    RootsSelf(Dot(a, a, |a|), sqrt(Dot(a, a, |a|)));
    assert Cosine(sqrt, a, b) == Ratio(Dot(a, b, n), Times(sqrt(Dot(a, a, n)), sqrt(Dot(b, b, n))));
    assert Cosine(sqrt, a, a) == Ratio(Dot(a, a, |a|), Squared(sqrt(Dot(a, a, |a|))));
  }

  lemma RootsSelf(x: real, u: real)
    requires x >= 0.0 && u >= 0.0 && u * u == x
    ensures Ratio(x, Squared(u)) == if x == 0.0 then 0.0 else 1.0
  {
    if x != 0.0 {
      OverItself(x, Squared(u));
    }
  }

  lemma OverItself(x: real, y: real)
    requires x != 0.0 && x == y
    ensures x / y == 1.0
  {}

  lemma RootsBound(d: real, x: real, y: real, u: real, v: real)
    requires u >= 0.0 && v >= 0.0 && u * u == x && v * v == y && Squared(d) <= Times(x, y)
    ensures -1.0 <= Ratio(d, Times(u, v)) <= 1.0
  {
    var m := u * v;
    assert m * m == x * y && d * d <= m * m;
    if m != 0.0 {
      if m < d {
        SquaresGrow(m, d);
      } else if d < -m {
        SquaresGrow(m, -d);
      }
      assert -m <= d <= m;
      Quotients(d, m);
    }
  }

  lemma Quotients(d: real, m: real)
    requires m > 0.0 && -m <= d <= m
    ensures -1.0 <= d / m <= 1.0
  {}

  // ---------- the neighbour graph ----------

  datatype Net = Net(size: nat, core: set<int>, near: set<(int, int)>)
  {
    ghost predicate Adj(i: int, j: int) { (i, j) in near }

    ghost predicate WellFormed() {
      && (forall i :: i in core ==> 0 <= i < size)
      && (forall i, j :: Adj(i, j) ==> 0 <= i < size && 0 <= j < size && i != j && Adj(j, i))
    }

    /** A chain of core points, each a neighbour of the next. */
    ghost predicate Chain(path: seq<int>) {
      && |path| > 0
      && (forall k :: 0 <= k < |path| ==> path[k] in core)
      && (forall k :: 0 < k < |path| ==> Adj(path[k - 1], path[k]))
    }

    ghost predicate Joins(path: seq<int>, p: int, q: int) {
      Chain(path) && path[0] == p && path[|path| - 1] == q
    }

    ghost predicate Linked(p: int, q: int) {
      exists path :: Joins(path, p, q)
    }

    /** Some core point next to `i` carries label `l`. */
    ghost predicate Beside(labels: seq<int>, i: int, l: int) {
      exists p :: p in core && Adj(p, i) && 0 <= p < |labels| && labels[p] == l
    }
  }

  lemma ShapeWellFormed(c: Cloud)
    requires SymmetricSim(c.sim)
    ensures c.Shape().WellFormed()
  {}

  lemma LinkedSelf(g: Net, p: int)
    requires p in g.core
    ensures g.Linked(p, p)
  {
    assert g.Joins([p], p, p);
  }

  lemma LinkedStep(g: Net, p: int, q: int, r: int)
    requires g.Linked(p, q) && g.Adj(q, r) && r in g.core
    ensures g.Linked(p, r)
  {
    var path :| g.Joins(path, p, q);
    assert g.Joins(path + [r], p, r);
  }

  lemma {:induction false} ReverseChain(g: Net, path: seq<int>) returns (back: seq<int>)
    requires g.WellFormed() && g.Chain(path)
    ensures g.Joins(back, path[|path| - 1], path[0])
  {
    if |path| == 1 {
      back := path;
    } else {
      var rest := path[1..];
      forall k | 0 < k < |rest| ensures g.Adj(rest[k - 1], rest[k]) {
        assert g.Adj(path[k], path[k + 1]);
      }
      var tail := ReverseChain(g, rest);
      assert g.Adj(path[0], path[1]);
      back := tail + [path[0]];
    }
  }

  lemma LinkedSymmetric(g: Net, p: int, q: int)
    requires g.WellFormed() && g.Linked(p, q)
    ensures g.Linked(q, p)
  {
    var path :| g.Joins(path, p, q);
    var back := ReverseChain(g, path);
  }

  lemma LinkedTransitive(g: Net, p: int, q: int, r: int)
    requires g.Linked(p, q) && g.Linked(q, r)
    ensures g.Linked(p, r)
  {
    var a :| g.Joins(a, p, q);
    var b :| g.Joins(b, q, r);
    var joined := a + b[1..];
    forall k | 0 < k < |joined| ensures g.Adj(joined[k - 1], joined[k]) {
      if k >= |a| {
        assert g.Adj(b[k - |a|], b[k - |a| + 1]);
      }
    }
    assert g.Joins(joined, p, r);
  }

  // ---------- specification ----------

  ghost predicate CoresPartitioned(g: Net, labels: seq<int>) {
    forall p, q :: p in g.core && q in g.core && 0 <= p < |labels| && 0 <= q < |labels| ==>
      (labels[p] == labels[q] <==> g.Linked(p, q))
  }

  /** `leaders[l]` is the smallest core point of cluster `l`; leaders increase with `l`. */
  ghost predicate Numbered(g: Net, labels: seq<int>, leaders: seq<int>) {
    && (forall l :: 0 <= l < |leaders| ==>
          leaders[l] in g.core && 0 <= leaders[l] < |labels| && labels[leaders[l]] == l)
    && (forall l, m :: 0 <= l < m < |leaders| ==> leaders[l] < leaders[m])
    && (forall p :: p in g.core && 0 <= p < |labels| && 0 <= labels[p] < |leaders| ==> leaders[labels[p]] <= p)
  }

  /** Off-core points: noise without a core neighbour, else the smallest label beside them. */
  ghost predicate BordersJoinSmallest(g: Net, labels: seq<int>) {
    forall i :: 0 <= i < |labels| && i !in g.core ==>
      if labels[i] == NOISE then forall p :: p in g.core ==> !g.Adj(p, i)
      else
        && g.Beside(labels, i, labels[i])
        && forall p :: p in g.core && g.Adj(p, i) && 0 <= p < |labels| ==> labels[i] <= labels[p]
  }

  /** The whole labelling, stated without reference to how it is computed. */
  ghost predicate IsLabelling(g: Net, labels: seq<int>, leaders: seq<int>) {
    && |labels| == g.size
    && (forall p :: p in g.core && 0 <= p < |labels| ==> 0 <= labels[p] < |leaders|)
    && CoresPartitioned(g, labels)
    && Numbered(g, labels, leaders)
    && BordersJoinSmallest(g, labels)
  }

  // ---------- loop invariants ----------

  ghost predicate InRange(g: Net, labels: seq<int>, k: int, upTo: int) {
    && |labels| == g.size
    && (forall i :: 0 <= i < |labels| ==> UNVISITED <= labels[i] < k)
    && (forall i :: 0 <= i < upTo && i < |labels| ==> labels[i] != UNVISITED)
    && (forall i :: 0 <= i < |labels| && labels[i] == NOISE ==> i !in g.core)
  }

  /** A labelled core point has passed its label, or a smaller one, to everything around it. */
  ghost predicate Passed(g: Net, labels: seq<int>) {
    forall i, j :: i in g.core && g.Adj(i, j) && 0 <= i < |labels| && 0 <= j < |labels| && labels[i] >= 0 ==>
      0 <= labels[j] <= labels[i] && (j in g.core ==> labels[j] == labels[i])
  }

  ghost predicate Bordered(g: Net, labels: seq<int>) {
    forall i :: 0 <= i < |labels| && i !in g.core && labels[i] >= 0 ==> g.Beside(labels, i, labels[i])
  }

  ghost predicate Led(g: Net, labels: seq<int>, leaders: seq<int>) {
    forall i :: i in g.core && 0 <= i < |labels| && 0 <= labels[i] < |leaders| ==> g.Linked(leaders[labels[i]], i)
  }

  /** What the outer loop keeps. */
  ghost predicate Settled(g: Net, labels: seq<int>, leaders: seq<int>, upTo: int) {
    && InRange(g, labels, |leaders|, upTo)
    && Passed(g, labels)
    && Bordered(g, labels)
    && Numbered(g, labels, leaders)
    && Led(g, labels, leaders)
    && (forall l :: 0 <= l < |leaders| ==> leaders[l] < upTo)
  }

  ghost predicate SeedsOk(p: int, seeds: seq<int>, n: int) {
    && (forall k :: 0 <= k < |seeds| ==> 0 <= seeds[k] < n && seeds[k] != p)
    && Distinct(seeds)
  }

  /** Label `id` is new, and only the start point and popped seeds carry it. */
  ghost predicate Stamped(p: int, id: int, before: seq<int>, labels: seq<int>, popped: seq<int>) {
    && |labels| == |before|
    && (forall x :: 0 <= x < |labels| ==>
          if labels[x] == id then before[x] < 0 && (x == p || x in popped) else labels[x] == before[x])
    && (forall x :: x in popped && 0 <= x < |labels| ==> labels[x] >= 0)
  }

  ghost predicate Frontier(g: Net, p: int, id: int, labels: seq<int>, seeds: seq<int>) {
    && (forall x, j :: x in g.core && g.Adj(x, j) && 0 <= x < |labels| && labels[x] == id ==> j == p || j in seeds)
    && (forall k :: 0 <= k < |seeds| ==> g.Beside(labels, seeds[k], id))
  }

  /** What the expansion of cluster `id`, started at `p` over `before`, keeps. */
  ghost predicate Growing(g: Net, p: int, id: int, before: seq<int>, labels: seq<int>, seeds: seq<int>, done: int) {
    && |labels| == |before| == g.size && 0 <= p < g.size && 0 <= done <= |seeds|
    && p in g.core && labels[p] == id
    && SeedsOk(p, seeds, g.size)
    && Stamped(p, id, before, labels, seeds[..done])
    && Frontier(g, p, id, labels, seeds)
    && (forall x :: x in g.core && 0 <= x < |labels| && labels[x] == id ==> g.Linked(p, x))
  }

  lemma SeedsFit(seeds: seq<int>, p: int, n: nat)
    requires 0 <= p < n && SeedsOk(p, seeds, n)
    ensures |seeds| < n
  {
    DistinctFit(seeds + [p], n);
  }

  /** The worklist as it stands when the loop is entered. */
  lemma GrowthStarts(g: Net, p: int, leaders: seq<int>, before: seq<int>, seeds: seq<int>)
    requires g.WellFormed() && Settled(g, before, leaders, p) && 0 <= p < g.size && p in g.core
    requires before[p] == UNVISITED
    requires Distinct(seeds) && forall j :: j in seeds <==> g.Adj(p, j)
    ensures Growing(g, p, |leaders|, before, before[p := |leaders|], seeds, 0)
  {
    var labels := before[p := |leaders|];
    LinkedSelf(g, p);
    forall k | 0 <= k < |seeds|
      ensures 0 <= seeds[k] < g.size && seeds[k] != p && g.Beside(labels, seeds[k], |leaders|)
    {
      assert g.Adj(p, seeds[k]);
    }
  }

  /** Popping a seed that is already labelled leaves the labels alone. */
  lemma GrowthSkips(g: Net, p: int, id: int, before: seq<int>, labels: seq<int>, seeds: seq<int>, i: int)
    requires Growing(g, p, id, before, labels, seeds, i) && i < |seeds| && labels[seeds[i]] >= 0
    ensures Growing(g, p, id, before, labels, seeds, i + 1)
  {
    PopPrefix(seeds, seeds, i);
  }

  /** Popping a noise or unvisited seed labels it; a core point also brings its neighbours. */
  lemma GrowthVisits(g: Net, p: int, id: int, before: seq<int>, labels: seq<int>, seeds: seq<int>, i: int,
                     longer: seq<int>)
    requires g.WellFormed() && id >= 0
    requires Growing(g, p, id, before, labels, seeds, i) && i < |seeds| && labels[seeds[i]] < 0
    requires seeds <= longer && SeedsOk(p, longer, g.size)
    requires seeds[i] in g.core ==> forall j :: j in longer <==> j in seeds || (g.Adj(seeds[i], j) && j != p)
    requires seeds[i] !in g.core ==> longer == seeds
    ensures Growing(g, p, id, before, labels[seeds[i] := id], longer, i + 1)
  {
    var q := seeds[i];
    var now := labels[q := id];
    PopPrefix(seeds, longer, i);
    assert q in g.core ==> g.Linked(p, q) by {
      assert g.Beside(labels, q, id);
      var w :| w in g.core && g.Adj(w, q) && 0 <= w < |labels| && labels[w] == id;
      if q in g.core {
        LinkedStep(g, p, w, q);
      }
    }
    VisitFrontier(g, p, id, labels, seeds, q, longer);
    VisitStamped(p, id, before, labels, seeds[..i], q);
  }

  lemma PopPrefix(seeds: seq<int>, longer: seq<int>, i: nat)
    requires i < |seeds| && seeds <= longer
    ensures longer[..i + 1] == seeds[..i] + [seeds[i]]
  {
    assert longer[..|seeds|] == seeds;
  }

  lemma VisitStamped(p: int, id: int, before: seq<int>, labels: seq<int>, popped: seq<int>, q: int)
    requires 0 <= q < |labels| && labels[q] < 0 <= id && Stamped(p, id, before, labels, popped)
    ensures Stamped(p, id, before, labels[q := id], popped + [q])
  {}

  lemma VisitFrontier(g: Net, p: int, id: int, labels: seq<int>, seeds: seq<int>, q: int, longer: seq<int>)
    requires g.WellFormed() && |labels| == g.size && 0 <= q < g.size && labels[q] != id
    requires Frontier(g, p, id, labels, seeds) && seeds <= longer
    requires q in g.core ==> forall j :: j in longer <==> j in seeds || (g.Adj(q, j) && j != p)
    requires q !in g.core ==> longer == seeds
    ensures Frontier(g, p, id, labels[q := id], longer)
  {
    var now := labels[q := id];
    forall k | 0 <= k < |longer| ensures g.Beside(now, longer[k], id) {
      if k < |seeds| {
        assert g.Beside(labels, seeds[k], id);
        var x :| x in g.core && g.Adj(x, longer[k]) && 0 <= x < |labels| && labels[x] == id;
        assert now[x] == id;
      } else if longer[k] in seeds {
        var m :| 0 <= m < |seeds| && seeds[m] == longer[k];
        assert g.Beside(labels, seeds[m], id);
        var x :| x in g.core && g.Adj(x, longer[k]) && 0 <= x < |labels| && labels[x] == id;
        assert now[x] == id;
      } else {
        assert longer[k] in longer;
        assert g.Adj(q, longer[k]) && now[q] == id;
      }
    }
    forall x, j | x in g.core && g.Adj(x, j) && 0 <= x < |now| && now[x] == id
      ensures j == p || j in longer
    {
      if x != q && j != p {
        var m :| 0 <= m < |seeds| && seeds[m] == j;
        assert longer[m] == j;
      }
    }
  }

  /** Draining the worklist settles the new cluster. */
  lemma GrownIsPassed(g: Net, p: int, before: seq<int>, labels: seq<int>, seeds: seq<int>, leaders: seq<int>)
    requires g.WellFormed() && 0 <= p < |before| && Settled(g, before, leaders, p)
    requires Growing(g, p, |leaders|, before, labels, seeds, |seeds|)
    ensures Passed(g, labels)
  {
    var id := |leaders|;
    forall i, j | i in g.core && g.Adj(i, j) && 0 <= i < |labels| && 0 <= j < |labels| && labels[i] >= 0
      ensures 0 <= labels[j] <= labels[i] && (j in g.core ==> labels[j] == labels[i])
    {
      assert g.Adj(j, i);
      if labels[i] == id {
        assert before[i] < 0;
        if j != p {
          var k :| 0 <= k < |seeds| && seeds[k] == j;
        }
      } else {
        assert labels[i] == before[i] && 0 <= before[j] <= before[i];
      }
    }
  }

  lemma GrownIsBordered(g: Net, p: int, before: seq<int>, labels: seq<int>, seeds: seq<int>, id: int)
    requires |before| == g.size && Bordered(g, before)
    requires Growing(g, p, id, before, labels, seeds, |seeds|)
    ensures Bordered(g, labels)
  {
    forall i | 0 <= i < |labels| && i !in g.core && labels[i] >= 0
      ensures g.Beside(labels, i, labels[i])
    {
      if labels[i] == id {
        var k :| 0 <= k < |seeds| && seeds[k] == i;
      } else {
        assert g.Beside(before, i, before[i]);
        var q :| q in g.core && g.Adj(q, i) && 0 <= q < |before| && before[q] == before[i];
        assert labels[q] == labels[i];
      }
    }
  }

  lemma GrownIsNumbered(g: Net, p: int, before: seq<int>, labels: seq<int>, seeds: seq<int>, leaders: seq<int>)
    requires 0 <= p < |before| && Settled(g, before, leaders, p) && before[p] == UNVISITED
    requires Growing(g, p, |leaders|, before, labels, seeds, |seeds|)
    ensures Numbered(g, labels, leaders + [p]) && Led(g, labels, leaders + [p])
  {
    var led := leaders + [p];
    forall l | 0 <= l < |led| ensures led[l] in g.core && 0 <= led[l] < |labels| && labels[led[l]] == l {
      if l < |leaders| {
        assert before[leaders[l]] == l;
      }
    }
  }

  lemma GrownIsSettled(g: Net, p: int, before: seq<int>, labels: seq<int>, seeds: seq<int>, leaders: seq<int>)
    requires g.WellFormed() && 0 <= p < |before| && Settled(g, before, leaders, p) && before[p] == UNVISITED
    requires Growing(g, p, |leaders|, before, labels, seeds, |seeds|)
    ensures Settled(g, labels, leaders + [p], p + 1)
  {
    GrownIsPassed(g, p, before, labels, seeds, leaders);
    GrownIsBordered(g, p, before, labels, seeds, |leaders|);
    GrownIsNumbered(g, p, before, labels, seeds, leaders);
  }

  // ---------- the algorithm ----------

  /** Indices of the neighbours of `i`, ascending. */
  method Neighbours(c: Cloud, i: int) returns (out: seq<int>)
    requires 0 <= i < |c.points|
    ensures forall a, b :: 0 <= a < b < |out| ==> out[a] < out[b]
    ensures Distinct(out) && forall j :: j in out <==> c.Shape().Adj(i, j)
    ensures |out| + 1 >= c.minPts <==> i in c.Shape().core
  {
    out := [];
    for j := 0 to |c.points|
      invariant forall a :: 0 <= a < |out| ==> out[a] < j
      invariant forall x :: x in out <==> 0 <= x < j && c.Near(i, x)
      invariant forall a, b :: 0 <= a < b < |out| ==> out[a] < out[b]
    {
      if c.Near(i, j) {
        out := out + [j];
      }
    }
    DistinctSize(out);
    assert Elements(out) == c.Around(i);
  }

  /** dbscan.rs:67-97: grow cluster `id` from the unvisited core point `p`. */
  method Expand(c: Cloud, labels: array<int>, p: int, start: seq<int>, id: int, ghost leaders: seq<int>)
    requires c.Shape().WellFormed() && 0 <= p < labels.Length == |c.points| && id == |leaders|
    requires Settled(c.Shape(), labels[..], leaders, p) && labels[p] == UNVISITED && p in c.Shape().core
    requires Distinct(start) && forall j :: j in start <==> c.Shape().Adj(p, j)
    modifies labels
    ensures Settled(c.Shape(), labels[..], leaders + [p], p + 1)
  {
    ghost var g, before := c.Shape(), labels[..];
    var n := labels.Length;
    var seeds := start;
    GrowthStarts(g, p, leaders, before, seeds);
    labels[p] := id;
    assert labels[..] == before[p := id];
    var queued := new bool[n](_ => false);
    queued[p] := true;
    for k := 0 to |seeds|
      invariant labels[..] == before[p := id]
      invariant forall x :: 0 <= x < n ==> (queued[x] <==> x == p || x in seeds[..k])
    {
      queued[seeds[k]] := true;
    }
    assert seeds[..|seeds|] == seeds;
    var i := 0;
    while i < |seeds|
      invariant Growing(g, p, id, before, labels[..], seeds, i)
      invariant Queued(queued[..], p, seeds)
      decreases n - i
    {
      SeedsFit(seeds, p, n);
      seeds := Visit(c, labels, queued, seeds, i, p, id, before);
      i := i + 1;
    }
    GrownIsSettled(g, p, before, labels[..], seeds, leaders);
  }

  /** dbscan.rs:78-97: one turn of the expansion loop, on the seed at `i`. */
  method Visit(c: Cloud, labels: array<int>, queued: array<bool>, seeds: seq<int>, i: nat, p: int, id: int,
               ghost before: seq<int>)
    returns (longer: seq<int>)
    requires c.Shape().WellFormed() && labels.Length == queued.Length == |c.points|
    requires id >= 0 && i < |seeds| && InRange(c.Shape(), before, id, p)
    requires Growing(c.Shape(), p, id, before, labels[..], seeds, i) && Queued(queued[..], p, seeds)
    modifies labels, queued
    ensures Growing(c.Shape(), p, id, before, labels[..], longer, i + 1) && Queued(queued[..], p, longer)
  {
    ghost var g, was := c.Shape(), labels[..];
    longer := seeds;
    var q := seeds[i];
    if labels[q] == NOISE {
      labels[q] := id;
    }
    if labels[q] != UNVISITED {
      if was[q] == NOISE {
        GrowthVisits(g, p, id, before, was, seeds, i, longer);
        assert labels[..] == was[q := id];
      } else {
        GrowthSkips(g, p, id, before, was, seeds, i);
        assert labels[..] == was;
      }
      return;
    }
    labels[q] := id;
    var around := Neighbours(c, q);
    forall k | 0 <= k < |around| ensures 0 <= around[k] < |c.points| {
      var j := around[k];
      assert g.Adj(q, j);
    }
    if |around| + 1 >= c.minPts {
      longer := Enqueue(seeds, around, p, queued);
    }
    GrowthVisits(g, p, id, before, was, seeds, i, longer);
    assert labels[..] == was[q := id];
  }

  ghost predicate Queued(queued: seq<bool>, p: int, seeds: seq<int>) {
    forall x :: 0 <= x < |queued| ==> (queued[x] <==> x == p || x in seeds)
  }

  /** dbscan.rs:90-95: append the neighbours not queued yet. */
  method Enqueue(seeds: seq<int>, around: seq<int>, p: int, queued: array<bool>) returns (longer: seq<int>)
    requires 0 <= p < queued.Length && SeedsOk(p, seeds, queued.Length)
    requires forall k :: 0 <= k < |around| ==> 0 <= around[k] < queued.Length
    requires Queued(queued[..], p, seeds)
    modifies queued
    ensures seeds <= longer && SeedsOk(p, longer, queued.Length)
    ensures forall j :: j in longer <==> j in seeds || (j in around && j != p)
    ensures Queued(queued[..], p, longer)
  {
    longer := seeds;
    for k := 0 to |around|
      invariant seeds <= longer && SeedsOk(p, longer, queued.Length)
      invariant forall j :: j in longer <==> j in seeds || (j in around[..k] && j != p)
      invariant forall x :: 0 <= x < queued.Length ==> (queued[x] <==> x == p || x in longer)
    {
      var r := around[k];
      assert around[..k + 1] == around[..k] + [r];
      if !queued[r] {
        queued[r] := true;
        longer := longer + [r];
      }
    }
    assert around[..|around|] == around;
  }

  /** A sparse point is noise for now. */
  method MarkNoise(labels: array<int>, p: int, ghost g: Net, ghost leaders: seq<int>)
    requires 0 <= p < labels.Length == g.size && labels[p] == UNVISITED && p !in g.core
    requires Settled(g, labels[..], leaders, p)
    modifies labels
    ensures Settled(g, labels[..], leaders, p + 1)
  {
    ghost var was := labels[..];
    labels[p] := NOISE;
    assert labels[..] == was[p := NOISE];
    NoiseStaysSettled(g, was, leaders, p);
  }

  /** dbscan.rs:55-99: label every point; `k` is the number of clusters. */
  method Label(c: Cloud) returns (result: seq<int>, k: nat)
    requires SymmetricSim(c.sim)
    ensures exists leaders :: |leaders| == k && IsLabelling(c.Shape(), result, leaders)
  {
    ShapeWellFormed(c);
    var n := |c.points|;
    var labels := new int[n](_ => UNVISITED);
    ghost var g := c.Shape();
    ghost var leaders: seq<int> := [];
    k := 0;
    for p := 0 to n
      invariant k == |leaders| && Settled(g, labels[..], leaders, p)
    {
      if labels[p] != UNVISITED {
        continue;
      }
      var seeds := Neighbours(c, p);
      if |seeds| + 1 < c.minPts {
        MarkNoise(labels, p, g, leaders);
        continue;
      }
      Expand(c, labels, p, seeds, k, leaders);
      leaders := leaders + [p];
      k := k + 1;
    }
    result := labels[..];
    SettledIsLabelling(g, result, leaders);
  }

  lemma NoiseStaysSettled(g: Net, labels: seq<int>, leaders: seq<int>, p: int)
    requires Settled(g, labels, leaders, p) && 0 <= p < g.size && labels[p] == UNVISITED && p !in g.core
    ensures Settled(g, labels[p := NOISE], leaders, p + 1)
  {
    var now := labels[p := NOISE];
    forall i | 0 <= i < |now| && i !in g.core && now[i] >= 0 ensures g.Beside(now, i, now[i]) {
      var q :| q in g.core && g.Adj(q, i) && 0 <= q < |labels| && labels[q] == labels[i];
      assert now[q] == now[i];
    }
  }

  lemma {:induction false} LabelAlongChain(g: Net, labels: seq<int>, path: seq<int>)
    requires g.WellFormed() && |labels| == g.size && g.Chain(path) && Passed(g, labels)
    requires forall i :: i in g.core ==> labels[i] >= 0
    ensures labels[path[0]] == labels[path[|path| - 1]]
  {
    if |path| > 1 {
      LabelAlongChain(g, labels, path[..|path| - 1]);
      assert g.Adj(path[|path| - 2], path[|path| - 1]);
    }
  }

  /** What the outer loop keeps is, at its end, the declarative labelling. */
  lemma SettledIsLabelling(g: Net, labels: seq<int>, leaders: seq<int>)
    requires g.WellFormed() && Settled(g, labels, leaders, g.size)
    ensures IsLabelling(g, labels, leaders)
  {
    forall p, q | p in g.core && q in g.core
      ensures labels[p] == labels[q] <==> g.Linked(p, q)
    {
      if labels[p] == labels[q] {
        LinkedSymmetric(g, leaders[labels[p]], p);
        LinkedTransitive(g, p, leaders[labels[p]], q);
      }
      if g.Linked(p, q) {
        var path :| g.Joins(path, p, q);
        LabelAlongChain(g, labels, path);
      }
    }
  }

  // ---------- grouping ----------

  function Ids(points: seq<Point>): (r: seq<int>)
    ensures |r| == |points|
  {
    seq(|points|, i requires 0 <= i < |points| => points[i].id)
  }

  /** The ids labelled `l`, in input order. */
  function MembersOf(ids: seq<int>, labels: seq<int>, l: int): seq<int>
    requires |ids| == |labels|
  {
    if ids == [] then []
    else
      var n := |ids| - 1;
      MembersOf(ids[..n], labels[..n], l) + if labels[n] == l then [ids[n]] else []
  }

  function Groups(ids: seq<int>, labels: seq<int>, k: nat): seq<seq<int>>
    requires |ids| == |labels|
  {
    seq(k, l => MembersOf(ids, labels, l))
  }

  /** dbscan.rs:104-111. */
  method Group(points: seq<Point>, labels: seq<int>, k: nat) returns (clusters: seq<seq<int>>)
    requires |labels| == |points| && forall i :: 0 <= i < |labels| ==> labels[i] < k
    ensures clusters == Groups(Ids(points), labels, k)
  {
    clusters := seq(k, _ => []);
    var ids := Ids(points);
    for i := 0 to |points|
      invariant |clusters| == k
      invariant forall l :: 0 <= l < k ==> clusters[l] == MembersOf(ids[..i], labels[..i], l)
    {
      assert ids[..i + 1][..i] == ids[..i] && labels[..i + 1][..i] == labels[..i];
      if labels[i] >= 0 {
        clusters := clusters[labels[i] := clusters[labels[i]] + [points[i].id]];
      }
    }
    assert ids[..|points|] == ids && labels[..|points|] == labels;
  }

  ghost predicate Degenerate(c: Cloud) {
    |c.points| == 0 || c.minPts == 0 || |c.points| > 10_000
  }

  ghost predicate IsClustering(c: Cloud, clusters: seq<seq<int>>) {
    if Degenerate(c) then clusters == []
    else exists labels, leaders ::
      IsLabelling(c.Shape(), labels, leaders) && clusters == Groups(Ids(c.points), labels, |leaders|)
  }

  method Run(c: Cloud) returns (clusters: seq<seq<int>>)
    requires SymmetricSim(c.sim)
    ensures IsClustering(c, clusters)
  {
    if |c.points| == 0 || c.minPts == 0 {
      return [];
    }
    if |c.points| > MAX_DBSCAN_POINTS {
      return [];
    }
    var labels, k := Label(c);
    ghost var leaders :| |leaders| == k && IsLabelling(c.Shape(), labels, leaders);
    LabelsBelow(c.Shape(), labels, leaders);
    clusters := Group(c.points, labels, k);
  }

  lemma LabelsBelow(g: Net, labels: seq<int>, leaders: seq<int>)
    requires IsLabelling(g, labels, leaders)
    ensures forall i :: 0 <= i < |labels| ==> NOISE <= labels[i] < |leaders|
  {
    forall i | 0 <= i < |labels| ensures NOISE <= labels[i] < |leaders| {
      if i !in g.core && labels[i] != NOISE {
        var p :| p in g.core && g.Adj(p, i) && 0 <= p < |labels| && labels[p] == labels[i];
      }
    }
  }

  // ---------- the labelling is determined ----------

  lemma LeadersAgree(g: Net, la: seq<int>, ea: seq<int>, lb: seq<int>, eb: seq<int>)
    requires IsLabelling(g, la, ea) && IsLabelling(g, lb, eb)
    ensures forall x :: x in ea ==> x in eb
  {
    forall l | 0 <= l < |ea| ensures ea[l] in eb {
      var x := ea[l];
      var y := eb[lb[x]];
      assert lb[x] == lb[y] && g.Linked(x, y);
      assert la[y] == la[x] == l;
    }
  }

  /** The specification admits one labelling only, cluster numbers included. */
  lemma LabellingUnique(g: Net, la: seq<int>, ea: seq<int>, lb: seq<int>, eb: seq<int>)
    requires g.WellFormed() && IsLabelling(g, la, ea) && IsLabelling(g, lb, eb)
    ensures la == lb && ea == eb
  {
    LeadersAgree(g, la, ea, lb, eb);
    LeadersAgree(g, lb, eb, la, ea);
    IncreasingAgree(ea, eb);
    forall p | p in g.core ensures la[p] == lb[p] {
      var x := ea[la[p]];
      assert la[x] == la[p] && g.Linked(x, p);
      assert lb[x] == lb[p] && lb[x] == la[p];
    }
    forall i | 0 <= i < g.size && i !in g.core ensures la[i] == lb[i] {
      BorderBelow(g, la, lb, i);
      BorderBelow(g, lb, la, i);
    }
  }

  lemma HasCoreNeighbour(g: Net, labels: seq<int>, i: int)
    requires BordersJoinSmallest(g, labels)
    requires 0 <= i < |labels| && i !in g.core && labels[i] != NOISE
    ensures exists p :: p in g.core && g.Adj(p, i)
  {
    assert g.Beside(labels, i, labels[i]);
  }

  lemma BorderBelow(g: Net, la: seq<int>, lb: seq<int>, i: int)
    requires g.WellFormed() && |la| == |lb| == g.size
    requires BordersJoinSmallest(g, la) && BordersJoinSmallest(g, lb)
    requires forall p :: p in g.core ==> la[p] == lb[p] && la[p] >= 0
    requires 0 <= i < g.size && i !in g.core
    ensures la[i] <= lb[i] && (lb[i] == NOISE ==> la[i] == NOISE)
  {
    if lb[i] == NOISE {
      if la[i] != NOISE {
        HasCoreNeighbour(g, la, i);
      }
    } else {
      var p :| p in g.core && g.Adj(p, i) && 0 <= p < |lb| && lb[p] == lb[i];
    }
  }

  lemma ClusteringUnique(c: Cloud, a: seq<seq<int>>, b: seq<seq<int>>)
    requires SymmetricSim(c.sim) && IsClustering(c, a) && IsClustering(c, b)
    ensures a == b
  {
    if !Degenerate(c) {
      ShapeWellFormed(c);
      var la, ea :| IsLabelling(c.Shape(), la, ea) && a == Groups(Ids(c.points), la, |ea|);
      var lb, eb :| IsLabelling(c.Shape(), lb, eb) && b == Groups(Ids(c.points), lb, |eb|);
      LabellingUnique(c.Shape(), la, ea, lb, eb);
    }
  }

  // ---------- the grouped output ----------

  lemma {:induction false} MembersAre(ids: seq<int>, labels: seq<int>, l: int)
    requires |ids| == |labels|
    ensures forall x :: x in MembersOf(ids, labels, l) <==> exists i :: 0 <= i < |ids| && ids[i] == x && labels[i] == l
  {
    if ids != [] {
      var n := |ids| - 1;
      MembersAre(ids[..n], labels[..n], l);
    }
  }

  /** Members keep the input's order: the positions they come from increase. */
  lemma {:induction false} MembersInOrder(ids: seq<int>, labels: seq<int>, l: int) returns (at: seq<int>)
    requires |ids| == |labels|
    ensures |at| == |MembersOf(ids, labels, l)|
    ensures forall k :: 0 <= k < |at| ==>
      0 <= at[k] < |ids| && labels[at[k]] == l && MembersOf(ids, labels, l)[k] == ids[at[k]]
    ensures forall j, k :: 0 <= j < k < |at| ==> at[j] < at[k]
  {
    if ids == [] {
      at := [];
    } else {
      var n := |ids| - 1;
      at := MembersInOrder(ids[..n], labels[..n], l);
      if labels[n] == l {
        at := at + [n];
      }
    }
  }

  ghost predicate Disjoint(clusters: seq<seq<int>>) {
    forall a, b, x :: 0 <= a < b < |clusters| && x in clusters[a] ==> x !in clusters[b]
  }

  /** For distinct ids: clusters are non-empty, duplicate-free, pairwise disjoint, and hold
      exactly the points that are core or next to a core point. */
  lemma ClustersCover(c: Cloud, clusters: seq<seq<int>>)
    requires SymmetricSim(c.sim) && IsClustering(c, clusters) && Distinct(Ids(c.points))
    ensures Disjoint(clusters)
    ensures forall l :: 0 <= l < |clusters| ==> clusters[l] != [] && Distinct(clusters[l])
    ensures forall l, x :: 0 <= l < |clusters| && x in clusters[l] ==> x in Ids(c.points)
    ensures !Degenerate(c) ==> forall i :: 0 <= i < |c.points| ==>
      ((exists l :: 0 <= l < |clusters| && c.points[i].id in clusters[l]) <==>
       (i in c.Shape().core || exists p :: p in c.Shape().core && c.Shape().Adj(p, i)))
  {
    if !Degenerate(c) {
      ShapeWellFormed(c);
      var labels, leaders :|
        IsLabelling(c.Shape(), labels, leaders) && clusters == Groups(Ids(c.points), labels, |leaders|);
      GroupsCover(c.Shape(), Ids(c.points), labels, leaders, clusters);
      forall i | 0 <= i < |c.points|
        ensures (exists l :: 0 <= l < |clusters| && c.points[i].id in clusters[l]) <==>
                (i in c.Shape().core || exists p :: p in c.Shape().core && c.Shape().Adj(p, i))
      {
        assert Ids(c.points)[i] == c.points[i].id;
      }
    }
  }

  lemma GroupsCover(g: Net, ids: seq<int>, labels: seq<int>, leaders: seq<int>, clusters: seq<seq<int>>)
    requires IsLabelling(g, labels, leaders) && |ids| == g.size && Distinct(ids)
    requires clusters == Groups(ids, labels, |leaders|)
    ensures Disjoint(clusters)
    ensures forall l :: 0 <= l < |clusters| ==> clusters[l] != [] && Distinct(clusters[l])
    ensures forall l, x :: 0 <= l < |clusters| && x in clusters[l] ==> x in ids
    ensures forall i :: 0 <= i < |ids| ==>
      ((exists l :: 0 <= l < |clusters| && ids[i] in clusters[l]) <==>
       (i in g.core || exists p :: p in g.core && g.Adj(p, i)))
  {
    LabelsBelow(g, labels, leaders);
    forall l | 0 <= l < |clusters|
      ensures clusters[l] != [] && Distinct(clusters[l]) && IsCluster(ids, labels, l, clusters[l])
    {
      MembersAre(ids, labels, l);
      var at := MembersInOrder(ids, labels, l);
      var x := ids[leaders[l]];
      assert x in clusters[l];
    }
    ClustersDisjoint(ids, labels, clusters);
    forall i | 0 <= i < |ids|
      ensures (exists l :: 0 <= l < |clusters| && ids[i] in clusters[l]) <==>
              (i in g.core || exists p :: p in g.core && g.Adj(p, i))
    {
      InSomeCluster(ids, labels, clusters, i);
      if labels[i] != NOISE && i !in g.core {
        HasCoreNeighbour(g, labels, i);
      }
    }
  }

  ghost predicate IsCluster(ids: seq<int>, labels: seq<int>, l: int, members: seq<int>)
    requires |ids| == |labels|
  {
    forall x :: x in members <==> exists i :: 0 <= i < |ids| && ids[i] == x && labels[i] == l
  }

  lemma ClustersDisjoint(ids: seq<int>, labels: seq<int>, clusters: seq<seq<int>>)
    requires |ids| == |labels| && Distinct(ids)
    requires forall l :: 0 <= l < |clusters| ==> IsCluster(ids, labels, l, clusters[l])
    ensures Disjoint(clusters)
    ensures forall l, x :: 0 <= l < |clusters| && x in clusters[l] ==> x in ids
  {
    forall a, b, x | 0 <= a < b < |clusters| && x in clusters[a] ensures x !in clusters[b] {
      var i :| 0 <= i < |ids| && ids[i] == x && labels[i] == a;
    }
  }

  lemma InSomeCluster(ids: seq<int>, labels: seq<int>, clusters: seq<seq<int>>, i: int)
    requires |ids| == |labels| && Distinct(ids) && 0 <= i < |ids|
    requires forall j :: 0 <= j < |labels| ==> NOISE <= labels[j] < |clusters|
    requires forall l :: 0 <= l < |clusters| ==> IsCluster(ids, labels, l, clusters[l])
    ensures (exists l :: 0 <= l < |clusters| && ids[i] in clusters[l]) <==> labels[i] != NOISE
  {
    if labels[i] != NOISE {
      var l, x := labels[i], ids[i];
      assert IsCluster(ids, labels, l, clusters[l]);
      assert x in clusters[l];
    }
    if l :| 0 <= l < |clusters| && ids[i] in clusters[l] {
      var j :| 0 <= j < |ids| && ids[j] == ids[i] && labels[j] == l;
      assert j == i;
    }
  }

  // ---------- independence of input order ----------

  /** `d` lists the points of `c` in another order: point `i` of `c` is point `perm[i]` of `d`. */
  ghost predicate Reordered(c: Cloud, d: Cloud, perm: seq<int>) {
    && d.sim == c.sim && d.threshold == c.threshold && d.minPts == c.minPts
    && |perm| == |c.points| == |d.points|
    && Distinct(perm)
    && forall i :: 0 <= i < |perm| ==> 0 <= perm[i] < |d.points| && d.points[perm[i]] == c.points[i]
  }

  ghost function Position(s: seq<int>, x: int): (i: int)
    requires x in s
    ensures 0 <= i < |s| && s[i] == x
  {
    var i :| 0 <= i < |s| && s[i] == x; i
  }

  lemma Inverse(c: Cloud, d: Cloud, perm: seq<int>) returns (inv: seq<int>)
    requires Reordered(c, d, perm)
    ensures Reordered(d, c, inv)
    ensures forall i :: 0 <= i < |perm| ==> inv[perm[i]] == i
  {
    var n := |perm|;
    DistinctSize(perm);
    assert Elements(perm) <= Below(n);
    if Elements(perm) != Below(n) {
      SubsetSize(Elements(perm), Below(n));
      assert false;
    }
    inv := seq(n, j requires 0 <= j < n => Position(perm, j));
  }

  lemma {:induction false} ImageSize(s: set<int>, f: seq<int>)
    requires Distinct(f) && forall x :: x in s ==> 0 <= x < |f|
    ensures |set x | x in s :: f[x]| == |s|
  {
    var image := set x | x in s :: f[x];
    if s != {} {
      var y := Pick(s);
      ImageSize(s - {y}, f);
      assert image == (set x | x in s - {y} :: f[x]) + {f[y]};
    } else {
      assert image == {};
    }
  }

  lemma CoreMoves(c: Cloud, d: Cloud, perm: seq<int>, i: int)
    requires Reordered(c, d, perm) && i in c.Shape().core
    ensures perm[i] in d.Shape().core
  {
    var image := set x | x in c.Around(i) :: perm[x];
    ImageSize(c.Around(i), perm);
    assert image <= d.Around(perm[i]);
    SubsetSize(image, d.Around(perm[i]));
  }

  lemma LinkMoves(c: Cloud, d: Cloud, perm: seq<int>, p: int, q: int)
    requires Reordered(c, d, perm) && c.Shape().Linked(p, q)
    ensures 0 <= p < |perm| && 0 <= q < |perm|
    ensures d.Shape().Linked(perm[p], perm[q])
  {
    var g, h := c.Shape(), d.Shape();
    var path :| g.Joins(path, p, q);
    assert forall k :: 0 <= k < |path| ==> path[k] in g.core;
    var moved := seq(|path|, k requires 0 <= k < |path| => perm[path[k]]);
    forall k | 0 <= k < |moved| ensures moved[k] in h.core {
      CoreMoves(c, d, perm, path[k]);
    }
    forall k | 0 < k < |moved| ensures h.Adj(moved[k - 1], moved[k]) {
      assert g.Adj(path[k - 1], path[k]);
    }
    assert h.Joins(moved, perm[p], perm[q]);
  }

  /** The partition of the core points, and which points are noise, ignore input order. */
  lemma OrderIndependent(c: Cloud, d: Cloud, perm: seq<int>, lc: seq<int>, ec: seq<int>, ld: seq<int>, ed: seq<int>)
    requires SymmetricSim(c.sim) && Reordered(c, d, perm)
    requires IsLabelling(c.Shape(), lc, ec) && IsLabelling(d.Shape(), ld, ed)
    ensures forall p :: 0 <= p < |perm| ==> (p in c.Shape().core <==> perm[p] in d.Shape().core)
    ensures forall p, q :: p in c.Shape().core && q in c.Shape().core ==>
      (lc[p] == lc[q] <==> ld[perm[p]] == ld[perm[q]])
    ensures forall i :: 0 <= i < |perm| ==> (lc[i] == NOISE <==> ld[perm[i]] == NOISE)
    ensures |ec| == |ed|
  {
    var inv := Inverse(c, d, perm);
    var g, h := c.Shape(), d.Shape();
    forall p | 0 <= p < |perm| ensures p in g.core <==> perm[p] in h.core {
      if p in g.core { CoreMoves(c, d, perm, p); }
      if perm[p] in h.core { CoreMoves(d, c, inv, perm[p]); }
    }
    forall p, q | p in g.core && q in g.core ensures lc[p] == lc[q] <==> ld[perm[p]] == ld[perm[q]] {
      if g.Linked(p, q) { LinkMoves(c, d, perm, p, q); }
      if h.Linked(perm[p], perm[q]) { LinkMoves(d, c, inv, perm[p], perm[q]); }
    }
    forall i | 0 <= i < |perm| ensures lc[i] == NOISE <==> ld[perm[i]] == NOISE {
      if lc[i] == NOISE { NoiseMoves(d, c, inv, ld, ed, lc, ec, perm[i]); }
      if ld[perm[i]] == NOISE { NoiseMoves(c, d, perm, lc, ec, ld, ed, i); }
    }
    LeaderCount(c, d, perm, lc, ec, ld, ed);
    LeaderCount(d, c, inv, ld, ed, lc, ec);
  }

  /** A point noise in the reordered cloud was noise before. */
  lemma NoiseMoves(c: Cloud, d: Cloud, perm: seq<int>, lc: seq<int>, ec: seq<int>, ld: seq<int>, ed: seq<int>, i: int)
    requires Reordered(c, d, perm)
    requires IsLabelling(c.Shape(), lc, ec) && IsLabelling(d.Shape(), ld, ed)
    requires 0 <= i < |perm| && ld[perm[i]] == NOISE
    ensures lc[i] == NOISE
  {
    var g, h := c.Shape(), d.Shape();
    if i in g.core {
      CoreMoves(c, d, perm, i);
    } else if lc[i] != NOISE {
      var p :| p in g.core && g.Adj(p, i) && 0 <= p < |lc| && lc[p] == lc[i];
      CoreMoves(c, d, perm, p);
      assert h.Adj(perm[p], perm[i]);
    }
  }

  /** Distinct leaders move to distinct labels. */
  lemma LeaderCount(c: Cloud, d: Cloud, perm: seq<int>, lc: seq<int>, ec: seq<int>, ld: seq<int>, ed: seq<int>)
    requires Reordered(c, d, perm)
    requires IsLabelling(c.Shape(), lc, ec) && IsLabelling(d.Shape(), ld, ed)
    ensures |ec| <= |ed|
  {
    var inv := Inverse(c, d, perm);
    forall l | 0 <= l < |ec| ensures perm[ec[l]] in d.Shape().core {
      CoreMoves(c, d, perm, ec[l]);
    }
    var s := seq(|ec|, l requires 0 <= l < |ec| => ld[perm[ec[l]]]);
    forall l, m | 0 <= l < m < |s| ensures s[l] != s[m] {
      if s[l] == s[m] {
        assert d.Shape().Linked(perm[ec[l]], perm[ec[m]]);
        LinkMoves(d, c, inv, perm[ec[l]], perm[ec[m]]);
      }
    }
    DistinctFit(s, |ed|);
  }
}
