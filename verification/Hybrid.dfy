/** Hybrid retrieval (crates/me-query/src/hybrid.rs, execute.rs): rank fusion, assembly,
    reranking and the search path's post-filters.
  */
module Hybrid {
  import opened Collections
  import opened MemoryStore

  const U32_MAX := 0xFFFF_FFFF
  const RRF_K := 60

  /** `u32` with `saturating_add`. */
  type Word = n: int | 0 <= n <= U32_MAX

  function SatAdd(a: Word, b: Word): Word { if a + b > U32_MAX then U32_MAX else a + b }

  function ToWord(n: nat): Word { if n > U32_MAX then U32_MAX else n }

  // ---------- rank fusion ----------

  /** What one position in one list adds. */
  function Share(k: Word, rank: nat): (r: real)
    ensures r > 0.0
  {
    1.0 / SatAdd(SatAdd(k, ToWord(rank)), 1) as real
  }

  lemma ReciprocalAntitone(a: int, b: int)
    requires 0 < a <= b
    ensures 1.0 / b as real <= 1.0 / a as real
  {}

  /** The nested saturations amount to capping the documented `k + rank + 1`. */
  lemma ShareIsCapped(k: Word, rank: nat)
    ensures Share(k, rank) == 1.0 / (if k + rank + 1 <= 0xFFFF_FFFF then k + rank + 1 else 0xFFFF_FFFF) as real
  {
    assert SatAdd(SatAdd(k, ToWord(rank)), 1) == if k + rank + 1 <= U32_MAX then k + rank + 1 else U32_MAX;
  }

  lemma ShareAntitone(k: Word, i: nat, j: nat)
    requires i <= j
    ensures Share(k, j) <= Share(k, i)
  {
    ReciprocalAntitone(SatAdd(SatAdd(k, ToWord(i)), 1), SatAdd(SatAdd(k, ToWord(j)), 1));
  }

  type Ranked = seq<(int, real)>

  /** The sum of the shares of every position at which `id` stands. */
  function ScoreIn(list: Ranked, id: int, k: Word): (r: real)
    ensures r >= 0.0
  {
    if list == [] then 0.0
    else
      var n := |list| - 1;
      ScoreIn(list[..n], id, k) + if list[n].0 == id then Share(k, n) else 0.0
  }

  function IdsOf(list: Ranked): (r: seq<int>)
    ensures |r| == |list| && forall i :: 0 <= i < |r| ==> r[i] == list[i].0
  {
    seq(|list|, i requires 0 <= i < |list| => list[i].0)
  }

  ghost predicate Descending(s: Ranked) { forall i, j :: 0 <= i < j < |s| ==> s[i].1 >= s[j].1 }

  /** Every input id once, scored by all its positions, best first. */
  ghost predicate IsFusion(fts: Ranked, vec: Ranked, k: Word, merged: Ranked) {
    && Distinct(IdsOf(merged)) && Descending(merged)
    && Elements(IdsOf(merged)) == Elements(IdsOf(fts)) + Elements(IdsOf(vec))
    && forall i :: 0 <= i < |merged| ==> merged[i].1 == ScoreIn(fts, merged[i].0, k) + ScoreIn(vec, merged[i].0, k)
  }

  /** Accumulated scores: `base` plus what the first `n` positions add. */
  ghost predicate Tallied(scores: map<int, real>, base: map<int, real>, list: Ranked, k: Word) {
    && scores.Keys == base.Keys + Elements(IdsOf(list))
    && forall id :: id in scores ==> scores[id] == (if id in base then base[id] else 0.0) + ScoreIn(list, id, k)
  }

  method Accumulate(start: map<int, real>, list: Ranked, k: Word) returns (scores: map<int, real>)
    ensures Tallied(scores, start, list, k)
  {
    scores := start;
    for rank := 0 to |list|
      invariant Tallied(scores, start, list[..rank], k)
    {
      var id := list[rank].0;
      ghost var before := scores;
      scores := scores[id := (if id in scores then scores[id] else 0.0) + Share(k, rank)];
      TallyNext(before, scores, start, list, rank, k);
    }
    assert list[..|list|] == list;
  }

  lemma TallyNext(before: map<int, real>, scores: map<int, real>, start: map<int, real>, list: Ranked, rank: nat,
                  k: Word)
    requires rank < |list| && Tallied(before, start, list[..rank], k)
    requires scores ==
      before[list[rank].0 := (if list[rank].0 in before then before[list[rank].0] else 0.0) + Share(k, rank)]
    ensures Tallied(scores, start, list[..rank + 1], k)
  {
    var id, longer := list[rank].0, list[..rank + 1];
    assert longer[..rank] == list[..rank] && longer[rank] == list[rank];
    assert IdsOf(longer) == IdsOf(list[..rank]) + [id];
    assert Elements(IdsOf(longer)) == Elements(IdsOf(list[..rank])) + {id};
    AbsentScoresNothing(list[..rank], id, k);
  }

  lemma {:induction false} AbsentScoresNothing(list: Ranked, id: int, k: Word)
    ensures id !in IdsOf(list) ==> ScoreIn(list, id, k) == 0.0
  {
    if list != [] {
      var n := |list| - 1;
      AbsentScoresNothing(list[..n], id, k);
      assert IdsOf(list) == IdsOf(list[..n]) + [list[n].0];
    }
  }

  function ScoreOf(): ((int, real)) -> real { (e: (int, real)) => e.1 }

  lemma {:induction false} InsertDistinct(x: (int, real), s: Ranked)
    requires Distinct(IdsOf(s)) && x.0 !in IdsOf(s)
    ensures Distinct(IdsOf(InsertBy(x, s, ScoreOf())))
    ensures Elements(IdsOf(InsertBy(x, s, ScoreOf()))) == Elements(IdsOf(s)) + {x.0}
  {
    var r := InsertBy(x, s, ScoreOf());
    if s == [] || x.1 >= s[0].1 {
      assert IdsOf(r) == [x.0] + IdsOf(s);
    } else {
      var tail := InsertBy(x, s[1..], ScoreOf());
      assert IdsOf(s) == [s[0].0] + IdsOf(s[1..]);
      InsertDistinct(x, s[1..]);
      assert IdsOf(r) == [s[0].0] + IdsOf(tail);
      assert s[0].0 !in Elements(IdsOf(tail));
      assert Elements(IdsOf(r)) == {s[0].0} + Elements(IdsOf(tail));
    }
  }

  /** Inserting by score keeps a descending list descending and adds one entry. */
  lemma {:induction false} InsertKeeps(x: (int, real), s: Ranked)
    requires Descending(s)
    ensures Descending(InsertBy(x, s, ScoreOf())) && forall y :: y in InsertBy(x, s, ScoreOf()) <==> y == x || y in s
  {
    forall i, j | 0 <= i < j < |s| ensures ScoreOf()(s[i]) >= ScoreOf()(s[j]) {
      assert s[i].1 >= s[j].1;
    }
    InsertByFalls(x, s, ScoreOf());
    InsertByAdds(x, s, ScoreOf());
    var r := InsertBy(x, s, ScoreOf());
    forall i, j | 0 <= i < j < |r| ensures r[i].1 >= r[j].1 {
      assert ScoreOf()(r[i]) >= ScoreOf()(r[j]);
    }
    assert forall y :: y in r <==> y in multiset(r);
  }

  /** The map's entries, sorted by score; equal scores fall in any order. */
  method SortedEntries(scores: map<int, real>) returns (merged: Ranked)
    ensures Distinct(IdsOf(merged)) && Descending(merged) && Elements(IdsOf(merged)) == scores.Keys
    ensures forall i :: 0 <= i < |merged| ==> merged[i].0 in scores && merged[i].1 == scores[merged[i].0]
  {
    merged := [];
    var rest := scores.Keys;
    while rest != {}
      invariant rest <= scores.Keys
      invariant Distinct(IdsOf(merged)) && Descending(merged) && Elements(IdsOf(merged)) == scores.Keys - rest
      invariant forall e :: e in merged ==> e.0 in scores && e.1 == scores[e.0]
      decreases |rest|
    {
      var id := Choose(rest);
      assert id !in Elements(IdsOf(merged));
      InsertKeeps((id, scores[id]), merged);
      InsertDistinct((id, scores[id]), merged);
      merged := InsertBy((id, scores[id]), merged, ScoreOf());
      rest := rest - {id};
    }
    forall i | 0 <= i < |merged| ensures merged[i].0 in scores && merged[i].1 == scores[merged[i].0] {
      var e := merged[i];
      assert e in merged;
    }
  }

  method RrfMerge(fts: Ranked, vec: Ranked, k: Word) returns (merged: Ranked)
    ensures IsFusion(fts, vec, k, merged)
  {
    var scores := Accumulate(map[], fts, k);
    ghost var first := scores;
    scores := Accumulate(scores, vec, k);
    merged := SortedEntries(scores);
    forall i | 0 <= i < |merged|
      ensures merged[i].1 == ScoreIn(fts, merged[i].0, k) + ScoreIn(vec, merged[i].0, k)
    {
      var id := merged[i].0;
      if id !in first {
        assert id !in Elements(IdsOf(fts));
        AbsentScoresNothing(fts, id, k);
      }
    }
  }

  /** Swapping the lists changes no score. */
  lemma FusionSymmetric(fts: Ranked, vec: Ranked, k: Word, merged: Ranked)
    ensures IsFusion(fts, vec, k, merged) <==> IsFusion(vec, fts, k, merged)
  {
    assert Elements(IdsOf(fts)) + Elements(IdsOf(vec)) == Elements(IdsOf(vec)) + Elements(IdsOf(fts));
  }

  lemma {:induction false} ScoreAt(list: Ranked, i: nat, k: Word)
    requires i < |list| && Distinct(IdsOf(list))
    ensures ScoreIn(list, list[i].0, k) == Share(k, i)
  {
    var n := |list| - 1;
    var init := list[..n];
    assert IdsOf(list) == IdsOf(init) + [list[n].0];
    if i == n {
      AbsentScoresNothing(init, list[n].0, k);
    } else {
      ScoreAt(init, i, k);
      assert IdsOf(list)[i] != IdsOf(list)[n];
    }
  }

  /** `x` stands in the list wherever `y` does, and no later. */
  ghost predicate NoWorse(list: Ranked, x: int, y: int) {
    forall j :: 0 <= j < |list| && list[j].0 == y ==> exists i :: 0 <= i <= j && list[i].0 == x
  }

  lemma {:induction false} NoWorseScores(list: Ranked, x: int, y: int, k: Word)
    requires Distinct(IdsOf(list)) && NoWorse(list, x, y)
    ensures ScoreIn(list, x, k) >= ScoreIn(list, y, k)
  {
    if y in IdsOf(list) {
      var j :| 0 <= j < |list| && IdsOf(list)[j] == y;
      var i :| 0 <= i <= j && list[i].0 == x;
      ScoreAt(list, i, k);
      ScoreAt(list, j, k);
      ShareAntitone(k, i, j);
    } else {
      AbsentScoresNothing(list, y, k);
    }
  }

  /** An id ranked no worse than another in both lists never scores lower, saturation included. */
  lemma DominanceKept(fts: Ranked, vec: Ranked, k: Word, merged: Ranked, a: nat, b: nat)
    requires Distinct(IdsOf(fts)) && Distinct(IdsOf(vec)) && IsFusion(fts, vec, k, merged)
    requires a < |merged| && b < |merged|
    requires NoWorse(fts, merged[a].0, merged[b].0) && NoWorse(vec, merged[a].0, merged[b].0)
    ensures merged[a].1 >= merged[b].1
  {
    NoWorseScores(fts, merged[a].0, merged[b].0, k);
    NoWorseScores(vec, merged[a].0, merged[b].0, k);
  }

  // ---------- assembly ----------

  datatype MatchType = Fts | Vector | Both

  datatype Hit = Hit(id: int, fact: Fact, score: real, kind: MatchType)

  /** Validity at an instant: `[tValid, tInvalid)`, open where absent. */
  predicate Passes(f: Fact, cutoff: int) {
    (f.tValid.None? || f.tValid.value <= cutoff) && (f.tInvalid.None? || f.tInvalid.value > cutoff)
  }

  function KindOf(id: int, fts: set<int>, vec: set<int>): MatchType {
    if id in fts && id in vec then Both else if id in fts then Fts else Vector
  }

  function HitOf(ranked: Ranked, i: int, facts: map<int, Fact>, fts: set<int>, vec: set<int>): Hit
    requires 0 <= i < |ranked| && ranked[i].0 in facts
  {
    Hit(ranked[i].0, facts[ranked[i].0], ranked[i].1, KindOf(ranked[i].0, fts, vec))
  }

  /** The instant is not before the start of validity and is before its end, where there are such. */
  ghost predicate InForce(f: Fact, at: int) {
    !(f.tValid.Some? && at < f.tValid.value) && !(f.tInvalid.Some? && f.tInvalid.value <= at)
  }

  /** The positions that survive: first occurrences of loaded ids whose fact is valid. */
  ghost predicate Kept(ranked: Ranked, facts: map<int, Fact>, cutoff: int, i: int) {
    && 0 <= i < |ranked| && ranked[i].0 in facts && InForce(facts[ranked[i].0], cutoff)
    && forall j :: 0 <= j < i ==> ranked[j].0 != ranked[i].0
  }

  /** `at` lists the kept positions of the first `n`, ascending. */
  ghost predicate KeptUpTo(ranked: Ranked, facts: map<int, Fact>, cutoff: int, n: int, at: seq<int>) {
    && (forall i, j :: 0 <= i < j < |at| ==> at[i] < at[j])
    && (forall k :: 0 <= k < |at| ==> Kept(ranked, facts, cutoff, at[k]) && at[k] < n)
    && (forall i :: Kept(ranked, facts, cutoff, i) && i < n ==> i in at)
  }

  /** The hits at the given positions. */
  ghost predicate AreHits(hits: seq<Hit>, at: seq<int>, ranked: Ranked, facts: map<int, Fact>, fts: set<int>,
                          vec: set<int>)
  {
    && |hits| == |at|
    && forall k :: 0 <= k < |at| ==>
         0 <= at[k] < |ranked| && ranked[at[k]].0 in facts && hits[k] == HitOf(ranked, at[k], facts, fts, vec)
  }

  function Min(a: nat, b: nat): nat { if a < b then a else b }

  const USIZE_MAX := 0xFFFF_FFFF_FFFF_FFFF

  type Size = n: int | 0 <= n <= USIZE_MAX

  function EffectiveLimit(limit: Size, depth: Option<Size>): Size {
    if depth.Some? && depth.value > limit then depth.value else limit
  }

  /** The loop: stop at the limit, take each fact out of the map, keep the valid ones. The result
      is the first `limit` hits of the whole filtered list, `at` being its positions. */
  method Assemble(ranked: Ranked, facts: map<int, Fact>, cutoff: int, fts: set<int>, vec: set<int>, limit: nat)
    returns (hits: seq<Hit>, ghost at: seq<int>)
    ensures KeptUpTo(ranked, facts, cutoff, |ranked|, at)
    ensures AreHits(hits, at[..Min(limit, |at|)], ranked, facts, fts, vec)
    ensures |hits| <= limit && forall k :: 0 <= k < |hits| ==> IsKeptHit(hits[k], ranked, facts, cutoff, fts, vec)
  {
    hits, at := [], [];
    var byId := facts;
    var i := 0;
    while i < |ranked| && |hits| < limit
      invariant 0 <= i <= |ranked| && |hits| <= limit
      invariant Assembled(hits, at, i, ranked, facts, cutoff, fts, vec)
      invariant byId == Remaining(facts, ranked, i)
    {
      var (id, score) := ranked[i];
      AssembledNext(hits, at, i, ranked, facts, cutoff, fts, vec);
      var found := if id in byId then Some(byId[id]) else None;
      byId := byId - {id};
      if found.Some? && Passes(found.value, cutoff) {
        hits, at := hits + [Hit(id, found.value, score, KindOf(id, fts, vec))], at + [i];
      }
      i := i + 1;
    }
    at := AssembledRest(hits, at, i, ranked, facts, cutoff, fts, vec, limit);
    forall k | 0 <= k < |hits| ensures IsKeptHit(hits[k], ranked, facts, cutoff, fts, vec) {
      assert Kept(ranked, facts, cutoff, at[k]) && HitAt(hits[k], at[k], ranked, facts, fts, vec);
    }
  }

  ghost predicate HitAt(h: Hit, i: int, ranked: Ranked, facts: map<int, Fact>, fts: set<int>, vec: set<int>) {
    0 <= i < |ranked| && ranked[i].0 in facts && h == HitOf(ranked, i, facts, fts, vec)
  }

  /** A hit of some surviving position. */
  ghost predicate IsKeptHit(h: Hit, ranked: Ranked, facts: map<int, Fact>, cutoff: int, fts: set<int>, vec: set<int>) {
    exists i :: Kept(ranked, facts, cutoff, i) && HitAt(h, i, ranked, facts, fts, vec)
  }

  ghost predicate Assembled(hits: seq<Hit>, at: seq<int>, i: nat, ranked: Ranked, facts: map<int, Fact>, cutoff: int,
                            fts: set<int>, vec: set<int>) {
    KeptUpTo(ranked, facts, cutoff, i, at) && AreHits(hits, at, ranked, facts, fts, vec)
  }

  lemma AssembledNext(hits: seq<Hit>, at: seq<int>, i: nat, ranked: Ranked, facts: map<int, Fact>, cutoff: int,
                      fts: set<int>, vec: set<int>)
    requires i < |ranked| && Assembled(hits, at, i, ranked, facts, cutoff, fts, vec)
    ensures Remaining(facts, ranked, i + 1) == Remaining(facts, ranked, i) - {ranked[i].0}
    ensures var id := ranked[i].0;
      if id in Remaining(facts, ranked, i) && Passes(Remaining(facts, ranked, i)[id], cutoff)
      then Assembled(hits + [Hit(id, Remaining(facts, ranked, i)[id], ranked[i].1, KindOf(id, fts, vec))], at + [i],
                     i + 1, ranked, facts, cutoff, fts, vec)
      else Assembled(hits, at, i + 1, ranked, facts, cutoff, fts, vec)
  {
    RemainingNext(facts, ranked, cutoff, i);
    KeptNext(ranked, facts, cutoff, i, at);
    if Kept(ranked, facts, cutoff, i) {
      HitsNext(hits, at, ranked, i, facts, fts, vec);
    }
  }

  lemma AssembledRest(hits: seq<Hit>, at: seq<int>, i: nat, ranked: Ranked, facts: map<int, Fact>, cutoff: int,
                      fts: set<int>, vec: set<int>, limit: nat) returns (all: seq<int>)
    requires i <= |ranked| && Assembled(hits, at, i, ranked, facts, cutoff, fts, vec)
    requires |hits| <= limit && (i == |ranked| || |hits| == limit)
    ensures KeptUpTo(ranked, facts, cutoff, |ranked|, all)
    ensures AreHits(hits, all[..Min(limit, |all|)], ranked, facts, fts, vec)
  {
    all := KeptRest(ranked, facts, cutoff, i, at);
    assert all[..Min(limit, |all|)] == at;
  }

  lemma HitsNext(hits: seq<Hit>, at: seq<int>, ranked: Ranked, i: nat, facts: map<int, Fact>, fts: set<int>,
                 vec: set<int>)
    requires AreHits(hits, at, ranked, facts, fts, vec) && i < |ranked| && ranked[i].0 in facts
    ensures AreHits(hits + [HitOf(ranked, i, facts, fts, vec)], at + [i], ranked, facts, fts, vec)
  {}

  /** What the loop has not taken out of the map before position `i`. */
  ghost function Remaining(facts: map<int, Fact>, ranked: Ranked, i: nat): map<int, Fact>
    requires i <= |ranked|
  {
    facts - Elements(IdsOf(ranked[..i]))
  }

  lemma RemainingNext(facts: map<int, Fact>, ranked: Ranked, cutoff: int, i: nat)
    requires i < |ranked|
    ensures Remaining(facts, ranked, i + 1) == Remaining(facts, ranked, i) - {ranked[i].0}
    ensures ranked[i].0 in Remaining(facts, ranked, i) ==>
      ranked[i].0 in facts && Remaining(facts, ranked, i)[ranked[i].0] == facts[ranked[i].0]
    ensures Kept(ranked, facts, cutoff, i) <==>
      ranked[i].0 in Remaining(facts, ranked, i) && Passes(facts[ranked[i].0], cutoff)
  {
    var id, ids := ranked[i].0, IdsOf(ranked[..i]);
    assert IdsOf(ranked[..i + 1]) == ids + [id];
    assert Elements(ids + [id]) == Elements(ids) + {id};
    FirstSight(ranked, i, id);
  }

  lemma FirstSight(ranked: Ranked, i: nat, id: int)
    requires i < |ranked| && id == ranked[i].0
    ensures id in Elements(IdsOf(ranked[..i])) <==> exists j :: 0 <= j < i && ranked[j].0 == id
  {
    var ids := IdsOf(ranked[..i]);
    if j :| 0 <= j < i && ranked[j].0 == id {
      assert ids[j] == id;
    }
    if id in ids {
      var j :| 0 <= j < |ids| && ids[j] == id;
      assert ranked[j].0 == id;
    }
  }

  lemma KeptNext(ranked: Ranked, facts: map<int, Fact>, cutoff: int, i: nat, at: seq<int>)
    requires i < |ranked| && KeptUpTo(ranked, facts, cutoff, i, at)
    ensures KeptUpTo(ranked, facts, cutoff, i + 1, if Kept(ranked, facts, cutoff, i) then at + [i] else at)
  {
    assert forall k :: k in at + [i] <==> k in at || k == i;
  }

  lemma {:induction false} KeptRest(ranked: Ranked, facts: map<int, Fact>, cutoff: int, i: nat, at: seq<int>)
    returns (all: seq<int>)
    requires i <= |ranked| && KeptUpTo(ranked, facts, cutoff, i, at)
    ensures KeptUpTo(ranked, facts, cutoff, |ranked|, all) && at <= all
    ensures i == |ranked| ==> all == at
    decreases |ranked| - i
  {
    if i == |ranked| {
      all := at;
    } else {
      KeptNext(ranked, facts, cutoff, i, at);
      all := KeptRest(ranked, facts, cutoff, i + 1, if Kept(ranked, facts, cutoff, i) then at + [i] else at);
    }
  }

  lemma KeptDetermined(ranked: Ranked, facts: map<int, Fact>, cutoff: int, a: seq<int>, b: seq<int>)
    requires KeptUpTo(ranked, facts, cutoff, |ranked|, a) && KeptUpTo(ranked, facts, cutoff, |ranked|, b)
    ensures a == b
  {
    AllKept(ranked, facts, cutoff, a, b);
    AllKept(ranked, facts, cutoff, b, a);
    IncreasingAgree(a, b);
  }

  lemma AllKept(ranked: Ranked, facts: map<int, Fact>, cutoff: int, a: seq<int>, b: seq<int>)
    requires KeptUpTo(ranked, facts, cutoff, |ranked|, a) && KeptUpTo(ranked, facts, cutoff, |ranked|, b)
    ensures forall x :: x in a ==> x in b
  {
    forall k | 0 <= k < |a| ensures a[k] in b {
      assert Kept(ranked, facts, cutoff, a[k]);
    }
  }

  /** Over one ranked list, a run widened by `rerank_depth` and cut to the limit is the unwidened run. */
  lemma WidenedThenCut(ranked: Ranked, facts: map<int, Fact>, cutoff: int, fts: set<int>, vec: set<int>, limit: Size,
                       depth: Option<Size>, narrow: seq<Hit>, wide: seq<Hit>, a: seq<int>, b: seq<int>)
    requires KeptUpTo(ranked, facts, cutoff, |ranked|, a)
    requires AreHits(narrow, a[..Min(limit, |a|)], ranked, facts, fts, vec)
    requires KeptUpTo(ranked, facts, cutoff, |ranked|, b)
    requires AreHits(wide, b[..Min(PageSize(limit, depth), |b|)], ranked, facts, fts, vec)
    ensures narrow == wide[..Min(limit, |wide|)]
  {
    KeptDetermined(ranked, facts, cutoff, a, b);
    var n := Min(limit, |a|);
    assert Min(limit, |wide|) == n;
    forall k | 0 <= k < n ensures narrow[k] == wide[k] {
      assert a[..n][k] == b[..Min(PageSize(limit, depth), |b|)][k];
    }
  }

  // ---------- the port-driven search ----------

  /** What each channel is asked for: three times the target, saturating. */
  function Overfetch(limit: Size, depth: Option<Size>): (r: Size)
    ensures r >= EffectiveLimit(limit, depth) >= limit
  {
    var target := EffectiveLimit(limit, depth);
    var tripled := if 3 * target > USIZE_MAX then USIZE_MAX else 3 * target;
    if tripled > target then tripled else target
  }

  /** The two channels of the backend, each answering a fetch bound, and the fact loader. */
  datatype Port = Port(lexical: Size -> Ranked, vector: Size -> Ranked, load: seq<int> -> map<int, Fact>)

  /** A channel answers if the mode opens it and its input is there. */
  function Channel(open: bool, answer: Size -> Ranked, n: Size): Ranked { if open then answer(n) else [] }

  /** What the mode ranks: one channel as it came, or the fusion of both. */
  ghost predicate RankedBy(mode: Mode, fts: Ranked, vec: Ranked, ranked: Ranked) {
    match mode
    case FtsMode => ranked == fts && vec == []
    case VectorMode => ranked == vec && fts == []
    case HybridMode => IsFusion(fts, vec, 60, ranked)
  }

  /** The hit stands in the channels its kind names, and in no other. */
  ghost predicate KindTells(h: Hit, fts: Ranked, vec: Ranked) {
    && (h.id in IdsOf(fts) <==> h.kind.Fts? || h.kind.Both?)
    && (h.id in IdsOf(vec) <==> h.kind.Vector? || h.kind.Both?)
  }

  /** The page is as long as the limit, or as the reranker's depth if that is more; each channel is asked for
      three times as much, as far as 64 bits go. */
  ghost function PageSize(limit: Size, depth: Option<Size>): Size {
    match depth
    case None => limit
    case Some(d) => if limit < d then d else limit
  }

  ghost function Asked(limit: Size, depth: Option<Size>): Size {
    if 3 * PageSize(limit, depth) <= 0xFFFF_FFFF_FFFF_FFFF then 3 * PageSize(limit, depth) else 0xFFFF_FFFF_FFFF_FFFF
  }

  /** `port_hybrid_search`: the results are the first of the mode's ranking that are loaded and valid, and each
      says truly which channels found it. A closed channel contributes nothing. */
  method PortHybridSearch(port: Port, mode: Mode, hasText: bool, hasEmbedding: bool, cutoff: int, limit: Size,
                          depth: Option<Size>)
    returns (hits: seq<Hit>, ghost fts: Ranked, ghost vec: Ranked, ghost ranked: Ranked, ghost at: seq<int>)
    ensures fts == if mode != VectorMode && hasText then port.lexical(Asked(limit, depth)) else []
    ensures vec == if mode != FtsMode && hasEmbedding then port.vector(Asked(limit, depth)) else []
    ensures RankedBy(mode, fts, vec, ranked)
    ensures KeptUpTo(ranked, port.load(IdsOf(ranked)), cutoff, |ranked|, at)
    ensures |hits| == (if |at| <= PageSize(limit, depth) then |at| else PageSize(limit, depth))
    ensures AreHits(hits, at[..|hits|], ranked, port.load(IdsOf(ranked)), Elements(IdsOf(fts)), Elements(IdsOf(vec)))
    ensures forall k :: 0 <= k < |hits| ==> KindTells(hits[k], fts, vec)
  {
    var overfetch := Overfetch(limit, depth);
    var lexical := Channel(!mode.VectorMode? && hasText, port.lexical, overfetch);
    var vector := Channel(!mode.FtsMode? && hasEmbedding, port.vector, overfetch);
    var list;
    match mode {
      case FtsMode => list := lexical;
      case VectorMode => list := vector;
      case HybridMode => list := RrfMerge(lexical, vector, RRF_K);
    }
    fts, vec, ranked := lexical, vector, list;
    var facts := port.load(IdsOf(list));
    hits, at := Assemble(list, facts, cutoff, Elements(IdsOf(lexical)), Elements(IdsOf(vector)),
                         EffectiveLimit(limit, depth));
    forall k | 0 <= k < |hits| ensures KindTells(hits[k], fts, vec) {
      KindsTell(mode, fts, vec, ranked, facts, hits[k], at[k]);
    }
  }

  lemma KindsTell(mode: Mode, fts: Ranked, vec: Ranked, ranked: Ranked, facts: map<int, Fact>, h: Hit, i: int)
    requires RankedBy(mode, fts, vec, ranked)
    requires HitAt(h, i, ranked, facts, Elements(IdsOf(fts)), Elements(IdsOf(vec)))
    ensures KindTells(h, fts, vec)
  {
    var id := IdsOf(ranked)[i];
    assert id in Elements(IdsOf(ranked));
    assert id == h.id;
  }

  // ---------- reranking ----------

  /** A reranker's score may also be NaN or infinite. */
  datatype Score = Finite(value: real) | NotFinite

  datatype RerankerError =
    | OutputTooLong(outputLen: nat, inputLen: nat)
    | OutOfBounds(index: nat)
    | DuplicateIndex(index: nat)
    | NonFiniteScore(index: nat)

  type Output = seq<(nat, Score)>

  /** What position `k` is refused for, given that nothing before it was. */
  function Fault(n: nat, output: Output, k: nat): Option<RerankerError>
    requires k < |output|
  {
    if output[k].0 >= n then Some(OutOfBounds(output[k].0))
    else if exists j :: 0 <= j < k && output[j].0 == output[k].0 then Some(DuplicateIndex(output[k].0))
    else if output[k].1.NotFinite? then Some(NonFiniteScore(output[k].0))
    else None
  }

  /** A partial permutation of the candidates with finite scores. */
  ghost predicate IsPartialPermutation(n: nat, output: Output) {
    && (forall k :: 0 <= k < |output| ==> output[k].0 < n && output[k].1.Finite?)
    && forall j, k :: 0 <= j < k < |output| ==> output[j].0 != output[k].0
  }

  /** The first fault, in output order, or none exactly for a partial permutation. */
  method ValidateRerankerOutput(n: nat, output: Output) returns (bad: Option<RerankerError>)
    ensures bad.None? <==> IsPartialPermutation(n, output)
    ensures |output| > n ==> bad == Some(OutputTooLong(|output|, n))
    ensures bad.Some? && |output| <= n ==>
      exists k :: 0 <= k < |output| && bad == Fault(n, output, k) && IsPartialPermutation(n, output[..k])
  {
    if |output| > n {
      PermutationFits(n, output);
      return Some(OutputTooLong(|output|, n));
    }
    var seen: set<nat> := {};
    for k := 0 to |output|
      invariant seen == set j | 0 <= j < k :: output[j].0
      invariant IsPartialPermutation(n, output[..k])
    {
      var (idx, score) := output[k];
      assert idx in seen <==> exists j :: 0 <= j < k && output[j].0 == idx;
      if idx >= n {
        return Some(OutOfBounds(idx));
      }
      if idx in seen {
        return Some(DuplicateIndex(idx));
      }
      seen := seen + {idx};
      if score.NotFinite? {
        return Some(NonFiniteScore(idx));
      }
    }
    assert output[..|output|] == output;
    return None;
  }

  lemma PermutationFits(n: nat, output: Output)
    ensures IsPartialPermutation(n, output) ==> |output| <= n
  {
    if IsPartialPermutation(n, output) {
      DistinctFit(seq(|output|, k requires 0 <= k < |output| => output[k].0), n);
    }
  }

  /** The move-out by index: every `take` finds its slot full, and the result is the chosen
      candidates in output order, rescored. */
  method MoveOut(results: seq<Hit>, output: Output) returns (moved: seq<Hit>)
    requires IsPartialPermutation(|results|, output)
    ensures |moved| == |output|
    ensures forall k :: 0 <= k < |moved| ==> moved[k] == results[output[k].0].(score := output[k].1.value)
  {
    var candidates := new Option<Hit>[|results|](i requires 0 <= i < |results| => Some(results[i]));
    moved := [];
    for k := 0 to |output|
      invariant |moved| == k
      invariant forall j :: 0 <= j < k ==> moved[j] == results[output[j].0].(score := output[j].1.value)
      invariant forall i :: 0 <= i < |results| && (forall j :: 0 <= j < k ==> output[j].0 != i) ==>
        candidates[i] == Some(results[i])
    {
      var idx := output[k].0;
      var taken := candidates[idx];
      candidates[idx] := None;
      assert taken.Some?;
      moved := moved + [taken.value.(score := output[k].1.value)];
    }
  }

  /** The tail of `query`: an optional rerank of the widened page, then the cut to the limit. */
  method FinishQuery(page: seq<Hit>, reranked: Option<Output>, limit: nat) returns (r: Result<seq<Hit>, RerankerError>)
    ensures r.Ok? <==> reranked.None? || IsPartialPermutation(|page|, reranked.value)
    ensures r.Ok? && reranked.None? ==> r.value == page[..Min(limit, |page|)]
    ensures r.Ok? && reranked.Some? ==>
      && |r.value| == Min(limit, |reranked.value|)
      && forall k :: 0 <= k < |r.value| ==> r.value[k] == page[reranked.value[k].0].(score := reranked.value[k].1.value)
  {
    var results := page;
    if reranked.Some? {
      var bad := ValidateRerankerOutput(|page|, reranked.value);
      if bad.Some? {
        return Err(bad.value);
      }
      results := MoveOut(page, reranked.value);
    }
    return Ok(results[..Min(limit, |results|)]);
  }

  // ---------- the search path's post-filters ----------

  /** The last representable instant in seconds; no stored one lies beyond it. */
  const MAX_TIME := 8_210_266_876_799

  ghost predicate Dated(f: Fact) {
    (f.tValid.Some? ==> f.tValid.value <= MAX_TIME) && (f.tInvalid.Some? ==> f.tInvalid.value <= MAX_TIME)
  }

  /** The validity interval meets `[start, end)`. */
  predicate Overlaps(f: Fact, start: int, end: int) {
    (f.tValid.None? || f.tValid.value < end) && (f.tInvalid.None? || f.tInvalid.value > start)
  }

  datatype Filters = Filters(period: Option<(int, int)>, minScore: Option<real>, pinnedOnly: bool, validAt: Option<int>)
  {
    predicate InPeriod(f: Fact) { period.None? || Overlaps(f, period.value.0, period.value.1) }

    predicate Accepts(f: Fact) {
      InPeriod(f) && (minScore.None? || f.score >= minScore.value) && (!pinnedOnly || f.pinned)
    }

    /** The instant handed to the hybrid search: the far future when a period is set. */
    function Cutoff(now: int): int {
      if validAt.Some? then validAt.value else if period.Some? then MAX_TIME else now
    }
  }

  /** The fact is valid at some instant of the period, scores at least the floor, and is pinned if only pinned
      facts are wanted. */
  ghost predicate Wanted(q: Filters, f: Fact) {
    && (q.period.Some? ==>
          && !(f.tValid.Some? && q.period.value.1 <= f.tValid.value)
          && !(f.tInvalid.Some? && f.tInvalid.value <= q.period.value.0))
    && (q.minScore.Some? ==> q.minScore.value <= f.score)
    && (q.pinnedOnly ==> f.pinned)
  }

  /** The instant validity is judged at: the one asked for, or the last there is if a period is, or now. */
  ghost function JudgedAt(q: Filters, now: int): int {
    match (q.validAt, q.period)
    case (Some(at), _) => at
    case (None, Some(_)) => 8_210_266_876_799
    case (None, None) => now
  }

  /** `retain`: the hits that pass, in order. */
  function Retain(hits: seq<Hit>, keep: Fact -> bool): (r: seq<Hit>)
    ensures |r| <= |hits|
  {
    if hits == [] then []
    else
      var n := |hits| - 1;
      Retain(hits[..n], keep) + if keep(hits[n].fact) then [hits[n]] else []
  }

  /** `hits` are those at the positions `from` of the page: ascending, and exactly the ones that pass. */
  ghost predicate Selects(hits: seq<Hit>, page: seq<Hit>, keep: Fact -> bool, from: seq<int>) {
    && |from| == |hits| && (forall i, j :: 0 <= i < j < |from| ==> from[i] < from[j])
    && (forall k :: 0 <= k < |from| ==> 0 <= from[k] < |page| && hits[k] == page[from[k]])
    && forall i :: i in from <==> 0 <= i < |page| && keep(page[i].fact)
  }

  lemma {:induction false} RetainSelects(page: seq<Hit>, keep: Fact -> bool) returns (from: seq<int>)
    ensures Selects(Retain(page, keep), page, keep, from)
  {
    if page == [] {
      from := [];
    } else {
      var n := |page| - 1;
      var init := RetainSelects(page[..n], keep);
      SelectNext(Retain(page[..n], keep), page, keep, init);
      from := if keep(page[n].fact) then init + [n] else init;
    }
  }

  lemma SelectNext(hits: seq<Hit>, page: seq<Hit>, keep: Fact -> bool, from: seq<int>)
    requires page != [] && Selects(hits, page[..|page| - 1], keep, from)
    ensures keep(page[|page| - 1].fact) ==> Selects(hits + [page[|page| - 1]], page, keep, from + [|page| - 1])
    ensures !keep(page[|page| - 1].fact) ==> Selects(hits, page, keep, from)
  {
    var n := |page| - 1;
    forall i ensures i in from <==> 0 <= i < n && keep(page[i].fact) {
      if 0 <= i < n {
        assert page[..n][i] == page[i];
      }
    }
    assert forall i :: i in from + [n] <==> i in from || i == n;
  }

  /** Only one list of hits is so selected. */
  lemma SelectionUnique(page: seq<Hit>, keep: Fact -> bool, a: seq<Hit>, b: seq<Hit>, fromA: seq<int>, fromB: seq<int>)
    requires Selects(a, page, keep, fromA) && Selects(b, page, keep, fromB)
    ensures a == b
  {
    IncreasingAgree(fromA, fromB);
  }

  /** Filters one after another select what all of them pass. */
  lemma {:induction false} RetainTwice(page: seq<Hit>, a: Fact -> bool, b: Fact -> bool, both: Fact -> bool)
    requires forall f :: both(f) <==> a(f) && b(f)
    ensures Retain(Retain(page, a), b) == Retain(page, both)
  {
    if page != [] {
      var n := |page| - 1;
      RetainTwice(page[..n], a, b, both);
      var init := Retain(page[..n], a);
      if a(page[n].fact) {
        assert (init + [page[n]])[..|init|] == init;
      } else {
        assert init + [] == init && Retain(page[..n], both) + [] == Retain(page[..n], both);
      }
    }
  }

  lemma {:induction false} RetainSame(page: seq<Hit>, a: Fact -> bool, b: Fact -> bool)
    requires forall f :: a(f) <==> b(f)
    ensures Retain(page, a) == Retain(page, b)
  {
    if page != [] {
      RetainSame(page[..|page| - 1], a, b);
    }
  }

  /** A filter everything passes changes nothing. */
  lemma {:induction false} RetainAll(page: seq<Hit>, keep: Fact -> bool)
    requires forall f :: keep(f)
    ensures Retain(page, keep) == page
  {
    if page != [] {
      RetainAll(page[..|page| - 1], keep);
    }
  }

  function AtLeast(t: real): Fact -> bool { (f: Fact) => f.score >= t }

  function InPeriod(start: int, end: int): Fact -> bool { (f: Fact) => Overlaps(f, start, end) }

  function Pinned(): Fact -> bool { (f: Fact) => f.pinned }

  /** Period, importance floor and pin, each if asked for. */
  function PeriodStage(q: Filters): Fact -> bool { (f: Fact) => q.InPeriod(f) }

  function FloorStage(q: Filters): Fact -> bool {
    (f: Fact) => q.InPeriod(f) && (q.minScore.None? || f.score >= q.minScore.value)
  }

  function AllStages(q: Filters): Fact -> bool { (f: Fact) => q.Accepts(f) }

  /** `execute_search_path` after the channels: assemble to the limit, then filter. The hits are those of the
      page's positions, in rank order, whose facts pass every filter: none twice, none left out. */
  method SearchPath(ranked: Ranked, facts: map<int, Fact>, fts: set<int>, vec: set<int>, q: Filters, now: int,
                    limit: nat)
    returns (hits: seq<Hit>, ghost at: seq<int>, ghost kept: seq<int>)
    requires q.period.None? || q.validAt.None?
    ensures KeptUpTo(ranked, facts, JudgedAt(q, now), |ranked|, at)
    ensures |hits| <= limit && AreHits(hits, kept, ranked, facts, fts, vec)
    ensures forall i, j :: 0 <= i < j < |kept| ==> kept[i] < kept[j]
    ensures forall i :: i in kept <==> i in at[..Min(limit, |at|)] && Wanted(q, facts[ranked[i].0])
  {
    var page;
    page, at := Assemble(ranked, facts, q.Cutoff(now), fts, vec, limit);
    ghost var positions := at[..Min(limit, |at|)];
    hits := PostFilter(page, q);
    hits := hits[..Min(limit, |hits|)];
    ghost var from := RetainSelects(page, AllStages(q));
    kept := SelectedPositions(hits, page, positions, from, q, ranked, facts, fts, vec);
  }

  lemma AcceptsWanted(q: Filters)
    ensures forall f: Fact :: q.Accepts(f) <==> Wanted(q, f)
  {}

  method PostFilter(page: seq<Hit>, q: Filters) returns (hits: seq<Hit>)
    ensures hits == Retain(page, AllStages(q))
  {
    hits := page;
    if q.period.Some? {
      hits := Retain(hits, InPeriod(q.period.value.0, q.period.value.1));
      RetainSame(page, InPeriod(q.period.value.0, q.period.value.1), PeriodStage(q));
    } else {
      RetainAll(page, PeriodStage(q));
    }
    if q.minScore.Some? {
      hits := Retain(hits, AtLeast(q.minScore.value));
      RetainTwice(page, PeriodStage(q), AtLeast(q.minScore.value), FloorStage(q));
    } else {
      RetainSame(page, PeriodStage(q), FloorStage(q));
    }
    if q.pinnedOnly {
      hits := Retain(hits, Pinned());
      RetainTwice(page, FloorStage(q), Pinned(), AllStages(q));
    } else {
      RetainSame(page, FloorStage(q), AllStages(q));
    }
  }

  lemma SelectedPositions(hits: seq<Hit>, page: seq<Hit>, at: seq<int>, from: seq<int>, q: Filters, ranked: Ranked,
                          facts: map<int, Fact>, fts: set<int>, vec: set<int>)
    returns (kept: seq<int>)
    requires AreHits(page, at, ranked, facts, fts, vec) && Selects(hits, page, AllStages(q), from)
    requires forall i, j :: 0 <= i < j < |at| ==> at[i] < at[j]
    ensures AreHits(hits, kept, ranked, facts, fts, vec)
    ensures forall i, j :: 0 <= i < j < |kept| ==> kept[i] < kept[j]
    ensures forall i :: i in kept <==> i in at && Wanted(q, facts[ranked[i].0])
  {
    AcceptsWanted(q);
    kept := seq(|from|, k requires 0 <= k < |from| => at[from[k]]);
    forall i ensures i in kept <==> i in at && q.Accepts(facts[ranked[i].0]) {
      if i in kept {
        var k :| 0 <= k < |kept| && kept[k] == i;
        var p := from[k];
        assert p in from && AllStages(q)(page[p].fact);
      }
      if i in at && q.Accepts(facts[ranked[i].0]) {
        var p :| 0 <= p < |at| && at[p] == i;
        assert AllStages(q)(page[p].fact) && p in from;
        var k :| 0 <= k < |from| && from[k] == p;
        assert kept[k] == i;
      }
    }
  }

  /** The period search does not return every fact that overlaps the period. Among ranked, loaded
      facts the far-future cutoff keeps exactly those with no end of validity. */
  lemma PeriodKeepsIff(ranked: Ranked, facts: map<int, Fact>, q: Filters, now: int, i: nat)
    requires q.period.Some? && q.validAt.None? && i < |ranked| && ranked[i].0 in facts && Dated(facts[ranked[i].0])
    requires forall j :: 0 <= j < i ==> ranked[j].0 != ranked[i].0
    ensures Kept(ranked, facts, q.Cutoff(now), i) <==> facts[ranked[i].0].tInvalid.None?
  {}

  /** A fact valid through the whole period but with a recorded end is ranked, loaded and lost. */
  lemma PeriodMisses(f: Fact) returns (q: Filters, ranked: Ranked, facts: map<int, Fact>)
    requires f.tValid == Some(10) && f.tInvalid == Some(40)
    ensures q.period == Some((20, 30)) && q.validAt.None? && q.Accepts(f)
    ensures |ranked| == 1 && ranked[0].0 in facts && facts[ranked[0].0] == f
    ensures forall now, at :: KeptUpTo(ranked, facts, q.Cutoff(now), |ranked|, at) ==> at == []
  {
    q, ranked, facts := Filters(Some((20, 30)), None, false, None), [(7, 1.0)], map[7 := f];
    forall now, at | KeptUpTo(ranked, facts, q.Cutoff(now), |ranked|, at) ensures at == [] {
      assert |at| > 0 ==> Kept(ranked, facts, q.Cutoff(now), at[0]);
    }
  }

  // ---------- query validation ----------

  datatype Mode = FtsMode | VectorMode | HybridMode

  datatype Query = Query(hasText: bool, hasEmbedding: bool, mode: Option<Mode>, start: Option<int>, end: Option<int>,
                         validAt: Option<int>)
  {
    predicate HasSearch() { hasText || hasEmbedding }

    predicate HasPeriod() { start.Some? || end.Some? }
  }

  /** `validate_memory_query` accepts. */
  predicate Admissible(q: Query) {
    && (q.start.Some? <==> q.end.Some?)
    && !(q.validAt.Some? && q.HasPeriod())
    && (q.mode == Some(FtsMode) ==> q.hasText)
    && (q.mode == Some(VectorMode) ==> q.hasEmbedding)
    && (q.mode == Some(HybridMode) ==> q.hasText && q.hasEmbedding)
  }

  function InferMode(q: Query): Mode {
    if q.mode.Some? then q.mode.value
    else if q.hasText && q.hasEmbedding then HybridMode
    else if q.hasEmbedding then VectorMode
    else FtsMode
  }

  /** An admissible search never opens a channel without its input, and no channel with an input is
      closed unless the caller chose a mode. */
  lemma ChannelsHaveInputs(q: Query)
    requires Admissible(q) && q.HasSearch()
    ensures !InferMode(q).VectorMode? ==> q.hasText
    ensures !InferMode(q).FtsMode? ==> q.hasEmbedding
    ensures q.mode.None? ==> (InferMode(q).HybridMode? <==> q.hasText && q.hasEmbedding)
    ensures q.mode.Some? ==> InferMode(q) == q.mode.value
    ensures (q.start.Some? <==> q.end.Some?) && (q.start.Some? ==> q.validAt.None?)
  {}

  // ---------- the store path ----------

  function Filter(s: seq<Fact>, keep: Fact -> bool): seq<Fact> {
    if s == [] then []
    else
      var n := |s| - 1;
      Filter(s[..n], keep) + if keep(s[n]) then [s[n]] else []
  }

  lemma {:induction false} FilterIs(s: seq<Fact>, keep: Fact -> bool)
    ensures forall f :: f in Filter(s, keep) <==> f in s && keep(f)
    ensures forall f :: keep(f) ==> multiset(Filter(s, keep))[f] == multiset(s)[f]
  {
    if s != [] {
      var n := |s| - 1;
      FilterIs(s[..n], keep);
      assert s == s[..n] + [s[n]];
    }
  }

  function Importance(): Fact -> real { (f: Fact) => f.score }

  ghost predicate BestFirst(s: seq<Fact>) { forall i, j :: 0 <= i < j < |s| ==> s[i].score >= s[j].score }

  lemma {:induction false} ImportanceSorts(s: seq<Fact>)
    ensures BestFirst(SortedBy(s, Importance())) && multiset(SortedBy(s, Importance())) == multiset(s)
  {
    SortedByIs(s, Importance());
    var r := SortedBy(s, Importance());
    forall i, j | 0 <= i < j < |r| ensures r[i].score >= r[j].score {
      assert Importance()(r[i]) >= Importance()(r[j]);
    }
  }

  function OfType(t: FactType): Fact -> bool { (f: Fact) => f.factType == t }

  function ValidAt(cutoff: int): Fact -> bool { (f: Fact) => Passes(f, cutoff) }

  /** Every filter of the query; without a period validity is judged at `validAt`, else now. */
  ghost predicate MeetsAll(q: Filters, t: Option<FactType>, now: int, f: Fact) {
    && Wanted(q, f) && (t == None || t == Some(f.factType))
    && (q.period.None? ==> InForce(f, JudgedAt(q, now)))
  }

  /** The same, as the filters of the code have it. */
  predicate PassesAll(q: Filters, t: Option<FactType>, now: int, f: Fact) {
    && q.Accepts(f) && (t.None? || f.factType == t.value)
    && (q.period.None? ==> Passes(f, if q.validAt.Some? then q.validAt.value else now))
  }

  lemma PassesMeets(q: Filters, t: Option<FactType>, now: int, f: Fact)
    ensures PassesAll(q, t, now, f) <==> MeetsAll(q, t, now, f)
  {}

  /** What the fetching query has already applied: period and type, or the score floor. */
  ghost predicate Fetched(q: Filters, t: Option<FactType>, fetched: seq<Fact>) {
    forall f :: f in fetched ==>
      if q.period.Some? then q.InPeriod(f) && (t == None || t == Some(f.factType))
      else q.minScore.None? || f.score >= q.minScore.value
  }

  /** `execute_store_path` after the fetch: every filter holds of every result, results come best
      first, and no fetched fact that meets the filters and was cut off scores more than one returned. */
  method StorePath(fetched: seq<Fact>, q: Filters, t: Option<FactType>, now: int, limit: nat) returns (r: seq<Fact>)
    requires Fetched(q, t, fetched) && (q.period.None? || q.validAt.None?)
    ensures |r| <= limit && BestFirst(r)
    ensures forall f :: f in r ==> f in fetched && MeetsAll(q, t, now, f)
    ensures forall f :: f in fetched && MeetsAll(q, t, now, f) && f !in r ==>
      |r| == limit && forall g :: g in r ==> f.score <= g.score
  {
    var facts := StoreFilter(fetched, q, t, now);
    ImportanceSorts(facts);
    var sorted := SortedBy(facts, Importance());
    r := sorted[..Min(limit, |sorted|)];
    CutKeepsBest(facts, sorted, Min(limit, |sorted|));
    forall f ensures PassesAll(q, t, now, f) <==> MeetsAll(q, t, now, f) {
      PassesMeets(q, t, now, f);
    }
  }

  method StoreFilter(fetched: seq<Fact>, q: Filters, t: Option<FactType>, now: int) returns (facts: seq<Fact>)
    requires Fetched(q, t, fetched) && (q.period.None? || q.validAt.None?)
    ensures forall f :: f in facts <==> f in fetched && PassesAll(q, t, now, f)
  {
    facts := fetched;
    if q.period.None? {
      var cutoff := if q.validAt.Some? then q.validAt.value else now;
      FilterIs(facts, ValidAt(cutoff));
      facts := Filter(facts, ValidAt(cutoff));
    }
    if q.period.None? && t.Some? {
      FilterIs(facts, OfType(t.value));
      facts := Filter(facts, OfType(t.value));
    }
    if q.period.Some? && q.minScore.Some? {
      FilterIs(facts, AtLeast(q.minScore.value));
      facts := Filter(facts, AtLeast(q.minScore.value));
    }
    if q.pinnedOnly {
      FilterIs(facts, Pinned());
      facts := Filter(facts, Pinned());
    }
  }

  lemma CutKeepsBest(facts: seq<Fact>, sorted: seq<Fact>, n: nat)
    requires multiset(sorted) == multiset(facts) && BestFirst(sorted) && n <= |sorted|
    ensures forall f :: f in sorted[..n] ==> f in facts
    ensures forall f, g :: f in facts && f !in sorted[..n] && g in sorted[..n] ==> f.score <= g.score
    ensures forall f :: f in facts && f !in sorted[..n] ==> n < |sorted|
  {
    forall f | f in sorted[..n] ensures f in facts {
      assert f in sorted && f in multiset(sorted);
    }
    forall k | 0 <= k < n ensures sorted[k] in sorted[..n] {
      assert sorted[..n][k] == sorted[k];
    }
    forall f | f in facts && f !in sorted[..n]
      ensures n < |sorted| && forall g :: g in sorted[..n] ==> f.score <= g.score
    {
      assert f in multiset(sorted) && f in sorted;
      var i :| 0 <= i < |sorted| && sorted[i] == f;
      assert i >= n;
      forall g | g in sorted[..n] ensures f.score <= g.score {
        var j :| 0 <= j < n && sorted[j] == g;
      }
    }
  }
}
