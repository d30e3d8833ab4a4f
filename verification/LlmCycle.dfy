/** The LLM dream cycle (crates/me-cognitive/src/llm_impl.rs).

    The proposer is untrusted: its merge groups are arbitrary. `MergedIff` characterizes what
    survives the clamp, `MergesAreSafe` gives the shape of the groups, and `AcceptedIff` shows
    that a report on an active window can be refused only for its own new facts.
  */
module LlmCycle {
  import opened Collections
  import opened MemoryStore
  import opened CycleReports

  datatype Group = Group(sourceIds: seq<int>, summary: string)

  /** A group that is emitted: its index in the proposal and what the synthesis is built from. */
  datatype Merge = Merge(group: nat, sources: seq<int>, scopeId: int, importance: real)

  /** The embedder's answer for the summary of a group; none on failure. */
  type Embedder = (nat, string) -> Option<seq<real>>

  // ---------- the plan ----------

  /** The first occurrences of the allowed ids, in order. */
  function Clamp(ids: seq<int>, allowed: set<int>): seq<int>
    decreases |ids|
  {
    if ids == [] then []
    else
      var before, last := Clamp(ids[..|ids| - 1], allowed), ids[|ids| - 1];
      if last in allowed && last !in before then before + [last] else before
  }

  lemma {:induction false} ClampIs(ids: seq<int>, allowed: set<int>)
    ensures Elements(Clamp(ids, allowed)) == Elements(ids) * allowed && Distinct(Clamp(ids, allowed))
    decreases |ids|
  {
    if ids != [] {
      var init, last := ids[..|ids| - 1], ids[|ids| - 1];
      ClampIs(init, allowed);
      assert ids == init + [last];
      assert Elements(ids) == Elements(init) + {last};
      var before := Clamp(init, allowed);
      assert last in before <==> last in Elements(before);
      assert Elements(before + [last]) == Elements(before) + {last};
    }
  }

  predicate Known(byId: Facts, ids: seq<int>) { forall k :: 0 <= k < |ids| ==> ids[k] in byId }

  predicate OneScope(byId: Facts, ids: seq<int>)
    requires Known(byId, ids)
  {
    forall i :: 0 <= i < |ids| ==> byId[ids[i]].scopeId == byId[ids[0]].scopeId
  }

  function Max(x: real, y: real): real { if x < y then y else x }

  /** `fold(0.0, max)` over the sources' importance. */
  function Strongest(byId: Facts, ids: seq<int>): real
    requires Known(byId, ids)
  {
    if ids == [] then 0.0 else Max(Strongest(byId, ids[..|ids| - 1]), byId[ids[|ids| - 1]].base)
  }

  function Claimed(ms: seq<Merge>): (r: set<int>)
  {
    if ms == [] then {} else Claimed(ms[..|ms| - 1]) + Elements(ms[|ms| - 1].sources)
  }

  /** What is left of a group once earlier merges have taken their sources. */
  function Left(byId: Facts, g: Group, before: seq<Merge>): (r: seq<int>)
    ensures Distinct(r) && Known(byId, r) && Elements(r) == Elements(g.sourceIds) * (byId.Keys - Claimed(before))
  {
    ClampIs(g.sourceIds, byId.Keys - Claimed(before));
    KnownFrom(byId, Clamp(g.sourceIds, byId.Keys - Claimed(before)));
    Clamp(g.sourceIds, byId.Keys - Claimed(before))
  }

  lemma KnownFrom(byId: Facts, ids: seq<int>)
    requires Elements(ids) <= byId.Keys
    ensures Known(byId, ids)
  {
    forall k | 0 <= k < |ids| ensures ids[k] in byId {
      var id := ids[k];
      assert id in ids && id in Elements(ids);
    }
  }

  predicate Emitted(byId: Facts, left: seq<int>)
    requires Known(byId, left)
  {
    left != [] && OneScope(byId, left)
  }

  /** The merges of the first `n` groups. */
  function Merges(byId: Facts, groups: seq<Group>, n: nat): seq<Merge>
    requires n <= |groups|
  {
    if n == 0 then []
    else
      var before := Merges(byId, groups, n - 1);
      var left := Left(byId, groups[n - 1], before);
      if Emitted(byId, left)
      then before + [Merge(n - 1, left, byId[left[0]].scopeId, Strongest(byId, left))]
      else before
  }

  function NewFact(content: string, embedding: seq<real>, m: Merge, now: int): Fact {
    Fact(content, embedding, Semantic, m.scopeId, false, false, m.importance, 0.0, 0, now, now, None, None, None)
  }

  // ---------- the cycle ----------

  method ClampGroup(ids: seq<int>, byId: set<int>, consumed: set<int>) returns (sources: seq<int>)
    ensures sources == Clamp(ids, byId - consumed)
  {
    sources := [];
    var localSeen: set<int> := {};
    for k := 0 to |ids|
      invariant sources == Clamp(ids[..k], byId - consumed) && localSeen == Elements(sources)
    {
      assert ids[..k + 1][..k] == ids[..k];
      var id := ids[k];
      if id in byId && id !in consumed && id !in localSeen {
        localSeen := localSeen + {id};
        sources := sources + [id];
      }
    }
    assert ids[..|ids|] == ids;
  }

  method Importance(byId: Facts, sources: seq<int>) returns (importance: real)
    requires Known(byId, sources)
    ensures importance == Strongest(byId, sources)
  {
    importance := 0.0;
    for k := 0 to |sources|
      invariant importance == Strongest(byId, sources[..k])
    {
      assert sources[..k + 1][..k] == sources[..k];
      importance := Max(importance, byId[sources[k]].base);
    }
    assert sources[..|sources|] == sources;
  }

  /** `ms` adds to `first` only merges of groups from `n` on. */
  ghost predicate Extends(first: seq<Merge>, ms: seq<Merge>, n: nat) {
    first <= ms && forall i :: |first| <= i < |ms| ==> ms[i].group >= n
  }

  lemma ExtendsFurther(first: seq<Merge>, mid: seq<Merge>, ms: seq<Merge>, n: nat, m: nat)
    requires Extends(first, mid, n) && Extends(mid, ms, m) && n <= m
    ensures Extends(first, ms, n)
  {
    forall i | |first| <= i < |ms| ensures ms[i].group >= n {
      assert i < |mid| ==> ms[i] == mid[i];
    }
  }

  lemma {:induction false} MergesExtend(byId: Facts, groups: seq<Group>, n: nat, m: nat)
    requires n <= m <= |groups|
    ensures Extends(Merges(byId, groups, n), Merges(byId, groups, m), n)
    decreases m - n
  {
    if n < m {
      MergesExtend(byId, groups, n + 1, m);
      OneExtends(byId, groups, n);
      ExtendsFurther(Merges(byId, groups, n), Merges(byId, groups, n + 1), Merges(byId, groups, m), n, n + 1);
    }
  }

  lemma {:induction false} OneExtends(byId: Facts, groups: seq<Group>, n: nat)
    requires n < |groups|
    ensures Extends(Merges(byId, groups, n), Merges(byId, groups, n + 1), n)
  {}

  ghost predicate IsRendering(d: Delta, m: Merge, groups: seq<Group>, embed: Embedder, now: int) {
    && m.group < |groups| && embed(m.group, groups[m.group].summary).Some?
    && d == Synthesize(
         m.sources, NewFact(groups[m.group].summary, embed(m.group, groups[m.group].summary).value, m, now))
  }

  /** The delta of each merge, with the vector its embedder call returned. */
  ghost predicate Renders(deltas: seq<Delta>, ms: seq<Merge>, groups: seq<Group>, embed: Embedder, now: int) {
    |deltas| == |ms| && forall i :: 0 <= i < |ms| ==> IsRendering(deltas[i], ms[i], groups, embed, now)
  }

  ghost predicate EmbedFails(ms: seq<Merge>, groups: seq<Group>, embed: Embedder) {
    exists i :: 0 <= i < |ms| && ms[i].group < |groups| && embed(ms[i].group, groups[ms[i].group].summary).None?
  }

  lemma {:induction false} EmitsNext(byId: Facts, groups: seq<Group>, k: nat, merges: seq<Merge>, m: Merge)
    requires k < |groups| && merges == Merges(byId, groups, k) && m.group == k
    requires m.sources == Left(byId, groups[k], merges) && Emitted(byId, m.sources)
    requires m.scopeId == byId[m.sources[0]].scopeId && m.importance == Strongest(byId, m.sources)
    ensures Merges(byId, groups, k + 1) == merges + [m]
    ensures Claimed(merges + [m]) == Claimed(merges) + Elements(m.sources)
  {
    assert (merges + [m])[..|merges|] == merges;
  }

  /** A failed embedding of a merge that has just been emitted fails the run. */
  lemma {:induction false} FailsForGood(byId: Facts, groups: seq<Group>, k: nat, merges: seq<Merge>, m: Merge,
                                        embed: Embedder)
    requires k < |groups| && Merges(byId, groups, k + 1) == merges + [m]
    requires m.group == k && embed(k, groups[k].summary).None?
    ensures EmbedFails(Merges(byId, groups, |groups|), groups, embed)
  {
    MergesExtend(byId, groups, k + 1, |groups|);
    assert Merges(byId, groups, |groups|)[|merges|] == m;
  }

  lemma RendersNext(log: seq<Delta>, ms: seq<Merge>, groups: seq<Group>, embed: Embedder, now: int, d: Delta, m: Merge)
    requires Renders(log, ms, groups, embed, now) && IsRendering(d, m, groups, embed, now)
    ensures Renders(log + [d], ms + [m], groups, embed, now)
  {}

  /** None exactly when an emitted group's embedding failed, else one synthesis per merge. */
  ghost predicate IsOutcome(byId: Facts, groups: seq<Group>, embed: Embedder, now: int, deltas: Option<seq<Delta>>) {
    && (deltas.None? <==> EmbedFails(Merges(byId, groups, |groups|), groups, embed))
    && (deltas.Some? ==> Renders(deltas.value, Merges(byId, groups, |groups|), groups, embed, now))
  }

  lemma RenderedNeverFails(log: seq<Delta>, ms: seq<Merge>, groups: seq<Group>, embed: Embedder, now: int)
    requires Renders(log, ms, groups, embed, now)
    ensures !EmbedFails(ms, groups, embed)
  {}

  /** One group of the loop: clamp, scope rule, importance. */
  method MergeGroup(byId: Facts, groups: seq<Group>, k: nat, consumed: set<int>, ghost before: seq<Merge>)
    returns (m: Option<Merge>)
    requires k < |groups| && before == Merges(byId, groups, k) && consumed == Claimed(before)
    ensures m.Some? ==> m.value.group == k && Claimed(before + [m.value]) == consumed + Elements(m.value.sources)
    ensures Merges(byId, groups, k + 1) == if m.Some? then before + [m.value] else before
  {
    var sources := ClampGroup(groups[k].sourceIds, byId.Keys, consumed);
    assert sources == Left(byId, groups[k], before);
    if sources == [] || !OneScope(byId, sources) {
      return None;
    }
    var importance := Importance(byId, sources);
    m := Some(Merge(k, sources, byId[sources[0]].scopeId, importance));
    EmitsNext(byId, groups, k, before, m.value);
  }

  /** The cycle's loop over the proposal. Only emitted groups are embedded, and one failed
      embedding fails the run. */
  method Run(db: Db, window: seq<int>, groups: seq<Group>, embed: Embedder, now: int)
    returns (deltas: Option<seq<Delta>>, ghost from: seq<nat>)
    requires ActiveWindow(db, window)
    ensures IsOutcome(ById(db, window), groups, embed, now, deltas)
    ensures deltas.Some? ==> Consolidation(db, window, groups, embed, now, deltas.value, from)
    ensures deltas.None? ==> exists k :: 0 <= k < |groups| && embed(k, groups[k].summary).None?
  {
    var byId, consumed, log := ById(db, window), {}, [];
    ghost var merges: seq<Merge> := [];
    for k := 0 to |groups|
      invariant merges == Merges(byId, groups, k) && consumed == Claimed(merges)
      invariant Renders(log, merges, groups, embed, now)
    {
      var merge := MergeGroup(byId, groups, k, consumed, merges);
      if merge.Some? {
        var m := merge.value;
        var vector := embed(k, groups[k].summary);
        if vector.None? {
          FailsForGood(byId, groups, k, merges, m, embed);
          return None, [];
        }
        var d := Synthesize(m.sources, NewFact(groups[k].summary, vector.value, m, now));
        RendersNext(log, merges, groups, embed, now, d, m);
        consumed := consumed + Elements(m.sources);
        log := log + [d];
        merges := merges + [m];
      }
    }
    RenderedNeverFails(log, merges, groups, embed, now);
    deltas := Some(log);
    from := RenderedConsolidates(db, window, groups, embed, now, log);
  }

  // ---------- what survives ----------

  lemma {:induction false} StrongestIs(byId: Facts, ids: seq<int>)
    requires Known(byId, ids)
    ensures forall k :: 0 <= k < |ids| ==> byId[ids[k]].base <= Strongest(byId, ids)
    ensures 0.0 <= Strongest(byId, ids)
    ensures Strongest(byId, ids) > 0.0 ==> exists k :: 0 <= k < |ids| && byId[ids[k]].base == Strongest(byId, ids)
  {
    if ids != [] {
      var init, last := ids[..|ids| - 1], ids[|ids| - 1];
      StrongestIs(byId, init);
      assert forall k :: 0 <= k < |init| ==> ids[k] == init[k];
    }
  }

  /** A merge is non-empty and duplicate-free, stays in the window and its own group, does not
      cross scopes, and carries its sources' strongest importance. */
  ghost predicate Safe(byId: Facts, groups: seq<Group>, m: Merge) {
    && m.group < |groups| && m.sources != [] && Distinct(m.sources)
    && Elements(m.sources) <= byId.Keys * Elements(groups[m.group].sourceIds)
    && Known(byId, m.sources)
    && (forall k :: 0 <= k < |m.sources| ==>
          byId[m.sources[k]].scopeId == m.scopeId && byId[m.sources[k]].base <= m.importance)
    && 0.0 <= m.importance
    && (m.importance > 0.0 ==> exists k :: 0 <= k < |m.sources| && byId[m.sources[k]].base == m.importance)
  }

  /** What group `n` adds. */
  ghost function Added(byId: Facts, groups: seq<Group>, n: nat): (r: Option<Merge>)
    requires n < |groups|
    ensures Merges(byId, groups, n + 1) == Merges(byId, groups, n) + if r.Some? then [r.value] else []
  {
    var before, after := Merges(byId, groups, n), Merges(byId, groups, n + 1);
    if |after| == |before| then None else Some(after[|before|])
  }

  lemma {:induction false} AddedIs(byId: Facts, groups: seq<Group>, n: nat, left: seq<int>)
    requires n < |groups| && left == Left(byId, groups[n], Merges(byId, groups, n))
    ensures Added(byId, groups, n).Some? <==> Emitted(byId, left)
    ensures Added(byId, groups, n).Some? ==>
      var m := Added(byId, groups, n).value; m.group == n && m.sources == left && Safe(byId, groups, m)
  {
    StrongestIs(byId, left);
  }

  lemma {:induction false} ClaimedIs(ms: seq<Merge>, id: int)
    ensures id in Claimed(ms) <==> exists i :: 0 <= i < |ms| && id in ms[i].sources
  {
    if ms != [] {
      var init, last := ms[..|ms| - 1], ms[|ms| - 1];
      ClaimedIs(init, id);
      assert ms == init + [last];
      assert id in Elements(last.sources) <==> id in last.sources;
      if i :| 0 <= i < |init| && id in init[i].sources {
        assert ms[i] == init[i];
      }
    }
  }

  ghost predicate Ascending(ms: seq<Merge>) { forall i, j :: 0 <= i < j < |ms| ==> ms[i].group < ms[j].group }

  ghost predicate Disjoint(ms: seq<Merge>) {
    forall i, j :: 0 <= i < j < |ms| ==> Elements(ms[i].sources) !! Elements(ms[j].sources)
  }

  /** For any proposal: every merge is safe, merges come in group order, and no id is in two of them. */
  lemma {:induction false} MergesAreSafe(byId: Facts, groups: seq<Group>, n: nat)
    requires n <= |groups|
    ensures Ascending(Merges(byId, groups, n)) && Disjoint(Merges(byId, groups, n))
    ensures forall m :: m in Merges(byId, groups, n) ==> Safe(byId, groups, m) && m.group < n
  {
    if n > 0 {
      MergesAreSafe(byId, groups, n - 1);
      var before := Merges(byId, groups, n - 1);
      AddedIs(byId, groups, n - 1, Left(byId, groups[n - 1], before));
      var added := Added(byId, groups, n - 1);
      if added.Some? {
        OneMore(before, added.value);
      }
    }
  }

  lemma {:induction false} OneMore(before: seq<Merge>, m: Merge)
    requires Ascending(before) && Disjoint(before) && Elements(m.sources) !! Claimed(before)
    requires forall b :: b in before ==> b.group < m.group
    ensures Ascending(before + [m]) && Disjoint(before + [m])
  {
    forall i | 0 <= i < |before|
      ensures before[i].group < m.group && Elements(before[i].sources) !! Elements(m.sources)
    {
      assert before[i] in before;
      forall id | id in Elements(before[i].sources) ensures id !in Elements(m.sources) {
        ClaimedIs(before, id);
      }
    }
  }

  /** The ids a group names that are in the window and that no earlier group's merge has taken. */
  ghost function Open(window: set<int>, groups: seq<Group>, ms: seq<Merge>, k: nat): set<int>
    requires k < |groups|
  {
    set id | id in groups[k].sourceIds && id in window
      && forall i :: 0 <= i < |ms| && ms[i].group < k ==> id !in ms[i].sources
  }

  ghost predicate SameScope(byId: Facts, ids: set<int>)
    requires ids <= byId.Keys
  {
    forall a, b :: a in ids && b in ids ==> byId[a].scopeId == byId[b].scopeId
  }

  /** Exactly what is merged: group `k` is emitted when its open ids are non-empty and of one
      scope, and then takes all of them. A group that is skipped takes nothing from later ones. */
  lemma {:induction false} MergedIff(byId: Facts, groups: seq<Group>, k: nat, ms: seq<Merge>)
    requires k < |groups| && ms == Merges(byId, groups, |groups|)
    ensures (exists m :: m in ms && m.group == k) <==>
      Open(byId.Keys, groups, ms, k) != {} && SameScope(byId, Open(byId.Keys, groups, ms, k))
    ensures forall m :: m in ms && m.group == k ==> Elements(m.sources) == Open(byId.Keys, groups, ms, k)
  {
    var before := Merges(byId, groups, k);
    var left := Left(byId, groups[k], before);
    MergesAreSafe(byId, groups, k);
    AddedIs(byId, groups, k, left);
    MergesExtend(byId, groups, k + 1, |groups|);
    var added := Added(byId, groups, k);
    OnlyFrom(ms, before, added, k);
    OpenIsLeft(byId.Keys, groups, ms, before, k, left);
    ScopeAgrees(byId, left);
  }

  /** Among all merges, those of group `k` are what that group added. */
  lemma OnlyFrom(ms: seq<Merge>, before: seq<Merge>, added: Option<Merge>, k: nat)
    requires forall m :: m in before ==> m.group < k
    requires added.Some? ==> added.value.group == k
    requires before + (if added.Some? then [added.value] else []) <= ms
    requires forall i :: |before| + (if added.Some? then 1 else 0) <= i < |ms| ==> ms[i].group > k
    ensures forall m :: m in ms && m.group == k <==> added == Some(m)
    ensures before <= ms && forall i :: 0 <= i < |ms| && ms[i].group < k <==> 0 <= i < |before|
  {
    forall i | 0 <= i < |before| ensures ms[i].group < k {
      assert before[i] in before && ms[i] == before[i];
    }
    if added.Some? {
      assert ms[|before|] == added.value;
    }
  }

  lemma ScopeAgrees(byId: Facts, left: seq<int>)
    requires Known(byId, left) && Elements(left) <= byId.Keys
    ensures Emitted(byId, left) <==> Elements(left) != {} && SameScope(byId, Elements(left))
  {
    forall i | 0 <= i < |left| && SameScope(byId, Elements(left))
      ensures byId[left[i]].scopeId == byId[left[0]].scopeId
    {
      var a, b := left[i], left[0];
      assert a in left && b in left && a in Elements(left) && b in Elements(left);
    }
    forall a | left != [] && OneScope(byId, left) && a in Elements(left)
      ensures byId[a].scopeId == byId[left[0]].scopeId
    {
      var k :| 0 <= k < |left| && left[k] == a;
    }
    if left != [] {
      var first := left[0];
      assert first in left && first in Elements(left);
    }
  }

  lemma {:induction false} OpenIsLeft(window: set<int>, groups: seq<Group>, ms: seq<Merge>, before: seq<Merge>, k: nat,
                                      left: seq<int>)
    requires k < |groups| && Elements(left) == Elements(groups[k].sourceIds) * (window - Claimed(before))
    requires before <= ms && forall i :: 0 <= i < |ms| && ms[i].group < k <==> 0 <= i < |before|
    ensures Open(window, groups, ms, k) == Elements(left)
  {
    forall id ensures id in Open(window, groups, ms, k) <==> id in Elements(left) {
      ClaimedIs(before, id);
    }
  }

  // ---------- the deltas themselves ----------

  /** The delta merges facts of the window that group `k` names, all of one scope, into a fact of that scope:
      an unpinned, unmarked, active Semantic fact made now, of the group's summary and the vector embedded
      for it, as important as the most important source. */
  ghost predicate Consolidates(
    db: Db, window: seq<int>, groups: seq<Group>, k: nat, embed: Embedder, now: int, d: Delta
  )
  {
    && k < |groups| && d.Synthesize? && d.sources != [] && Distinct(d.sources)
    && embed(k, groups[k].summary).Some?
    && d.fact == Fact(groups[k].summary, embed(k, groups[k].summary).value, Semantic, d.fact.scopeId, false, false,
                      d.fact.base, 0.0, 0, now, now, None, None, None)
    && (forall id :: id in d.sources ==>
          && id in window && id in groups[k].sourceIds && id in db.facts
          && db.facts[id].scopeId == d.fact.scopeId && db.facts[id].base <= d.fact.base)
    && (d.fact.base == 0.0
        || (d.fact.base > 0.0 && exists id :: id in d.sources && id in db.facts && db.facts[id].base == d.fact.base))
  }

  /** The ids of the window that group `k` names and that no delta of an earlier group has taken. */
  ghost function Unclaimed(window: seq<int>, groups: seq<Group>, deltas: seq<Delta>, from: seq<nat>, k: nat): set<int>
    requires k < |groups| && |from| == |deltas| && forall i :: 0 <= i < |deltas| ==> deltas[i].Synthesize?
  {
    set id | id in groups[k].sourceIds && id in window
      && forall i :: 0 <= i < |from| && from[i] < k ==> id !in deltas[i].sources
  }

  ghost predicate InOneScope(db: Db, ids: set<int>) {
    forall a, b :: a in ids && b in ids ==> a in db.facts && b in db.facts && db.facts[a].scopeId == db.facts[b].scopeId
  }

  /** Delta `i` comes of group `from[i]`, in proposal order. A group gives one exactly when the ids it can
      still claim are not none and of one scope, and it takes all of them. */
  ghost predicate Consolidation(
    db: Db, window: seq<int>, groups: seq<Group>, embed: Embedder, now: int, deltas: seq<Delta>, from: seq<nat>
  )
  {
    && |from| == |deltas|
    && (forall i, j :: 0 <= i < j < |from| ==> from[i] < from[j])
    && (forall i :: 0 <= i < |from| ==> Consolidates(db, window, groups, from[i], embed, now, deltas[i]))
    && (forall k :: 0 <= k < |groups| ==>
          var open := Unclaimed(window, groups, deltas, from, k);
          k in from <==> open != {} && InOneScope(db, open))
    && forall i :: 0 <= i < |from| ==> Elements(deltas[i].sources) == Unclaimed(window, groups, deltas, from, from[i])
  }

  lemma {:induction false} RenderedConsolidates(db: Db, window: seq<int>, groups: seq<Group>, embed: Embedder, now: int,
                                                deltas: seq<Delta>)
    returns (from: seq<nat>)
    requires ActiveWindow(db, window)
    requires Renders(deltas, Merges(ById(db, window), groups, |groups|), groups, embed, now)
    ensures Consolidation(db, window, groups, embed, now, deltas, from)
  {
    var byId := ById(db, window);
    var ms := Merges(byId, groups, |groups|);
    from := seq(|ms|, i requires 0 <= i < |ms| => ms[i].group);
    MergesAreSafe(byId, groups, |groups|);
    forall i | 0 <= i < |from| ensures Consolidates(db, window, groups, from[i], embed, now, deltas[i]) {
      assert ms[i] in ms;
      SafeConsolidates(db, window, groups, embed, now, deltas[i], ms[i]);
    }
    forall k | 0 <= k < |groups|
      ensures var open := Unclaimed(window, groups, deltas, from, k);
        k in from <==> open != {} && InOneScope(db, open)
      ensures forall i :: 0 <= i < |from| && from[i] == k ==>
        Elements(deltas[i].sources) == Unclaimed(window, groups, deltas, from, k)
    {
      GroupClaims(db, window, groups, k, ms, deltas, from);
    }
  }

  lemma {:induction false} GroupClaims(db: Db, window: seq<int>, groups: seq<Group>, k: nat, ms: seq<Merge>,
                                       deltas: seq<Delta>, from: seq<nat>)
    requires ActiveWindow(db, window) && ms == Merges(ById(db, window), groups, |groups|) && k < |groups|
    requires |from| == |deltas| == |ms|
    requires forall i :: 0 <= i < |ms| ==>
      deltas[i].Synthesize? && deltas[i].sources == ms[i].sources && from[i] == ms[i].group
    ensures var open := Unclaimed(window, groups, deltas, from, k);
      k in from <==> open != {} && InOneScope(db, open)
    ensures forall i :: 0 <= i < |from| && from[i] == k ==>
      Elements(deltas[i].sources) == Unclaimed(window, groups, deltas, from, k)
  {
    var byId := ById(db, window);
    MergedIff(byId, groups, k, ms);
    var open := Open(byId.Keys, groups, ms, k);
    assert Unclaimed(window, groups, deltas, from, k) == open;
    assert InOneScope(db, open) <==> SameScope(byId, open);
    forall i | 0 <= i < |from| && from[i] == k ensures Elements(deltas[i].sources) == open {
      assert ms[i] in ms;
    }
    if m :| m in ms && m.group == k {
      var i :| 0 <= i < |ms| && ms[i] == m;
      assert from[i] == k;
    }
  }

  lemma {:induction false} SafeConsolidates(db: Db, window: seq<int>, groups: seq<Group>, embed: Embedder, now: int,
                                            d: Delta, m: Merge)
    requires ActiveWindow(db, window) && Safe(ById(db, window), groups, m) && IsRendering(d, m, groups, embed, now)
    ensures Consolidates(db, window, groups, m.group, embed, now, d)
  {
    forall id | id in d.sources
      ensures id in window && id in groups[m.group].sourceIds && id in db.facts
      ensures db.facts[id].scopeId == d.fact.scopeId && db.facts[id].base <= d.fact.base
    {
      assert id in Elements(m.sources);
      var k :| 0 <= k < |m.sources| && m.sources[k] == id;
      assert ById(db, window)[m.sources[k]] == db.facts[id];
    }
    if d.fact.base > 0.0 {
      var k :| 0 <= k < |m.sources| && ById(db, window)[m.sources[k]].base == m.importance;
      var id := m.sources[k];
      assert id in d.sources && db.facts[id].base == d.fact.base;
    }
  }

  // ---------- the report applies ----------

  predicate NewFactError(e: Error) { e == EmbeddingDimension || e == PolicyParameter || e == PayloadTooLarge }

  ghost predicate MergesOnly(db: Db, deltas: seq<Delta>, gone: set<int>) {
    && (forall i :: 0 <= i < |deltas| ==>
          deltas[i].Synthesize? && deltas[i].sources != [] && SourcesOk(db, gone, deltas[i].sources))
    && (forall i, j, id :: 0 <= i < j < |deltas| && id in deltas[i].sources ==> id !in deltas[j].sources)
  }

  lemma PeelMerges(db: Db, deltas: seq<Delta>, gone: set<int>)
    requires MergesOnly(db, deltas, gone) && deltas != []
    ensures MergesOnly(db, deltas[1..], gone + Elements(deltas[0].sources))
  {
    var rest, more := deltas[1..], gone + Elements(deltas[0].sources);
    forall i | 0 <= i < |rest|
      ensures rest[i].Synthesize? && rest[i].sources != [] && SourcesOk(db, more, rest[i].sources)
    {
      assert rest[i] == deltas[i + 1];
      forall k | 0 <= k < |rest[i].sources| ensures rest[i].sources[k] !in more {
        var id := rest[i].sources[k];
        assert id in rest[i].sources && id !in deltas[0].sources;
      }
    }
    forall i, j, id | 0 <= i < j < |rest| && id in rest[i].sources ensures id !in rest[j].sources {
      assert rest[i] == deltas[i + 1] && rest[j] == deltas[j + 1];
    }
  }

  lemma {:induction false} MergesVerdict(db: Db, lim: Limits, gone: set<int>, deltas: seq<Delta>)
    requires MergesOnly(db, deltas, gone)
    ensures var r := ValidateLog(db, lim, gone, deltas);
      && (r.Ok? <==> forall i :: 0 <= i < |deltas| ==> Storable(lim, deltas[i].fact))
      && (r.Err? ==> NewFactError(r.error))
    decreases |deltas|
  {
    if deltas != [] {
      var d, rest := deltas[0], deltas[1..];
      SourcesVerdict(db, gone, d.sources);
      PeelMerges(db, deltas, gone);
      MergesVerdict(db, lim, gone + Elements(d.sources), rest);
      assert forall i :: 0 <= i < |rest| ==> rest[i] == deltas[i + 1];
      assert forall i :: 0 < i < |deltas| ==> deltas[i] == rest[i - 1];
    }
  }

  lemma RenderedMerges(db: Db, byId: Facts, ms: seq<Merge>, groups: seq<Group>, embed: Embedder, now: int,
                       deltas: seq<Delta>)
    requires Renders(deltas, ms, groups, embed, now) && Disjoint(ms) && forall id :: id in byId ==> db.Has(id)
    requires forall m :: m in ms ==> m.sources != [] && Distinct(m.sources) && Known(byId, m.sources)
    ensures MergesOnly(db, deltas, {})
  {
    forall i | 0 <= i < |deltas|
      ensures deltas[i].Synthesize? && deltas[i].sources != [] && SourcesOk(db, {}, deltas[i].sources)
    {
      assert ms[i] in ms && deltas[i].sources == ms[i].sources;
    }
    forall i, j, id | 0 <= i < j < |deltas| && id in deltas[i].sources ensures id !in deltas[j].sources {
      assert id in Elements(ms[i].sources) && Elements(ms[i].sources) !! Elements(ms[j].sources);
    }
  }

  /** Whatever the proposer returned, the report on an active window is accepted exactly when
      every new fact is itself admissible, and is never refused as unknown, already expired or
      without sources. */
  lemma {:induction false} AcceptedIff(db: Db, lim: Limits, window: seq<int>, groups: seq<Group>, embed: Embedder,
                                       now: int, r: Report)
    requires ActiveWindow(db, window) && r.processed == window
    requires Renders(r.deltas, Merges(ById(db, window), groups, |groups|), groups, embed, now)
    ensures ValidateReport(db, lim, r).None? <==>
      forall i :: 0 <= i < |r.deltas| ==> r.deltas[i].Synthesize? && Storable(lim, r.deltas[i].fact)
    ensures ValidateReport(db, lim, r).Some? ==> NewFactError(ValidateReport(db, lim, r).value)
  {
    var ms := Merges(ById(db, window), groups, |groups|);
    MergesAreSafe(ById(db, window), groups, |groups|);
    RenderedMerges(db, ById(db, window), ms, groups, embed, now, r.deltas);
    MergesVerdict(db, lim, {}, r.deltas);
    FirstUnknownIs(db, window);
  }

  /** Bases of at most 1, one dimension, summaries that fit. */
  ghost predicate InputsFit(byId: Facts, lim: Limits, groups: seq<Group>, embed: Embedder) {
    && (forall id :: id in byId ==> byId[id].base <= 1.0)
    && (forall k :: 0 <= k < |groups| ==> lim.fits(groups[k].summary))
    && (forall k, text :: embed(k, text).Some? ==> |embed(k, text).value| == lim.dim)
  }

  lemma NewFactsFit(byId: Facts, lim: Limits, groups: seq<Group>, embed: Embedder, now: int, ms: seq<Merge>,
                    deltas: seq<Delta>)
    requires InputsFit(byId, lim, groups, embed) && Renders(deltas, ms, groups, embed, now)
    requires forall m :: m in ms ==> Safe(byId, groups, m)
    ensures forall i :: 0 <= i < |deltas| ==> deltas[i].Synthesize? && Storable(lim, deltas[i].fact)
  {
    forall i | 0 <= i < |deltas| ensures deltas[i].Synthesize? && Storable(lim, deltas[i].fact) {
      var m := ms[i];
      assert m in ms;
      StrengthFits(byId, groups, m);
    }
  }

  lemma StrengthFits(byId: Facts, groups: seq<Group>, m: Merge)
    requires Safe(byId, groups, m) && forall id :: id in byId ==> byId[id].base <= 1.0
    ensures 0.0 <= m.importance <= 1.0
  {
    if m.importance > 0.0 {
      var k :| 0 <= k < |m.sources| && byId[m.sources[k]].base == m.importance;
      var id := m.sources[k];
      assert id in byId && byId[id].base <= 1.0;
    }
  }

  /** With inputs that fit, whatever was proposed is accepted, and applying the report leaves
      nothing of its window for the guard to defer to again. */
  lemma {:induction false} NoLivelock(db: Db, lim: Limits, window: seq<int>, groups: seq<Group>, embed: Embedder,
                                      now: int, r: Report)
    returns (done: Applied)
    requires db.WellFormed() && Dimensioned(db, lim.dim) && ActiveWindow(db, window) && r.processed == window
    requires InputsFit(ById(db, window), lim, groups, embed)
    requires Renders(r.deltas, Merges(ById(db, window), groups, |groups|), groups, embed, now)
    ensures ApplyReport(db, lim, true, r, now) == Ok(done)
    ensures CallerWrittenIds(done.db) !! Elements(window) && CallerWrittenIds(done.db) <= CallerWrittenIds(db)
  {
    var byId := ById(db, window);
    MergesAreSafe(byId, groups, |groups|);
    NewFactsFit(byId, lim, groups, embed, now, Merges(byId, groups, |groups|), r.deltas);
    AcceptedIff(db, lim, window, groups, embed, now, r);
    done := Settles(db, lim, r, now);
  }

  lemma Settles(db: Db, lim: Limits, r: Report, now: int) returns (done: Applied)
    requires db.WellFormed() && Dimensioned(db, lim.dim) && ValidateReport(db, lim, r).None?
    ensures ApplyReport(db, lim, true, r, now) == Ok(done)
    ensures CallerWrittenIds(done.db) !! Elements(r.processed) && CallerWrittenIds(done.db) <= CallerWrittenIds(db)
  {
    var log := AppliesCleanly(db, lim, r, now);
    done := ApplyReport(db, lim, true, r, now).value;
    InvariantM(db, lim, r, now, done);
  }
}
