/** Archive search (crates/me-archive/src/search.rs): a scan of every pak that keeps the best
    `limit` matches in a size-bounded min-heap.

    `TopScoresRefine` states what the bounded heap must agree with: sorting every match by
    descending score and truncating. Scores agree position by position; only which of two
    equal-scored matches survives is left open, as the source documents.
  */
module ArchiveSearch {
  import opened Collections
  import opened MemoryStore

  datatype Hit = Hit(fact: Fact, score: real)

  // ---------- the heap ----------

  function Parent(k: nat): nat
    requires k > 0
  {
    (k - 1) / 2
  }

  /** No entry below `size` scores less than its parent. */
  ghost predicate HeapTo(data: seq<Hit>, size: nat) {
    size <= |data| && forall k :: 0 < k < size ==> data[Parent(k)].score <= data[k].score
  }

  function Swap(s: seq<Hit>, i: nat, j: nat): (r: seq<Hit>)
    requires i < |s| && j < |s|
    ensures |r| == |s| && multiset(r) == multiset(s)
    ensures forall k :: 0 <= k < |s| ==> r[k] == if k == i then s[j] else if k == j then s[i] else s[k]
  {
    s[i := s[j]][j := s[i]]
  }

  /** A heap except that `at` may score less than its parent. */
  ghost predicate UpHole(data: seq<Hit>, at: nat) {
    && at < |data|
    && (forall k :: 0 < k < |data| && k != at ==> data[Parent(k)].score <= data[k].score)
    && (forall k :: 0 < k < |data| && at > 0 && Parent(k) == at ==> data[Parent(at)].score <= data[k].score)
  }

  /** A heap below `size` except that `at` may score more than its children. */
  ghost predicate DownHole(data: seq<Hit>, at: nat, size: nat) {
    && at < size <= |data|
    && (forall k :: 0 < k < size && Parent(k) != at ==> data[Parent(k)].score <= data[k].score)
    && (forall k :: 0 < k < size && at > 0 && Parent(k) == at ==> data[Parent(at)].score <= data[k].score)
  }

  lemma {:induction false} RootIsLeast(data: seq<Hit>, size: nat, k: nat)
    requires HeapTo(data, size) && k < size
    ensures data[0].score <= data[k].score
  {
    if k > 0 {
      RootIsLeast(data, size, Parent(k));
    }
  }

  /** Swapping an entry with its larger parent moves the hole up. */
  lemma SwapUp(data: seq<Hit>, at: nat)
    requires UpHole(data, at) && at > 0 && data[at].score < data[Parent(at)].score
    ensures UpHole(Swap(data, at, Parent(at)), Parent(at))
  {
    var p := Parent(at);
    var now := Swap(data, at, p);
    forall k | 0 < k < |now| && k != p ensures now[Parent(k)].score <= now[k].score {
      if k != at && Parent(k) == p {
        assert data[p].score <= data[k].score;
      }
    }
    forall k | 0 < k < |now| && p > 0 && Parent(k) == p ensures now[Parent(p)].score <= now[k].score {
      assert data[Parent(p)].score <= data[p].score;
      if k != at {
        assert data[p].score <= data[k].score;
      }
    }
  }

  /** Swapping an entry with its smallest child moves the hole down. */
  lemma SwapDown(was: seq<Hit>, data: seq<Hit>, at: nat, child: nat, size: nat)
    requires Rearranged(was, data, size) && DownHole(data, at, size) && 0 < child < size && Parent(child) == at
    requires data[child].score < data[at].score
    requires data[child].score <= data[2 * at + 1].score
    requires 2 * at + 2 < size ==> data[child].score <= data[2 * at + 2].score
    ensures DownHole(Swap(data, at, child), child, size)
    ensures Rearranged(was, Swap(data, at, child), size)
  {
    var now := Swap(data, at, child);
    forall k | 0 < k < size && Parent(k) == at ensures data[child].score <= data[k].score {
      assert k == 2 * at + 1 || k == 2 * at + 2;
    }
    forall k | 0 < k < size && Parent(k) != child ensures now[Parent(k)].score <= now[k].score {
      if Parent(k) != at && k == at {
        assert data[Parent(at)].score <= data[child].score;
      }
    }
  }

  /** A hole that scores no more than its children is none. */
  lemma HoleFilled(data: seq<Hit>, at: nat, size: nat)
    requires DownHole(data, at, size)
    requires 2 * at + 1 < size ==> data[at].score <= data[2 * at + 1].score
    requires 2 * at + 2 < size ==> data[at].score <= data[2 * at + 2].score
    ensures HeapTo(data, size)
  {
    forall k | 0 < k < size ensures data[Parent(k)].score <= data[k].score {
      if Parent(k) == at {
        assert k == 2 * at + 1 || k == 2 * at + 2;
      }
    }
  }

  /** The same entries, in another order before `size` and in place from there on. */
  ghost predicate Rearranged(was: seq<Hit>, now: seq<Hit>, size: nat) {
    size <= |was| == |now| && multiset(now) == multiset(was) && now[size..] == was[size..]
  }

  lemma SamePrefixMultiset(a: seq<Hit>, b: seq<Hit>, size: nat)
    requires Rearranged(a, b, size)
    ensures multiset(b[..size]) == multiset(a[..size])
  {
    assert a == a[..size] + a[size..] && b == b[..size] + b[size..];
    assert multiset(a[..size]) == multiset(a) - multiset(a[size..]);
    assert multiset(b[..size]) == multiset(b) - multiset(b[size..]);
  }

  class MinHeap {
    var data: seq<Hit>

    ghost predicate Valid()
      reads this
    {
      HeapTo(data, |data|)
    }

    constructor ()
      ensures Valid() && data == []
    {
      data := [];
    }

    method SiftUp(start: nat)
      requires UpHole(data, start)
      modifies this
      ensures Valid() && multiset(data) == old(multiset(data)) && |data| == old(|data|)
    {
      var at := start;
      while at > 0 && data[at].score < data[Parent(at)].score
        invariant |data| == old(|data|) && UpHole(data, at)
        invariant multiset(data) == old(multiset(data))
      {
        SwapUp(data, at);
        data := Swap(data, at, Parent(at));
        at := Parent(at);
      }
    }

    method LeastChild(at: nat, size: nat) returns (child: nat)
      requires 2 * at + 1 < size <= |data|
      ensures at < child < size && Parent(child) == at
      ensures data[child].score <= data[2 * at + 1].score
      ensures 2 * at + 2 < size ==> data[child].score <= data[2 * at + 2].score
    {
      child := 2 * at + 1;
      if child + 1 < size && data[child + 1].score < data[child].score {
        child := child + 1;
      }
    }

    method SiftDown(start: nat, size: nat)
      requires DownHole(data, start, size)
      modifies this
      ensures HeapTo(data, size) && Rearranged(old(data), data, size)
    {
      ghost var was := data;
      var at := start;
      while 2 * at + 1 < size
        invariant DownHole(data, at, size) && Rearranged(was, data, size)
        decreases size - at
      {
        var child := LeastChild(at, size);
        if data[at].score <= data[child].score {
          HoleFilled(data, at, size);
          return;
        }
        SwapDown(was, data, at, child, size);
        data := Swap(data, at, child);
        at := child;
      }
      HoleFilled(data, at, size);
    }

    method Push(x: Hit)
      requires Valid()
      modifies this
      ensures Valid() && multiset(data) == old(multiset(data)) + multiset{x} && |data| == old(|data|) + 1
    {
      data := data + [x];
      SiftUp(|data| - 1);
    }

    /** Remove a least-scored entry. */
    method Pop() returns (x: Hit)
      requires Valid() && data != []
      modifies this
      ensures Valid() && x == old(data[0])
      ensures multiset(data) == old(multiset(data)) - multiset{x} && |data| == old(|data|) - 1
    {
      x := data[0];
      var n := |data| - 1;
      var last := data[n];
      assert data == data[..n] + [last];
      data := data[..n];
      if n > 0 {
        data := data[0 := last];
        SiftDown(0, n);
        assert data[..n] == data;
      }
    }

    /** Heap sort in place: highest score first. */
    method IntoSortedVec() returns (r: seq<Hit>)
      requires Valid()
      modifies this
      ensures Descending(r) && multiset(r) == old(multiset(data)) && |r| == old(|data|)
    {
      var end := |data|;
      while end > 1
        invariant 0 <= end <= |data| == old(|data|) && multiset(data) == old(multiset(data))
        invariant HeapTo(data, end)
        invariant TailSorted(data, end)
      {
        end := end - 1;
        TailGrows(data, end);
        data := Swap(data, 0, end);
        ghost var was := data;
        SiftDown(0, end);
        TailKept(was, data, end);
      }
      r := data;
    }
  }

  ghost predicate Descending(s: seq<Hit>) {
    forall i, j :: 0 <= i < j < |s| ==> s[i].score >= s[j].score
  }

  /** From `end` on, descending; and nothing there beats what is before `end`. */
  ghost predicate TailSorted(data: seq<Hit>, end: nat) {
    && end <= |data|
    && (forall i, j :: end <= i < j < |data| ==> data[i].score >= data[j].score)
    && (forall i, j :: 0 <= i < end <= j < |data| ==> data[i].score >= data[j].score)
  }

  /** Swapping the root to the end of the heap extends the sorted tail. */
  lemma TailGrows(data: seq<Hit>, end: nat)
    requires 1 <= end < |data| && HeapTo(data, end + 1) && TailSorted(data, end + 1)
    ensures TailSorted(Swap(data, 0, end), end)
    ensures DownHole(Swap(data, 0, end), 0, end)
  {
    var now := Swap(data, 0, end);
    forall i | 0 <= i < end ensures now[i].score >= now[end].score {
      RootIsLeast(data, end + 1, if i == 0 then end else i);
    }
  }

  lemma TailKept(was: seq<Hit>, now: seq<Hit>, end: nat)
    requires TailSorted(was, end) && Rearranged(was, now, end)
    ensures TailSorted(now, end)
  {
    SamePrefixMultiset(was, now, end);
    forall j | end <= j < |now| ensures now[j] == was[j] {
      assert now[end..][j - end] == was[end..][j - end];
    }
    forall i, j | 0 <= i < end <= j < |now| ensures now[i].score >= now[j].score {
      var x := now[..end][i];
      assert x in multiset(was[..end]);
      var k :| 0 <= k < end && was[..end][k] == x;
      assert was[k].score >= was[j].score;
    }
  }

  // ---------- bounded retention ----------

  /** `kept` are the best `limit` of `seen`: nothing rejected or evicted beats anything kept. */
  ghost predicate TopOf(seen: multiset<Hit>, limit: nat, kept: multiset<Hit>) {
    && kept <= seen
    && |kept| == (if |seen| <= limit then |seen| else limit)
    && forall x, y :: x in kept && y in seen - kept ==> y.score <= x.score
  }

  method PushBounded(heap: MinHeap, f: Fact, score: real, limit: nat, ghost seen: multiset<Hit>)
    requires heap.Valid() && TopOf(seen, limit, multiset(heap.data))
    modifies heap
    ensures heap.Valid() && TopOf(seen + multiset{Hit(f, score)}, limit, multiset(heap.data))
  {
    ghost var was, x := multiset(heap.data), Hit(f, score);
    if limit == 0 {
      assert was == multiset{};
      return;
    }
    if |heap.data| < limit {
      heap.Push(Hit(f, score));
      KeepAll(seen, limit, was, x);
    } else if score > heap.data[0].score {
      ghost var root := heap.data[0];
      RootIsMin(heap.data);
      var gone := heap.Pop();
      heap.Push(Hit(f, score));
      KeepReplaces(seen, limit, was, x, root);
    } else {
      RootIsMin(heap.data);
      KeepRejects(seen, limit, was, x);
    }
  }

  lemma RootIsMin(data: seq<Hit>)
    requires HeapTo(data, |data|) && data != []
    ensures data[0] in multiset(data)
    ensures forall y :: y in multiset(data) ==> data[0].score <= y.score
  {
    forall y | y in multiset(data) ensures data[0].score <= y.score {
      var k :| 0 <= k < |data| && data[k] == y;
      RootIsLeast(data, |data|, k);
    }
  }

  lemma KeepAll(seen: multiset<Hit>, limit: nat, kept: multiset<Hit>, x: Hit)
    requires TopOf(seen, limit, kept) && |kept| < limit
    ensures TopOf(seen + multiset{x}, limit, kept + multiset{x})
  {
    assert |seen - kept| == |seen| - |kept|;
    assert seen - kept == multiset{};
    assert seen == kept;
  }

  lemma KeepRejects(seen: multiset<Hit>, limit: nat, kept: multiset<Hit>, x: Hit)
    requires TopOf(seen, limit, kept) && |kept| >= limit
    requires forall y :: y in kept ==> x.score <= y.score
    ensures TopOf(seen + multiset{x}, limit, kept)
  {
    var now := seen + multiset{x};
    assert now - kept == (seen - kept) + multiset{x};
  }

  lemma KeepReplaces(seen: multiset<Hit>, limit: nat, kept: multiset<Hit>, x: Hit, root: Hit)
    requires TopOf(seen, limit, kept) && |kept| >= limit
    requires root in kept && x.score > root.score && forall y :: y in kept ==> root.score <= y.score
    ensures TopOf(seen + multiset{x}, limit, kept - multiset{root} + multiset{x})
  {
    var now, held := seen + multiset{x}, kept - multiset{root} + multiset{x};
    assert held <= now;
    assert now - held == (seen - kept) + multiset{root};
    forall a, b | a in held && b in now - held ensures b.score <= a.score {
      if b in seen - kept {
        assert root in kept;
      }
    }
  }

  // ---------- the scan ----------

  datatype Component = Normal(name: string) | CurDir | ParentDir | RootDir | Prefix

  /** Only plain segments and `.` are allowed: nothing that can leave the archive directory. */
  predicate IsWithinArchiveDir(path: seq<Component>) {
    forall k :: 0 <= k < |path| ==> path[k].Normal? || path[k].CurDir?
  }

  datatype PakFile = Pak(facts: seq<Fact>) | Corrupt

  datatype Query = Query(text: Option<string>, embedding: Option<seq<real>>, factType: Option<FactType>)

  /** Case-folded substring test and cosine similarity, as parameters. */
  datatype Matcher = Matcher(contains: (string, string) -> bool, cosine: (seq<real>, seq<real>) -> real)

  /** The score of a match, or none. */
  function Match(m: Matcher, q: Query, f: Fact): Option<real> {
    if q.factType.Some? && q.factType.value != f.factType then None
    else if q.text.None? && q.embedding.None? then Some(1.0)
    else
      var byText := q.text.Some? && m.contains(f.content, q.text.value);
      var cos := if q.embedding.Some? && |q.embedding.value| == |f.embedding| && f.embedding != []
                 then m.cosine(q.embedding.value, f.embedding) else 0.0;
      if byText || cos > 0.0 then Some((if byText then 1.0 else 0.0) + if cos > 0.0 then cos else 0.0) else None
  }

  ghost function HitsIn(m: Matcher, q: Query, facts: seq<Fact>): multiset<Hit> {
    if facts == [] then multiset{}
    else
      var n := |facts| - 1;
      var score := Match(m, q, facts[n]);
      HitsIn(m, q, facts[..n]) + if score.Some? then multiset{Hit(facts[n], score.value)} else multiset{}
  }

  /** The paks a scan opens, in manifest order. */
  function Opened(files: map<seq<Component>, PakFile>, entries: seq<seq<Component>>): seq<PakFile> {
    if entries == [] then []
    else
      var n := |entries| - 1;
      var opens := IsWithinArchiveDir(entries[n]) && entries[n] in files;
      Opened(files, entries[..n]) + if opens then [files[entries[n]]] else []
  }

  ghost function AllHits(m: Matcher, q: Query, paks: seq<PakFile>): multiset<Hit> {
    if paks == [] then multiset{}
    else
      var n := |paks| - 1;
      AllHits(m, q, paks[..n]) + if paks[n].Pak? then HitsIn(m, q, paks[n].facts) else multiset{}
  }

  // ---------- what is found, place by place ----------

  /** The fact answers the query, with this score: it has the type asked for, and its text contains the text
      asked for, which scores 1, or its vector has a positive cosine with the one asked for, which scores the
      cosine, or both, which scores the sum. A query with neither is answered by every fact, and scores 1. */
  ghost predicate Answers(m: Matcher, q: Query, f: Fact, score: real) {
    var byText := q.text.Some? && m.contains(f.content, q.text.value);
    var byVector := q.embedding.Some? && f.embedding != [] && |f.embedding| == |q.embedding.value|
      && m.cosine(q.embedding.value, f.embedding) > 0.0;
    && (q.factType == None || q.factType == Some(f.factType))
    && (q.text == None && q.embedding == None ==> score == 1.0)
    && (q.text.Some? || q.embedding.Some? ==>
          && (byText || byVector)
          && (byText && !byVector ==> score == 1.0)
          && (byVector && !byText ==> score == m.cosine(q.embedding.value, f.embedding))
          && (byText && byVector ==> score == 1.0 + m.cosine(q.embedding.value, f.embedding)))
  }

  /** The pak is read: it is there, and no step of its path can lead out of the archive directory. */
  ghost predicate Read(files: map<seq<Component>, PakFile>, path: seq<Component>) {
    path in files && ParentDir !in path && RootDir !in path && Prefix !in path
  }

  /** Where in the listed paks a hit is found: list position and position in the pak. */
  ghost function Places(files: map<seq<Component>, PakFile>, entries: seq<seq<Component>>, m: Matcher, q: Query, h: Hit)
    : set<(int, int)>
  {
    set k, j | 0 <= k < |entries| && Read(files, entries[k]) && files[entries[k]].Pak?
        && 0 <= j < |files[entries[k]].facts| && files[entries[k]].facts[j] == h.fact && Answers(m, q, h.fact, h.score)
      :: (k, j)
  }

  /** Every result is found somewhere, as often as it is returned, and what is found and not returned gives
      way to `limit` results that score no lower. */
  ghost predicate BestFound(
    files: map<seq<Component>, PakFile>, entries: seq<seq<Component>>, m: Matcher, q: Query, limit: nat,
    results: seq<Hit>
  )
  {
    && |results| <= limit
    && (forall h :: multiset(results)[h] <= |Places(files, entries, m, q, h)|)
    && forall h :: multiset(results)[h] < |Places(files, entries, m, q, h)| ==>
         |results| == limit && forall i :: 0 <= i < |results| ==> results[i].score >= h.score
  }

  ghost function ReadPaks(files: map<seq<Component>, PakFile>, entries: seq<seq<Component>>): set<int> {
    set k | 0 <= k < |entries| && Read(files, entries[k])
  }

  lemma ReadIff(files: map<seq<Component>, PakFile>, path: seq<Component>)
    ensures Read(files, path) <==> IsWithinArchiveDir(path) && path in files
  {
    if IsWithinArchiveDir(path) {
      forall c | c in path ensures c.Normal? || c.CurDir? {
        var k :| 0 <= k < |path| && path[k] == c;
      }
    } else {
      var k :| 0 <= k < |path| && !(path[k].Normal? || path[k].CurDir?);
      var c := path[k];
      assert c in path;
    }
  }

  ghost predicate ReadsCorrupt(files: map<seq<Component>, PakFile>, entries: seq<seq<Component>>) {
    exists k :: 0 <= k < |entries| && Read(files, entries[k]) && files[entries[k]].Corrupt?
  }

  lemma {:induction false} OpenedCount(files: map<seq<Component>, PakFile>, entries: seq<seq<Component>>)
    ensures |Opened(files, entries)| == |ReadPaks(files, entries)|
  {
    if entries == [] {
      assert ReadPaks(files, entries) == {};
    } else {
      var n := |entries| - 1;
      OpenedCount(files, entries[..n]);
      ReadIff(files, entries[n]);
      var before := ReadPaks(files, entries[..n]);
      assert ReadPaks(files, entries) == if Read(files, entries[n]) then before + {n} else before;
    }
  }

  lemma {:induction false} OpenedCorrupt(files: map<seq<Component>, PakFile>, entries: seq<seq<Component>>)
    ensures Corrupt in Opened(files, entries) <==> ReadsCorrupt(files, entries)
  {
    if entries != [] {
      var n := |entries| - 1;
      var init := entries[..n];
      OpenedCorrupt(files, init);
      ReadIff(files, entries[n]);
      if k :| 0 <= k < |init| && Read(files, init[k]) && files[init[k]].Corrupt? {
        assert Read(files, entries[k]);
      }
      if k :| 0 <= k < |entries| && Read(files, entries[k]) && files[entries[k]].Corrupt? {
        assert k < n ==> Read(files, init[k]);
      }
    }
  }

  /** Positions in one pak. */
  ghost function Spots(m: Matcher, q: Query, facts: seq<Fact>, h: Hit): set<int> {
    set j | 0 <= j < |facts| && facts[j] == h.fact && Answers(m, q, h.fact, h.score)
  }

  lemma MatchIs(m: Matcher, q: Query, f: Fact, score: real)
    ensures Match(m, q, f) == Some(score) <==> Answers(m, q, f, score)
  {}

  lemma {:induction false} HitsAtSpots(m: Matcher, q: Query, facts: seq<Fact>, h: Hit)
    ensures HitsIn(m, q, facts)[h] == |Spots(m, q, facts, h)|
  {
    if facts == [] {
      assert Spots(m, q, facts, h) == {};
    } else {
      var n := |facts| - 1;
      HitsAtSpots(m, q, facts[..n], h);
      MatchIs(m, q, facts[n], h.score);
      var before, here := Spots(m, q, facts[..n], h), facts[n] == h.fact && Answers(m, q, h.fact, h.score);
      assert Spots(m, q, facts, h) == if here then before + {n} else before;
    }
  }

  /** What the last listed pak adds. */
  lemma {:induction false} LastPak(files: map<seq<Component>, PakFile>, entries: seq<seq<Component>>, m: Matcher,
                                   q: Query, h: Hit)
    requires entries != []
    ensures var path := entries[|entries| - 1];
      AllHits(m, q, Opened(files, entries))[h] == AllHits(m, q, Opened(files, entries[..|entries| - 1]))[h]
      + if Read(files, path) && files[path].Pak? then HitsIn(m, q, files[path].facts)[h] else 0
  {
    var path, before := entries[|entries| - 1], Opened(files, entries[..|entries| - 1]);
    ReadIff(files, path);
    if Read(files, path) {
      var paks := before + [files[path]];
      assert Opened(files, entries) == paks && paks[..|paks| - 1] == before;
    } else {
      assert Opened(files, entries) == before;
    }
  }

  lemma {:induction false} LastPlaces(files: map<seq<Component>, PakFile>, entries: seq<seq<Component>>, m: Matcher,
                                      q: Query, h: Hit)
    requires entries != []
    ensures var path := entries[|entries| - 1];
      |Places(files, entries, m, q, h)| == |Places(files, entries[..|entries| - 1], m, q, h)|
      + if Read(files, path) && files[path].Pak? then |Spots(m, q, files[path].facts, h)| else 0
  {
    var n := |entries| - 1;
    var before := Places(files, entries[..n], m, q, h);
    if Read(files, entries[n]) && files[entries[n]].Pak? {
      var spots := Spots(m, q, files[entries[n]].facts, h);
      var more := set j | j in spots :: (n, j);
      forall j | j in spots ensures exists place: (int, int) :: place in more && place.1 == j {
        assert (n, j) in more;
      }
      SameSize(spots, more, (place: (int, int)) => place.1);
      assert Places(files, entries, m, q, h) == before + more;
    } else {
      assert Places(files, entries, m, q, h) == before;
    }
  }

  lemma {:induction false} HitsAtPlaces(files: map<seq<Component>, PakFile>, entries: seq<seq<Component>>, m: Matcher,
                                        q: Query, h: Hit)
    ensures AllHits(m, q, Opened(files, entries))[h] == |Places(files, entries, m, q, h)|
  {
    if entries == [] {
      assert Places(files, entries, m, q, h) == {};
    } else {
      var path := entries[|entries| - 1];
      HitsAtPlaces(files, entries[..|entries| - 1], m, q, h);
      LastPak(files, entries, m, q, h);
      LastPlaces(files, entries, m, q, h);
      if path in files && files[path].Pak? {
        HitsAtSpots(m, q, files[path].facts, h);
      }
    }
  }

  lemma {:induction false} TopIsBest(files: map<seq<Component>, PakFile>, entries: seq<seq<Component>>, m: Matcher, q: Query, limit: nat,
                  results: seq<Hit>)
    requires TopOf(AllHits(m, q, Opened(files, entries)), limit, multiset(results))
    ensures BestFound(files, entries, m, q, limit, results)
  {
    forall h ensures AllHits(m, q, Opened(files, entries))[h] == |Places(files, entries, m, q, h)| {
      HitsAtPlaces(files, entries, m, q, h);
    }
    TopCounted(AllHits(m, q, Opened(files, entries)), limit, results);
  }

  lemma TopCounted(all: multiset<Hit>, limit: nat, results: seq<Hit>)
    requires TopOf(all, limit, multiset(results))
    ensures |results| <= limit && forall h :: multiset(results)[h] <= all[h]
    ensures forall h :: multiset(results)[h] < all[h] ==>
      |results| == limit && forall i :: 0 <= i < |results| ==> results[i].score >= h.score
  {
    var kept := multiset(results);
    assert all == kept + (all - kept) && |kept| == |results|;
    forall h | kept[h] < all[h] ensures h in all - kept && |all - kept| > 0 {}
    forall i | 0 <= i < |results| ensures results[i] in kept {}
  }

  method ScanPak(heap: MinHeap, m: Matcher, q: Query, facts: seq<Fact>, limit: nat, ghost seen: multiset<Hit>)
    requires heap.Valid() && TopOf(seen, limit, multiset(heap.data))
    modifies heap
    ensures heap.Valid() && TopOf(seen + HitsIn(m, q, facts), limit, multiset(heap.data))
  {
    assert seen + multiset{} == seen;
    for k := 0 to |facts|
      invariant heap.Valid() && TopOf(seen + HitsIn(m, q, facts[..k]), limit, multiset(heap.data))
    {
      assert facts[..k + 1][..k] == facts[..k];
      ghost var sofar := seen + HitsIn(m, q, facts[..k]);
      var score := Match(m, q, facts[k]);
      if score.Some? {
        PushBounded(heap, facts[k], score.value, limit, sofar);
        assert sofar + multiset{Hit(facts[k], score.value)} == seen + HitsIn(m, q, facts[..k + 1]);
      } else {
        assert sofar == seen + HitsIn(m, q, facts[..k + 1]);
      }
    }
    assert facts[..|facts|] == facts;
  }

  /** Scan the manifest; the first unreadable pak fails the whole search. */
  method SearchArchives(files: map<seq<Component>, PakFile>, entries: seq<seq<Component>>, m: Matcher, q: Query,
                        limit: nat)
    returns (r: Result<(seq<Hit>, nat), ()>)
    ensures r.Err? <==> Corrupt in Opened(files, entries)
    ensures r.Ok? ==> var (results, scanned) := r.value;
      && Descending(results) && scanned == |Opened(files, entries)|
      && TopOf(AllHits(m, q, Opened(files, entries)), limit, multiset(results))
    ensures r.Err? <==> ReadsCorrupt(files, entries)
    ensures r.Ok? ==>
      r.value.1 == |ReadPaks(files, entries)| && BestFound(files, entries, m, q, limit, r.value.0)
  {
    var heap := new MinHeap();
    var scanned := 0;
    for k := 0 to |entries|
      invariant fresh(heap) && heap.Valid()
      invariant scanned == |Opened(files, entries[..k])| && Corrupt !in Opened(files, entries[..k])
      invariant TopOf(AllHits(m, q, Opened(files, entries[..k])), limit, multiset(heap.data))
    {
      assert entries[..k + 1][..k] == entries[..k];
      if !IsWithinArchiveDir(entries[k]) || entries[k] !in files {
        assert Opened(files, entries[..k + 1]) == Opened(files, entries[..k]);
        continue;
      }
      ghost var paks := Opened(files, entries[..k]);
      if files[entries[k]].Corrupt? {
        OpenedGrows(files, entries, k);
        OpenedCorrupt(files, entries);
        return Err(());
      }
      ghost var longer := paks + [files[entries[k]]];
      assert longer[..|paks|] == paks;
      assert Opened(files, entries[..k + 1]) == longer;
      ScanPak(heap, m, q, files[entries[k]].facts, limit, AllHits(m, q, paks));
      assert AllHits(m, q, longer) == AllHits(m, q, paks) + HitsIn(m, q, files[entries[k]].facts);
      scanned := scanned + 1;
    }
    assert entries[..|entries|] == entries;
    var results := heap.IntoSortedVec();
    OpenedCorrupt(files, entries);
    OpenedCount(files, entries);
    TopIsBest(files, entries, m, q, limit, results);
    return Ok((results, scanned));
  }

  lemma {:induction false} OpenedGrows(files: map<seq<Component>, PakFile>, entries: seq<seq<Component>>, k: nat)
    requires k < |entries| && IsWithinArchiveDir(entries[k]) && entries[k] in files
    ensures files[entries[k]] in Opened(files, entries)
  {
    var n := |entries| - 1;
    if k < n {
      OpenedGrows(files, entries[..n], k);
    }
  }

  // ---------- refinement of sort-then-truncate ----------

  ghost function AtLeast(t: real): Hit -> bool {
    (h: Hit) => h.score >= t
  }

  /** How many of the kept reach a score is fixed by what was seen. */
  lemma {:induction false} TopCounts(seen: multiset<Hit>, limit: nat, kept: multiset<Hit>, t: real)
    requires TopOf(seen, limit, kept)
    ensures Count(kept, AtLeast(t)) == if Count(seen, AtLeast(t)) <= |kept| then Count(seen, AtLeast(t)) else |kept|
  {
    var rest := seen - kept;
    assert seen == kept + rest;
    CountSum(kept, rest, AtLeast(t));
    TopSplits(kept, rest, t);
  }

  lemma {:induction false} TopSplits(kept: multiset<Hit>, rest: multiset<Hit>, t: real)
    requires forall x, y :: x in kept && y in rest ==> y.score <= x.score
    ensures Count(kept, AtLeast(t)) == |kept| || (Count(rest, AtLeast(t)) == 0 && Count(kept, AtLeast(t)) <= |kept|)
  {
    CountBounds(kept, AtLeast(t));
    CountBounds(rest, AtLeast(t));
  }

  lemma AllReach(s: seq<Hit>, t: real)
    requires forall k :: 0 <= k < |s| ==> s[k].score >= t
    ensures Count(multiset(s), AtLeast(t)) == |s|
  {
    forall x | x in multiset(s) ensures AtLeast(t)(x) {
      var k :| 0 <= k < |s| && s[k] == x;
    }
    CountBounds(multiset(s), AtLeast(t));
  }

  lemma NoneReach(s: seq<Hit>, t: real)
    requires forall k :: 0 <= k < |s| ==> s[k].score < t
    ensures Count(multiset(s), AtLeast(t)) == 0
  {
    forall x | x in multiset(s) ensures !AtLeast(t)(x) {
      var k :| 0 <= k < |s| && s[k] == x;
    }
    CountBounds(multiset(s), AtLeast(t));
  }

  lemma CountSplit(s: seq<Hit>, i: nat, t: real)
    requires i <= |s|
    ensures Count(multiset(s), AtLeast(t)) == Count(multiset(s[..i]), AtLeast(t)) + Count(multiset(s[i..]), AtLeast(t))
    ensures Count(multiset(s[..i]), AtLeast(t)) <= i
  {
    assert s == s[..i] + s[i..];
    CountSum(multiset(s[..i]), multiset(s[i..]), AtLeast(t));
    CountBounds(multiset(s[..i]), AtLeast(t));
  }

  /** In a descending list, position `i` reaches `t` exactly when more than `i` entries do. */
  lemma RankCounts(s: seq<Hit>, t: real, i: nat)
    requires Descending(s) && i < |s|
    ensures s[i].score >= t <==> Count(multiset(s), AtLeast(t)) > i
  {
    if s[i].score >= t {
      CountSplit(s, i + 1, t);
      PrefixReaches(s, t, i);
    } else {
      CountSplit(s, i, t);
      SuffixMisses(s, t, i);
    }
  }

  lemma PrefixReaches(s: seq<Hit>, t: real, i: nat)
    requires Descending(s) && i < |s| && s[i].score >= t
    ensures Count(multiset(s[..i + 1]), AtLeast(t)) == i + 1
  {
    var head := s[..i + 1];
    forall k | 0 <= k < |head| ensures head[k].score >= t {
      assert s[k].score >= s[i].score;
    }
    AllReach(head, t);
  }

  lemma SuffixMisses(s: seq<Hit>, t: real, i: nat)
    requires Descending(s) && i < |s| && s[i].score < t
    ensures Count(multiset(s[i..]), AtLeast(t)) == 0
  {
    var tail := s[i..];
    forall k | 0 <= k < |tail| ensures tail[k].score < t {
      assert s[i].score >= s[i + k].score;
    }
    NoneReach(tail, t);
  }

  /** Any two descending top-`limit` lists of the same matches have the same scores. */
  lemma TopScoresAgree(seen: multiset<Hit>, limit: nat, a: seq<Hit>, b: seq<Hit>, i: nat)
    requires TopOf(seen, limit, multiset(a)) && TopOf(seen, limit, multiset(b))
    requires Descending(a) && Descending(b)
    requires i < |a|
    ensures |a| == |b| && a[i].score == b[i].score
  {
    TopCounts(seen, limit, multiset(a), a[i].score);
    TopCounts(seen, limit, multiset(b), a[i].score);
    RankCounts(a, a[i].score, i);
    RankCounts(b, a[i].score, i);
    TopCounts(seen, limit, multiset(a), b[i].score);
    TopCounts(seen, limit, multiset(b), b[i].score);
    RankCounts(a, b[i].score, i);
    RankCounts(b, b[i].score, i);
  }

  lemma SortTruncateIsTop(sorted: seq<Hit>, limit: nat)
    requires Descending(sorted)
    ensures var cut := if |sorted| <= limit then |sorted| else limit;
      TopOf(multiset(sorted), limit, multiset(sorted[..cut])) && Descending(sorted[..cut])
  {
    var cut := if |sorted| <= limit then |sorted| else limit;
    assert sorted == sorted[..cut] + sorted[cut..];
    assert multiset(sorted) - multiset(sorted[..cut]) == multiset(sorted[cut..]);
    CutDominates(sorted, cut);
  }

  lemma CutDominates(sorted: seq<Hit>, cut: nat)
    requires Descending(sorted) && cut <= |sorted|
    ensures forall x, y :: x in multiset(sorted[..cut]) && y in multiset(sorted[cut..]) ==> y.score <= x.score
  {
    forall x, y | x in multiset(sorted[..cut]) && y in multiset(sorted[cut..]) ensures y.score <= x.score {
      var i :| 0 <= i < cut && sorted[i] == x;
      var j :| 0 <= j < |sorted[cut..]| && sorted[cut..][j] == y;
      assert sorted[cut + j] == y;
    }
  }

  /** The bounded scan returns, score for score, the sorted matches cut at `limit`. */
  lemma TopScoresRefine(sorted: seq<Hit>, limit: nat, results: seq<Hit>)
    requires Descending(sorted) && Descending(results)
    requires TopOf(multiset(sorted), limit, multiset(results))
    ensures |results| == if |sorted| <= limit then |sorted| else limit
    ensures forall i :: 0 <= i < |results| ==> results[i].score == sorted[i].score
  {
    var cut := if |sorted| <= limit then |sorted| else limit;
    SortTruncateIsTop(sorted, limit);
    assert |multiset(results)| == |results| && |multiset(sorted)| == |sorted|;
    forall i | 0 <= i < |results| ensures results[i].score == sorted[i].score {
      TopScoresAgree(multiset(sorted), limit, results, sorted[..cut], i);
    }
  }
}
