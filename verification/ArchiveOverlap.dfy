/** Archive calls that overlap (crates/me-archive/src/manage.rs:98-140). A call selects its candidates,
    writes its pak and commits in three port or file steps, and other calls and writes may fall between.

    The commit does not look at the rows again. `NothingLost` says that every fact is still somewhere
    after any interleaving, `DoubledIff` exactly which facts end up in two places, and `EditLostIff`
    which edits between selection and commit are lost. One call at a time is a run of
    `PakArchive.Step` (`UninterruptedIsStep`), and doubles nothing (`SerialDoublesNone`).
  */
module ArchiveOverlap {
  import opened Collections
  import opened MemoryStore
  import opened PakArchive
  import Sync = GraphSync

  /** A call in flight: with its candidates, then with its pak in place. */
  datatype Call = Selected(ids: set<int>, pak: Pak) | Written(ids: set<int>, pak: Pak, stamp: int)

  datatype State = State(w: World, calls: map<int, Call>)

  /** An edit changes a row by its id, active or not, but never its expiry. */
  datatype Event =
    | Insert(fact: Fact)
    | Retire(id: int, now: int)
    | Edit(id: int, fact: Fact)
    | Select(c: int, before: int, minFacts: nat)
    | Write(c: int, stamp: int, faults: Faults)
    | Commit(c: int, fails: bool, removeFails: bool)

  // ---------- the steps ----------

  function Edited(db: Db, id: int, f: Fact): Db {
    if id in db.facts && f.expired == db.facts[id].expired then db.(facts := db.facts[id := f]) else db
  }

  function SelectCall(s: State, c: int, before: int, minFacts: nat): State {
    var ids := CandidateIds(s.w.db, before);
    if |ids| < minFacts then s else s.(calls := s.calls[c := Selected(ids, BuildPak(s.w.db, ids))])
  }

  function WriteCall(s: State, c: int, call: Call, stamp: int, f: Faults): State {
    if f.mkdir then s.(calls := s.calls - {c})
    else
      var (files, bad) := WriteFiles(s.w.files, call.pak, stamp, f);
      if bad.Some? then State(s.w.(files := files), s.calls - {c})
      else if f.stat then State(s.w.(files := Removed(files, Final(stamp), f.removeFinal)), s.calls - {c})
      else State(s.w.(files := files), s.calls[c := Written(call.ids, call.pak, stamp)])
  }

  /** The rows to delete are named by id; those that are gone already are no error. */
  function CommitCall(s: State, c: int, call: Call, fails: bool, removeFails: bool, hash: Hash): State
    requires call.Written?
  {
    if fails || call.stamp in s.w.manifest then
      State(s.w.(files := Removed(s.w.files, Final(call.stamp), removeFails)), s.calls - {c})
    else
      var row := Entry(|call.pak.facts|, |call.pak.edges|, hash(Whole(call.pak)));
      State(World(HardDelete(s.w.db, call.ids), s.w.files, s.w.manifest[call.stamp := row]), s.calls - {c})
  }

  /** A step that is not possible changes nothing. */
  function Next(s: State, e: Event, hash: Hash): State {
    match e
    case Insert(f) => s.(w := s.w.(db := InsertFact(s.w.db, f)))
    case Retire(id, now) => if s.w.db.Has(id) then s.(w := s.w.(db := ExpireFact(s.w.db, id, now))) else s
    case Edit(id, f) => s.(w := s.w.(db := Edited(s.w.db, id, f)))
    case Select(c, before, minFacts) => if c in s.calls then s else SelectCall(s, c, before, minFacts)
    case Write(c, stamp, f) =>
      if c in s.calls && s.calls[c].Selected? then WriteCall(s, c, s.calls[c], stamp, f) else s
    case Commit(c, fails, removeFails) =>
      if c in s.calls && s.calls[c].Written? then CommitCall(s, c, s.calls[c], fails, removeFails, hash) else s
  }

  function Run(s: State, events: seq<Event>, hash: Hash): State {
    if events == [] then s else Next(Run(s, events[..|events| - 1], hash), events[|events| - 1], hash)
  }

  /** What is left of `PakArchive.Step` once the candidates are chosen. */
  function Rest(w: World, ids: set<int>, pak: Pak, a: Args, hash: Hash): World {
    if a.faults.mkdir then w
    else
      var (files, bad) := WriteFiles(w.files, pak, a.stamp, a.faults);
      if bad.Some? then w.(files := files)
      else if a.faults.stat || a.faults.commit || a.stamp in w.manifest then
        w.(files := Removed(files, Final(a.stamp), a.faults.removeFinal))
      else
        var row := Entry(|pak.facts|, |pak.edges|, hash(Whole(pak)));
        World(HardDelete(w.db, ids), files, w.manifest[a.stamp := row])
  }

  lemma WriteThenCommit(s: State, c: int, ids: set<int>, pak: Pak, a: Args, hash: Hash)
    requires c in s.calls && s.calls[c] == Selected(ids, pak)
    ensures var written := Next(s, Write(c, a.stamp, a.faults), hash);
      Next(written, Commit(c, a.faults.commit, a.faults.removeFinal), hash)
        == State(Rest(s.w, ids, pak, a, hash), s.calls - {c})
  {
    var written := Next(s, Write(c, a.stamp, a.faults), hash);
    var (files, bad) := WriteFiles(s.w.files, pak, a.stamp, a.faults);
    if !a.faults.mkdir && bad.None? && !a.faults.stat {
      assert written == State(s.w.(files := files), s.calls[c := Written(ids, pak, a.stamp)]);
      CommitAfter(s, c, ids, pak, a, files, hash);
    } else {
      assert c !in written.calls;
    }
  }

  lemma CommitAfter(s: State, c: int, ids: set<int>, pak: Pak, a: Args, files: map<Name, Contents>, hash: Hash)
    ensures var written := State(s.w.(files := files), s.calls[c := Written(ids, pak, a.stamp)]);
      var t := Next(written, Commit(c, a.faults.commit, a.faults.removeFinal), hash);
      && t.calls == s.calls - {c}
      && t.w == if a.faults.commit || a.stamp in s.w.manifest then
                  s.w.(files := Removed(files, Final(a.stamp), a.faults.removeFinal))
                else
                  var row := Entry(|pak.facts|, |pak.edges|, hash(Whole(pak)));
                  World(HardDelete(s.w.db, ids), files, s.w.manifest[a.stamp := row])
  {
    assert s.calls[c := Written(ids, pak, a.stamp)] - {c} == s.calls - {c};
  }

  /** A call that nothing interrupts is the one step of `PakArchive`. */
  lemma UninterruptedIsStep(s: State, a: Args, c: int, hash: Hash)
    requires c !in s.calls
    ensures var selected := Next(s, Select(c, a.before, a.minFacts), hash);
      var written := Next(selected, Write(c, a.stamp, a.faults), hash);
      Next(written, Commit(c, a.faults.commit, a.faults.removeFinal), hash) == s.(w := Step(s.w, a, hash).0)
  {
    var ids := CandidateIds(s.w.db, a.before);
    if |ids| >= a.minFacts {
      var pak := BuildPak(s.w.db, ids);
      var selected := Next(s, Select(c, a.before, a.minFacts), hash);
      assert selected == s.(calls := s.calls[c := Selected(ids, pak)]);
      WriteThenCommit(selected, c, ids, pak, a, hash);
      assert selected.calls - {c} == s.calls;
      assert Rest(s.w, ids, pak, a, hash) == Step(s.w, a, hash).0;
    }
  }

  lemma {:induction false} CandidatesAgree(db: Db, before: int)
    requires db.WellFormed()
    ensures var ids := Candidates(db, before, db.nextFact);
      Elements(ids) == CandidateIds(db, before) && |ids| == |CandidateIds(db, before)|
  {
    var ids := Candidates(db, before, db.nextFact);
    assert Elements(ids) == CandidateIds(db, before);
    DistinctSize(ids);
  }

  lemma StepStore(w: World, a: Args, hash: Hash)
    ensures Step(w, a, hash).0.db == if Archives(w, a) then HardDelete(w.db, CandidateIds(w.db, a.before)) else w.db
  {}

  /** Both models of the commit leave the same store: the step here and the engine's archive operation. */
  lemma StoresAgree(w: World, a: Args, hash: Hash)
    requires w.db.WellFormed()
    ensures Step(w, a, hash).0.db == Sync.ArchiveEffect(w.db, a.before, a.minFacts, Archives(w, a)).db
  {
    CandidatesAgree(w.db, a.before);
    StepStore(w, a, hash);
  }

  // ---------- what is where ----------

  /** A listed pak has a row of the fact. */
  ghost predicate InPak(w: World, t: int, id: int) {
    t in w.manifest && Final(t) in w.files && w.files[Final(t)].Whole? && id in w.files[Final(t)].pak.facts
  }

  ghost predicate Somewhere(w: World, id: int) { id in w.db.facts || exists t :: InPak(w, t, id) }

  /** The same as being held in some version. */
  lemma SomewhereIs(w: World, id: int)
    ensures Somewhere(w, id) <==> HeldId(w, id)
  {
    HeldIn(w, id);
    assert forall t, f :: PakAt(w, t, id, f) ==> InPak(w, t, id);
    assert forall t :: InPak(w, t, id) ==> PakAt(w, t, id, w.files[Final(t)].pak.facts[id]);
  }

  /** Live and in a listed pak, or in two listed paks. */
  ghost predicate Twice(w: World, id: int) {
    || (id in w.db.facts && exists t :: InPak(w, t, id))
    || exists t, u :: t != u && InPak(w, t, id) && InPak(w, u, id)
  }

  /** A listed pak has the stamp, or a call in flight does. */
  ghost predicate InUse(s: State, stamp: int) {
    stamp in s.w.manifest || exists c :: c in s.calls && s.calls[c].Written? && s.calls[c].stamp == stamp
  }

  /** The write gets as far as the rename. */
  predicate RenamesNow(s: State, e: Event) {
    && e.Write? && e.c in s.calls && s.calls[e.c].Selected?
    && !e.faults.mkdir && !e.faults.create && Temp(e.stamp) !in s.w.files && !e.faults.encode && !e.faults.rename
  }

  ghost predicate Overwrites(s: State, e: Event) { RenamesNow(s, e) && InUse(s, e.stamp) }

  /** The commit goes through. */
  predicate Commits(s: State, e: Event) {
    e.Commit? && e.c in s.calls && s.calls[e.c].Written? && !e.fails && s.calls[e.c].stamp !in s.w.manifest
  }

  ghost predicate CallOk(w: World, call: Call) {
    && call.pak.facts.Keys == call.ids && (forall id :: id in call.ids ==> Somewhere(w, id))
    && (call.Written? ==>
          call.stamp !in w.manifest && Final(call.stamp) in w.files && w.files[Final(call.stamp)] == Whole(call.pak))
  }

  /** The paks of calls in flight are in place, and no two share a stamp. */
  ghost predicate CallsOk(s: State) {
    && (forall c :: c in s.calls ==> CallOk(s.w, s.calls[c]))
    && forall c, d :: c in s.calls && d in s.calls && c != d && s.calls[c].Written? && s.calls[d].Written?
         ==> s.calls[c].stamp != s.calls[d].stamp
  }

  /** Listed paks are as recorded, and every fact ever added is somewhere. */
  ghost predicate Sane(s: State, hash: Hash) {
    && s.w.db.WellFormed() && Recorded(s.w, hash) && CallsOk(s)
    && forall id :: Somewhere(s.w, id) <==> 0 <= id < s.w.db.nextFact
  }

  // ---------- nothing is lost ----------

  lemma SameFacts(s: State, t: State, hash: Hash)
    requires Sane(s, hash) && t.calls == s.calls && t.w.files == s.w.files && t.w.manifest == s.w.manifest
    requires t.w.db.WellFormed() && t.w.db.facts.Keys == s.w.db.facts.Keys && t.w.db.nextFact == s.w.db.nextFact
    ensures Sane(t, hash) && forall id :: Twice(t.w, id) <==> Twice(s.w, id)
  {
    forall t0, id ensures InPak(t.w, t0, id) <==> InPak(s.w, t0, id) {}
    forall id ensures Somewhere(t.w, id) <==> Somewhere(s.w, id) {}
    forall c | c in t.calls ensures CallOk(t.w, t.calls[c]) {
      assert CallOk(s.w, s.calls[c]);
    }
  }

  lemma InsertKeeps(s: State, f: Fact, hash: Hash)
    requires Sane(s, hash)
    ensures Sane(Next(s, Insert(f), hash), hash)
    ensures forall id :: Twice(Next(s, Insert(f), hash).w, id) <==> Twice(s.w, id)
  {
    var t := Next(s, Insert(f), hash);
    forall t0, id ensures InPak(t.w, t0, id) <==> InPak(s.w, t0, id) {}
    forall id ensures Somewhere(t.w, id) <==> Somewhere(s.w, id) || id == s.w.db.nextFact {}
    forall c | c in t.calls ensures CallOk(t.w, t.calls[c]) {
      assert CallOk(s.w, s.calls[c]);
    }
    assert !Somewhere(s.w, s.w.db.nextFact);
  }

  lemma SelectKeeps(s: State, c: int, before: int, minFacts: nat, hash: Hash)
    requires Sane(s, hash)
    ensures Sane(Next(s, Select(c, before, minFacts), hash), hash)
  {
    var t := Next(s, Select(c, before, minFacts), hash);
    forall d | d in t.calls ensures CallOk(t.w, t.calls[d]) {
      if d in s.calls {
        assert CallOk(s.w, s.calls[d]);
      } else {
        assert t.calls[d].pak.facts.Keys == t.calls[d].ids;
      }
    }
  }

  ghost predicate FileKept(w: World, t: World, stamp: int) {
    && (Final(stamp) in t.files <==> Final(stamp) in w.files)
    && (Final(stamp) in w.files ==> t.files[Final(stamp)] == w.files[Final(stamp)])
  }

  /** A write that overwrites nothing in use leaves every pak in use; one that succeeds has put its own in place. */
  lemma WriteFilesKept(s: State, e: Event, hash: Hash)
    requires e.Write? && !Overwrites(s, e)
    ensures var t := Next(s, e, hash);
      && t.w.db == s.w.db && t.w.manifest == s.w.manifest
      && (forall x :: InUse(s, x) ==> FileKept(s.w, t.w, x))
      && (forall c :: c in t.calls && c != e.c ==> c in s.calls && t.calls[c] == s.calls[c])
  {}

  /** The call has written its pak, and the file is in place. */
  ghost predicate PakPlaced(s: State, e: Event, t: State)
    requires e.Write?
  {
    && RenamesNow(s, e) && e.c in t.calls
    && t.calls[e.c] == Written(s.calls[e.c].ids, s.calls[e.c].pak, e.stamp)
    && Final(e.stamp) in t.w.files && t.w.files[Final(e.stamp)] == Whole(s.calls[e.c].pak)
  }

  lemma WriteSucceeds(s: State, e: Event, hash: Hash)
    requires e.Write? && e.c in Next(s, e, hash).calls
    ensures Next(s, e, hash) == s || PakPlaced(s, e, Next(s, e, hash))
  {}

  lemma WriteKeeps(s: State, e: Event, hash: Hash)
    requires Sane(s, hash) && e.Write? && !Overwrites(s, e)
    ensures Sane(Next(s, e, hash), hash)
    ensures forall id :: Twice(Next(s, e, hash).w, id) <==> Twice(s.w, id)
  {
    var t := Next(s, e, hash);
    WriteFilesKept(s, e, hash);
    forall x, id ensures InPak(t.w, x, id) <==> InPak(s.w, x, id) {
      assert x in s.w.manifest ==> InUse(s, x) && FileKept(s.w, t.w, x);
    }
    forall id ensures Somewhere(t.w, id) <==> Somewhere(s.w, id) {}
    if e.c in t.calls {
      WriteSucceeds(s, e, hash);
    }
    if t != s {
      WriteCalls(s, e, t);
      forall x | x in t.w.manifest ensures FileKept(s.w, t.w, x) {
        assert InUse(s, x);
      }
    }
  }

  /** The calls after a write that did something. */
  lemma WriteCalls(s: State, e: Event, t: State)
    requires CallsOk(s) && e.Write? && e.c in s.calls && !Overwrites(s, e)
    requires t.w.manifest == s.w.manifest && forall id :: Somewhere(t.w, id) <==> Somewhere(s.w, id)
    requires forall x :: InUse(s, x) ==> FileKept(s.w, t.w, x)
    requires forall c :: c in t.calls && c != e.c ==> c in s.calls && t.calls[c] == s.calls[c]
    requires e.c in t.calls ==> PakPlaced(s, e, t)
    ensures CallsOk(t)
  {
    forall c | c in t.calls ensures CallOk(t.w, t.calls[c]) {
      assert CallOk(s.w, s.calls[c]);
      if c != e.c && t.calls[c].Written? {
        assert InUse(s, t.calls[c].stamp) && FileKept(s.w, t.w, t.calls[c].stamp);
      }
    }
    forall c, d | c in t.calls && d in t.calls && c != d && t.calls[c].Written? && t.calls[d].Written?
      ensures t.calls[c].stamp != t.calls[d].stamp
    {
      if c != e.c {
        assert InUse(s, t.calls[c].stamp);
      }
      if d != e.c {
        assert InUse(s, t.calls[d].stamp);
      }
    }
  }

  // ---------- commits ----------

  /** The facts a commit takes although they have gone from the store since its call selected them. */
  ghost predicate CommitsGone(s: State, e: Event, id: int) {
    Commits(s, e) && id in s.calls[e.c].ids && id !in s.w.db.facts
  }

  /** Where everything is after a commit. */
  lemma CommitMoves(s: State, e: Event, hash: Hash)
    requires CallsOk(s) && Commits(s, e)
    ensures var t, call := Next(s, e, hash), s.calls[e.c];
      && (forall id :: id in t.w.db.facts <==> id in s.w.db.facts && id !in call.ids)
      && (forall x, id :: InPak(t.w, x, id) <==> if x == call.stamp then id in call.ids else InPak(s.w, x, id))
      && !(exists id :: InPak(s.w, call.stamp, id))
  {
    assert CallOk(s.w, s.calls[e.c]);
  }

  /** Which facts a commit leaves in two places: those that were, and those it takes a second time. */
  lemma CommitDoubles(s: State, e: Event, hash: Hash, id: int)
    requires Sane(s, hash) && Commits(s, e)
    ensures Twice(Next(s, e, hash).w, id) <==> Twice(s.w, id) || CommitsGone(s, e, id)
  {
    var t, call := Next(s, e, hash), s.calls[e.c];
    CommitMoves(s, e, hash);
    assert CallOk(s.w, call);
    if id in call.ids {
      assert InPak(t.w, call.stamp, id) && Somewhere(s.w, id);
      if x :| InPak(s.w, x, id) {
        assert InPak(t.w, x, id) && x != call.stamp;
      }
    } else {
      assert forall x :: InPak(t.w, x, id) ==> InPak(s.w, x, id);
      assert forall x :: InPak(s.w, x, id) ==> InPak(t.w, x, id);
    }
  }

  lemma CommitKeeps(s: State, e: Event, hash: Hash)
    requires Sane(s, hash) && Commits(s, e)
    ensures Sane(Next(s, e, hash), hash)
  {
    var t, call := Next(s, e, hash), s.calls[e.c];
    CommitMoves(s, e, hash);
    forall id ensures Somewhere(t.w, id) <==> Somewhere(s.w, id) {
      assert CallOk(s.w, call);
      if id in call.ids {
        assert InPak(t.w, call.stamp, id) && Somewhere(s.w, id);
      } else {
        assert forall x :: InPak(t.w, x, id) ==> InPak(s.w, x, id);
        assert forall x :: InPak(s.w, x, id) ==> InPak(t.w, x, id);
      }
    }
    forall c | c in t.calls ensures CallOk(t.w, t.calls[c]) {
      assert CallOk(s.w, s.calls[c]) && CallOk(s.w, call);
    }
  }

  /** A refused commit takes its own pak away, or leaves it as a stray. */
  lemma RefusedKeeps(s: State, e: Event, hash: Hash)
    requires Sane(s, hash) && e.Commit? && !Commits(s, e)
    ensures Sane(Next(s, e, hash), hash)
    ensures forall id :: Twice(Next(s, e, hash).w, id) <==> Twice(s.w, id)
  {
    var t := Next(s, e, hash);
    if t != s {
      var call := s.calls[e.c];
      assert CallOk(s.w, call);
      forall x, id ensures InPak(t.w, x, id) <==> InPak(s.w, x, id) {}
      forall id ensures Somewhere(t.w, id) <==> Somewhere(s.w, id) {}
      forall c | c in t.calls ensures CallOk(t.w, t.calls[c]) {
        assert CallOk(s.w, s.calls[c]);
      }
    }
  }

  // ---------- one step ----------

  /** A step keeps every fact somewhere, unless it overwrites a pak in use; and it leaves a fact in two places
      exactly when it was, or when the step is a commit that takes it although it has gone. */
  lemma StepKeepsAll(s: State, e: Event, hash: Hash)
    requires Sane(s, hash) && !Overwrites(s, e)
    ensures Sane(Next(s, e, hash), hash)
    ensures forall id :: Twice(Next(s, e, hash).w, id) <==> Twice(s.w, id) || CommitsGone(s, e, id)
  {
    match e
    case Insert(f) => InsertKeeps(s, f, hash);
    case Retire(_, _) => SameFacts(s, Next(s, e, hash), hash);
    case Edit(_, _) => SameFacts(s, Next(s, e, hash), hash);
    case Select(c, before, minFacts) => SelectKeeps(s, c, before, minFacts, hash);
    case Write(_, _, _) => WriteKeeps(s, e, hash);
    case Commit(_, _, _) =>
      if Commits(s, e) {
        CommitKeeps(s, e, hash);
        forall id ensures Twice(Next(s, e, hash).w, id) <==> Twice(s.w, id) || CommitsGone(s, e, id) {
          CommitDoubles(s, e, hash, id);
        }
      } else {
        RefusedKeeps(s, e, hash);
      }
  }

  // ---------- every run ----------

  const EMPTY := State(World(Db(map[], map[], 0, 0), map[], map[]), map[])

  /** No write overwrites a pak in use: stamps no listed pak and no other call has will do. */
  ghost predicate Fresh(events: seq<Event>, hash: Hash) {
    forall k :: 0 <= k < |events| ==> !Overwrites(Run(EMPTY, events[..k], hash), events[k])
  }

  /** Whatever interleaves and whatever fails, every fact ever added is live or in a listed pak, and every listed
      pak is as recorded. */
  lemma {:induction false} NothingLost(events: seq<Event>, hash: Hash)
    requires Fresh(events, hash)
    ensures Sane(Run(EMPTY, events, hash), hash)
  {
    if events == [] {
      forall id ensures !Somewhere(EMPTY.w, id) {}
    } else {
      PrefixFresh(events, hash);
      NothingLost(events[..|events| - 1], hash);
      StepKeepsAll(Run(EMPTY, events[..|events| - 1], hash), events[|events| - 1], hash);
    }
  }

  lemma PrefixFresh(events: seq<Event>, hash: Hash)
    requires events != [] && Fresh(events, hash)
    ensures Fresh(events[..|events| - 1], hash)
    ensures !Overwrites(Run(EMPTY, events[..|events| - 1], hash), events[|events| - 1])
  {
    var n := |events| - 1;
    forall k | 0 <= k < n ensures !Overwrites(Run(EMPTY, events[..n][..k], hash), events[..n][k]) {
      assert events[..n][..k] == events[..k];
    }
  }

  /** Some commit of the run took the fact although an earlier one had. */
  ghost predicate TakenAgain(events: seq<Event>, hash: Hash, id: int) {
    exists k :: 0 <= k < |events| && CommitsGone(Run(EMPTY, events[..k], hash), events[k], id)
  }

  lemma {:induction false} TakenAgainNext(events: seq<Event>, hash: Hash, id: int)
    requires events != []
    ensures TakenAgain(events, hash, id) <==>
      || TakenAgain(events[..|events| - 1], hash, id)
      || CommitsGone(Run(EMPTY, events[..|events| - 1], hash), events[|events| - 1], id)
  {
    var n := |events| - 1;
    forall k | 0 <= k < n ensures events[..n][..k] == events[..k] {}
    if TakenAgain(events, hash, id) {
      var k :| 0 <= k < |events| && CommitsGone(Run(EMPTY, events[..k], hash), events[k], id);
      if k < n {
        assert CommitsGone(Run(EMPTY, events[..n][..k], hash), events[..n][k], id);
      }
    }
    if TakenAgain(events[..n], hash, id) {
      var k :| 0 <= k < n && CommitsGone(Run(EMPTY, events[..n][..k], hash), events[..n][k], id);
      assert CommitsGone(Run(EMPTY, events[..k], hash), events[k], id);
    }
  }

  /** Which facts are in two places after a run: exactly those that some commit took a second time. */
  lemma {:induction false} DoubledIff(events: seq<Event>, hash: Hash, id: int)
    requires Fresh(events, hash)
    ensures Twice(Run(EMPTY, events, hash).w, id) <==> TakenAgain(events, hash, id)
  {
    if events != [] {
      var n := |events| - 1;
      PrefixFresh(events, hash);
      DoubledIff(events[..n], hash, id);
      NothingLost(events[..n], hash);
      StepKeepsAll(Run(EMPTY, events[..n], hash), events[n], hash);
      TakenAgainNext(events, hash, id);
    }
  }

  /** A call is begun only when none is in flight. */
  ghost predicate Serial(events: seq<Event>, hash: Hash) {
    forall k :: 0 <= k < |events| && events[k].Select? ==> Run(EMPTY, events[..k], hash).calls == map[]
  }

  /** One call at most, and its candidates are still live. */
  ghost predicate Alone(s: State) {
    && (forall c, d :: c in s.calls && d in s.calls ==> c == d)
    && forall c, id :: c in s.calls && id in s.calls[c].ids ==> id in s.w.db.facts
  }

  lemma AloneStep(s: State, e: Event, hash: Hash)
    requires Alone(s) && (e.Select? ==> s.calls == map[])
    ensures Alone(Next(s, e, hash)) && forall id :: !CommitsGone(s, e, id)
  {}

  /** Calls that do not overlap leave no fact in two places. */
  lemma {:induction false} SerialDoublesNone(events: seq<Event>, hash: Hash, id: int)
    requires Fresh(events, hash) && Serial(events, hash)
    ensures Alone(Run(EMPTY, events, hash)) && !Twice(Run(EMPTY, events, hash).w, id)
  {
    if events != [] {
      var n := |events| - 1;
      var init := events[..n];
      forall k | 0 <= k < n && init[k].Select? ensures Run(EMPTY, init[..k], hash).calls == map[] {
        assert init[..k] == events[..k] && init[k] == events[k];
      }
      PrefixFresh(events, hash);
      SerialDoublesNone(init, hash, id);
      NothingLost(init, hash);
      AloneStep(Run(EMPTY, init, hash), events[n], hash);
      StepKeepsAll(Run(EMPTY, init, hash), events[n], hash);
    }
  }

  // ---------- what overlapping costs ----------

  /** An edit made between selection and commit survives exactly when it left the row as the pak has it. */
  lemma EditLostIff(s: State, e: Event, hash: Hash, id: int)
    requires Sane(s, hash) && Commits(s, e) && id in s.calls[e.c].ids && id in s.w.db.facts && !Twice(s.w, id)
    ensures Held(Next(s, e, hash).w, id, s.w.db.facts[id]) <==> s.calls[e.c].pak.facts[id] == s.w.db.facts[id]
  {
    var t, call, f := Next(s, e, hash), s.calls[e.c], s.w.db.facts[id];
    CommitMoves(s, e, hash);
    assert CallOk(s.w, call);
    assert forall x :: !InPak(s.w, x, id);
    assert PakAt(t.w, call.stamp, id, f) <==> call.pak.facts[id] == f;
    forall x | x != call.stamp ensures !PakAt(t.w, x, id, f) {
      assert !InPak(t.w, x, id);
    }
  }

  /** So an edit that comes between the write of the pak and the commit is stored, and lost with the commit
      unless it changed nothing. */
  lemma EditThenCommit(s: State, c: int, id: int, f: Fact, removeFails: bool, hash: Hash) returns (edited: State)
    requires Sane(s, hash) && c in s.calls && s.calls[c].Written? && s.calls[c].stamp !in s.w.manifest
    requires id in s.calls[c].ids && id in s.w.db.facts && f.expired == s.w.db.facts[id].expired && !Twice(s.w, id)
    ensures edited == Next(s, Edit(id, f), hash) && LiveAt(edited.w, id, f)
    ensures Held(Next(edited, Commit(c, false, removeFails), hash).w, id, f) <==> s.calls[c].pak.facts[id] == f
  {
    edited := Next(s, Edit(id, f), hash);
    SameFacts(s, edited, hash);
    assert CallOk(s.w, s.calls[c]);
    EditLostIff(edited, Commit(c, false, removeFails), hash, id);
  }

  const CLEAN := Faults(false, false, false, false, false, false, false, false)

  lemma {:induction false} RunNext(s: State, events: seq<Event>, e: Event, hash: Hash)
    ensures Run(s, events + [e], hash) == Next(Run(s, events, hash), e, hash)
  {
    assert (events + [e])[..|events|] == events;
  }

  /** Two calls that have selected the same candidates, write and commit without a fault. */
  function Both(c: int, d: int, x: int, y: int): seq<Event> {
    [Write(c, x, CLEAN)] + [Write(d, y, CLEAN)] + [Commit(c, false, false)] + [Commit(d, false, false)]
  }

  lemma {:induction false} BothCommit(s: State, c: int, d: int, x: int, y: int, hash: Hash) returns (t: State)
    requires c != d && c in s.calls && d in s.calls && s.calls[c].Selected? && s.calls[d].Selected? && x != y
    requires x !in s.w.manifest && y !in s.w.manifest && Temp(x) !in s.w.files && Temp(y) !in s.w.files
    ensures t == Run(s, Both(c, d, x, y), hash)
    ensures forall id :: id in s.calls[c].pak.facts ==> InPak(t.w, x, id)
    ensures forall id :: id in s.calls[d].pak.facts ==> InPak(t.w, y, id)
  {
    var events: seq<Event> := [];
    RunNext(s, events, Write(c, x, CLEAN), hash);
    var s1 := Next(s, Write(c, x, CLEAN), hash);
    events := events + [Write(c, x, CLEAN)];
    RunNext(s, events, Write(d, y, CLEAN), hash);
    var s2 := Next(s1, Write(d, y, CLEAN), hash);
    events := events + [Write(d, y, CLEAN)];
    RunNext(s, events, Commit(c, false, false), hash);
    var s3 := Next(s2, Commit(c, false, false), hash);
    events := events + [Commit(c, false, false)];
    RunNext(s, events, Commit(d, false, false), hash);
    t := Next(s3, Commit(d, false, false), hash);
    assert events + [Commit(d, false, false)] == Both(c, d, x, y);
    assert s2.calls[c] == Written(s.calls[c].ids, s.calls[c].pak, x);
    assert s3.calls[d] == Written(s.calls[d].ids, s.calls[d].pak, y);
    assert t.w.files == s2.w.files && t.w.files[Final(x)] == Whole(s.calls[c].pak);
  }

  /** So every fact that can be archived can be archived twice: two calls select before either commits. */
  lemma {:induction false} OverlapDoubles(s: State, before: int, c: int, d: int, x: int, y: int, hash: Hash, id: int)
    returns (t: State)
    requires c != d && c !in s.calls && d !in s.calls && x != y && id in CandidateIds(s.w.db, before)
    requires x !in s.w.manifest && y !in s.w.manifest && Temp(x) !in s.w.files && Temp(y) !in s.w.files
    ensures var chosen := Next(Next(s, Select(c, before, 0), hash), Select(d, before, 0), hash);
      t == Run(chosen, Both(c, d, x, y), hash)
    ensures Twice(t.w, id)
  {
    var chosen := Next(Next(s, Select(c, before, 0), hash), Select(d, before, 0), hash);
    t := BothCommit(chosen, c, d, x, y, hash);
    assert id in chosen.calls[c].pak.facts && id in chosen.calls[d].pak.facts;
    assert InPak(t.w, x, id) && InPak(t.w, y, id);
  }
}
