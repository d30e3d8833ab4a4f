/** Archiving expired facts to pak files (crates/me-archive/src/manage.rs, pak.rs).

    The directory, the manifest and the store change in separate steps, any of which may fail, the
    clean-up included. `StepKeepsIff` says when a call leaves every listed pak as it was recorded;
    `RunConserves` that over every run of such calls each fact stays in exactly one place.
  */
module PakArchive {
  import opened Collections
  import opened MemoryStore
  import Search = ArchiveSearch

  datatype Pak = Pak(facts: map<int, Fact>, edges: map<int, EdgeRow>)

  /** A temp file is partial until the encoder has finished. */
  datatype Contents = Partial | Whole(pak: Pak)

  /** Both names are built from the instant of the call. */
  datatype Name = Final(stamp: int) | Temp(stamp: int)

  /** The manifest row; `digest` is the content hash. */
  datatype Entry = Entry(factCount: nat, edgeCount: nat, digest: int)

  datatype World = World(db: Db, files: map<Name, Contents>, manifest: map<int, Entry>)

  /** The operations that fail in one call. */
  datatype Faults = Faults(mkdir: bool, create: bool, encode: bool, rename: bool, stat: bool, commit: bool,
                           removeTemp: bool, removeFinal: bool)

  datatype Error = MkdirFailed | CreateFailed | EncodeFailed | RenameFailed | StatFailed | CommitFailed

  datatype Args = Args(before: int, minFacts: nat, stamp: int, faults: Faults)

  /** The digest of a file. */
  type Hash = Contents -> int

  /** The digest tells the two apart if they differ. */
  ghost predicate Apart(hash: Hash, a: Contents, b: Contents) { hash(a) == hash(b) ==> a == b }

  // ---------- one call, as a function ----------

  function CandidateIds(db: Db, before: int): (r: set<int>)
    ensures forall id :: id in r ==> id in db.facts
  {
    set id | id in db.facts && ArchiveCandidate(db.facts[id], before)
  }

  /** The candidates with the edges inside them, expired ones included. */
  function BuildPak(db: Db, ids: set<int>): Pak {
    Pak(map id | id in db.facts && id in ids :: db.facts[id],
        map e | e in db.edges && db.edges[e].source in ids && db.edges[e].target in ids :: db.edges[e])
  }

  /** Temp file, encode, rename; a failure after the creation removes the temp file. */
  function WriteFiles(files: map<Name, Contents>, pak: Pak, stamp: int, f: Faults)
    : (map<Name, Contents>, Option<Error>)
  {
    var temp := Temp(stamp);
    if f.create || temp in files then (files, Some(CreateFailed))
    else if f.encode then (if f.removeTemp then files[temp := Partial] else files - {temp}, Some(EncodeFailed))
    else if f.rename then (if f.removeTemp then files[temp := Whole(pak)] else files - {temp}, Some(RenameFailed))
    else ((files - {temp})[Final(stamp) := Whole(pak)], None)
  }

  function Removed(files: map<Name, Contents>, name: Name, fails: bool): map<Name, Contents> {
    if fails then files else files - {name}
  }

  /** The world after the call, and its result: nothing to do, an error, or the archived ids. */
  function Step(w: World, a: Args, hash: Hash): (World, Result<Option<set<int>>, Error>) {
    var ids, f := CandidateIds(w.db, a.before), a.faults;
    if |ids| < a.minFacts then (w, Ok(None))
    else if f.mkdir then (w, Err(MkdirFailed))
    else
      var pak := BuildPak(w.db, ids);
      var (files, bad) := WriteFiles(w.files, pak, a.stamp, f);
      if bad.Some? then (w.(files := files), Err(bad.value))
      else if f.stat then (w.(files := Removed(files, Final(a.stamp), f.removeFinal)), Err(StatFailed))
      else if f.commit || a.stamp in w.manifest then
        (w.(files := Removed(files, Final(a.stamp), f.removeFinal)), Err(CommitFailed))
      else
        var row := Entry(|pak.facts|, |pak.edges|, hash(Whole(pak)));
        (World(HardDelete(w.db, ids), files, w.manifest[a.stamp := row]), Ok(Some(ids)))
  }

  // ---------- the call, step by step ----------

  class Vault {
    var db: Db
    var files: map<Name, Contents>
    var manifest: map<int, Entry>
    const hash: Hash

    ghost function Now(): World
      reads this
    {
      World(db, files, manifest)
    }

    constructor (hash: Hash)
      ensures this.hash == hash && Now() == World(Db(map[], map[], 0, 0), map[], map[])
    {
      this.hash := hash;
      db, files, manifest := Db(map[], map[], 0, 0), map[], map[];
    }

    method Remove(name: Name, fails: bool)
      modifies this`files
      ensures files == Removed(old(files), name, fails)
    {
      if !fails {
        files := files - {name};
      }
    }

    method WritePakAndHash(pak: Pak, stamp: int, f: Faults) returns (r: Result<int, Error>)
      modifies this`files
      ensures (files, if r.Err? then Some(r.error) else None) == WriteFiles(old(files), pak, stamp, f)
      ensures r.Ok? ==> r.value == hash(Whole(pak))
    {
      var temp := Temp(stamp);
      if f.create || temp in files {
        return Err(CreateFailed);
      }
      files := files[temp := Partial];
      if f.encode {
        r := Err(EncodeFailed);
      } else {
        files := files[temp := Whole(pak)];
        if f.rename {
          r := Err(RenameFailed);
        } else {
          files := (files - {temp})[Final(stamp) := Whole(pak)];
          r := Ok(hash(Whole(pak)));
        }
      }
      if r.Err? {
        Remove(temp, f.removeTemp);
      }
      assert r.Err? && !f.removeTemp ==> files == old(files) - {temp};
      assert r == Err(RenameFailed) && f.removeTemp ==> files == old(files)[temp := Whole(pak)];
      assert r.Ok? ==> files == (old(files) - {temp})[Final(stamp) := Whole(pak)];
    }

    method WritePakToDisk(pak: Pak, stamp: int, f: Faults) returns (r: Result<int, Error>)
      modifies this`files
      ensures f.mkdir ==> r == Err(MkdirFailed) && files == old(files)
      ensures !f.mkdir ==> var (written, bad) := WriteFiles(old(files), pak, stamp, f);
        if bad.Some? then r == Err(bad.value) && files == written
        else if f.stat then r == Err(StatFailed) && files == Removed(written, Final(stamp), f.removeFinal)
        else r == Ok(hash(Whole(pak))) && files == written
    {
      if f.mkdir {
        return Err(MkdirFailed);
      }
      r := WritePakAndHash(pak, stamp, f);
      if r.Ok? && f.stat {
        Remove(Final(stamp), f.removeFinal);
        return Err(StatFailed);
      }
    }

    method Archive(a: Args) returns (r: Result<Option<set<int>>, Error>)
      modifies this
      ensures (Now(), r) == Step(old(Now()), a, hash)
    {
      var ids := CandidateIds(db, a.before);
      if |ids| < a.minFacts {
        return Ok(None);
      }
      var pak := BuildPak(db, ids);
      var written := WritePakToDisk(pak, a.stamp, a.faults);
      if written.Err? {
        return Err(written.error);
      }
      if a.faults.commit || a.stamp in manifest {
        Remove(Final(a.stamp), a.faults.removeFinal);
        return Err(CommitFailed);
      }
      db := HardDelete(db, ids);
      manifest := manifest[a.stamp := Entry(|pak.facts|, |pak.edges|, written.value)];
      return Ok(Some(ids));
    }
  }

  // ---------- agreement ----------

  /** Every pak the manifest lists is there, whole and with the recorded digest. */
  ghost predicate Recorded(w: World, hash: Hash) {
    forall s :: s in w.manifest ==>
      Final(s) in w.files && w.files[Final(s)].Whole? && w.manifest[s].digest == hash(w.files[Final(s)])
  }

  /** No temp file and no pak without a row. */
  ghost predicate Tidy(w: World) { forall n :: n in w.files ==> n.Final? && n.stamp in w.manifest }

  /** The fact is in the live store, or in the pak of a manifest row. */
  ghost predicate LiveAt(w: World, id: int, f: Fact) { id in w.db.facts && w.db.facts[id] == f }

  ghost predicate PakAt(w: World, s: int, id: int, f: Fact) {
    && s in w.manifest && Final(s) in w.files && w.files[Final(s)].Whole?
    && id in w.files[Final(s)].pak.facts && w.files[Final(s)].pak.facts[id] == f
  }

  ghost predicate Held(w: World, id: int, f: Fact) { LiveAt(w, id, f) || exists s :: PakAt(w, s, id, f) }

  ghost predicate SameHeld(w: World, after: World) { forall id, f :: Held(after, id, f) <==> Held(w, id, f) }

  /** No id is in two places, and ids still to come are in none. */
  ghost predicate OnePlace(w: World) {
    && (forall s, id, f, g :: PakAt(w, s, id, f) ==> !LiveAt(w, id, g))
    && (forall s, t, id, f, g :: PakAt(w, s, id, f) && PakAt(w, t, id, g) ==> s == t)
    && (forall s, id, f :: PakAt(w, s, id, f) ==> id < w.db.nextFact)
  }

  ghost predicate Sound(w: World, hash: Hash) {
    w.db.WellFormed() && Recorded(w, hash) && OnePlace(w)
  }

  // ---------- what a call leaves ----------

  function NewPak(w: World, a: Args): Contents { Whole(BuildPak(w.db, CandidateIds(w.db, a.before))) }

  predicate Tries(w: World, a: Args) {
    |CandidateIds(w.db, a.before)| >= a.minFacts && !a.faults.mkdir && !a.faults.create && Temp(a.stamp) !in w.files
  }

  /** The call gets as far as renaming the pak into place. */
  predicate Renames(w: World, a: Args) { Tries(w, a) && !a.faults.encode && !a.faults.rename }

  predicate Archives(w: World, a: Args) {
    Renames(w, a) && !a.faults.stat && !a.faults.commit && a.stamp !in w.manifest
  }

  /** The call renames its pak onto a listed one. That is harmless only if the deletion of the refused
      file then fails too, and the two are the same. */
  predicate Clobbers(w: World, a: Args) {
    && a.stamp in w.manifest && Renames(w, a)
    && !(a.faults.removeFinal && Final(a.stamp) in w.files && w.files[Final(a.stamp)] == NewPak(w, a))
  }

  /** The call cannot delete what it should: a temp file, or a pak whose row was refused. */
  predicate LeavesStray(w: World, a: Args) {
    && Tries(w, a)
    && if Renames(w, a) then a.stamp !in w.manifest && (a.faults.stat || a.faults.commit) && a.faults.removeFinal
       else a.faults.removeTemp
  }

  /** Store and manifest as before, and every listed pak. */
  ghost predicate Unmoved(w: World, after: World) {
    && after.db == w.db && after.manifest == w.manifest
    && forall s :: s in w.manifest && Final(s) in w.files ==>
         Final(s) in after.files && after.files[Final(s)] == w.files[Final(s)]
  }

  /** The answer, exactly, and what a call that does not archive leaves: nothing that is listed moves, and
      nothing at all unless it leaves a stray. */
  lemma AllOrNothing(w: World, a: Args, hash: Hash)
    requires Sound(w, hash) && !Clobbers(w, a)
    ensures Step(w, a, hash).1 == Ok(None) <==> |CandidateIds(w.db, a.before)| < a.minFacts
    ensures Step(w, a, hash).1.Err? <==> |CandidateIds(w.db, a.before)| >= a.minFacts && !Archives(w, a)
    ensures !Archives(w, a) ==> Unmoved(w, Step(w, a, hash).0)
    ensures Tidy(w) && !Archives(w, a) ==> (Step(w, a, hash).0 == w <==> !LeavesStray(w, a))
  {
    if Tidy(w) && !Archives(w, a) {
      assert Temp(a.stamp) !in w.files;
      assert w.files - {Temp(a.stamp)} == w.files;
      if a.stamp !in w.manifest {
        assert Final(a.stamp) !in w.files;
        assert w.files[Final(a.stamp) := NewPak(w, a)] - {Final(a.stamp)} == w.files;
      } else if Renames(w, a) {
        assert w.files[Final(a.stamp) := NewPak(w, a)] == w.files;
      }
    }
  }

  /** The new pak holds the archived facts, the others what they held. */
  ghost predicate MovedPaks(w: World, after: World, stamp: int, ids: set<int>) {
    && (forall id, f :: PakAt(after, stamp, id, f) <==> LiveAt(w, id, f) && id in ids)
    && (forall s, id, f :: s != stamp ==> (PakAt(after, s, id, f) <==> PakAt(w, s, id, f)))
  }

  /** The world a successful call leaves. */
  function Archived(w: World, stamp: int, ids: set<int>, pak: Pak, hash: Hash): World {
    World(HardDelete(w.db, ids), (w.files - {Temp(stamp)})[Final(stamp) := Whole(pak)],
          w.manifest[stamp := Entry(|pak.facts|, |pak.edges|, hash(Whole(pak)))])
  }

  lemma StepArchives(w: World, a: Args, hash: Hash)
    requires Archives(w, a)
    ensures var ids := CandidateIds(w.db, a.before);
      Step(w, a, hash) == (Archived(w, a.stamp, ids, BuildPak(w.db, ids), hash), Ok(Some(ids)))
  {}

  lemma RecordsMove(w: World, after: World, stamp: int, ids: set<int>, pak: Pak, hash: Hash)
    requires Recorded(w, hash) && w.db.WellFormed() && after == Archived(w, stamp, ids, pak, hash)
    ensures Recorded(after, hash) && after.db.WellFormed() && after.db.nextFact == w.db.nextFact
  {}

  lemma FactsLeave(w: World, after: World, ids: set<int>)
    requires after.db == HardDelete(w.db, ids)
    ensures forall id, f :: LiveAt(after, id, f) <==> LiveAt(w, id, f) && id !in ids
  {}

  lemma FactsArrive(w: World, after: World, stamp: int, ids: set<int>, hash: Hash)
    requires after == Archived(w, stamp, ids, BuildPak(w.db, ids), hash)
    ensures MovedPaks(w, after, stamp, ids)
  {
    forall s, id, f | s != stamp ensures PakAt(after, s, id, f) <==> PakAt(w, s, id, f) {
      assert Final(s) in after.files <==> Final(s) in w.files;
    }
  }

  lemma MovedKeepsPlaces(w: World, after: World, stamp: int, ids: set<int>)
    requires OnePlace(w) && w.db.WellFormed() && stamp !in w.manifest && after.db.nextFact == w.db.nextFact
    requires forall id, f :: LiveAt(after, id, f) <==> LiveAt(w, id, f) && id !in ids
    requires MovedPaks(w, after, stamp, ids)
    ensures OnePlace(after) && SameHeld(w, after)
  {
    forall id, f ensures Held(after, id, f) <==> Held(w, id, f) {
      if LiveAt(w, id, f) && id in ids {
        assert PakAt(after, stamp, id, f);
      }
      if s :| PakAt(w, s, id, f) {
        assert PakAt(after, s, id, f);
      }
    }
  }

  lemma UnmovedKeeps(w: World, after: World, hash: Hash)
    requires Sound(w, hash) && Unmoved(w, after)
    ensures Sound(after, hash) && SameHeld(w, after)
  {
    assert forall id, f :: LiveAt(after, id, f) <==> LiveAt(w, id, f);
    assert forall s, id, f :: PakAt(after, s, id, f) <==> PakAt(w, s, id, f);
    assert forall id, f :: Held(after, id, f) <==> Held(w, id, f);
  }

  /** Whatever fails, a call that does not clobber a listed pak keeps the records, and what is held. */
  lemma StepKeeps(w: World, a: Args, hash: Hash)
    requires Sound(w, hash) && !Clobbers(w, a)
    ensures Sound(Step(w, a, hash).0, hash) && SameHeld(w, Step(w, a, hash).0)
  {
    var after := Step(w, a, hash).0;
    if Archives(w, a) {
      StepArchives(w, a, hash);
      var ids := CandidateIds(w.db, a.before);
      RecordsMove(w, after, a.stamp, ids, BuildPak(w.db, ids), hash);
      FactsLeave(w, after, ids);
      FactsArrive(w, after, a.stamp, ids, hash);
      MovedKeepsPlaces(w, after, a.stamp, ids);
    } else {
      AllOrNothing(w, a, hash);
      UnmovedKeeps(w, after, hash);
    }
  }

  /** One that does breaks them, if the digest tells the two paks apart. */
  lemma StepKeepsIff(w: World, a: Args, hash: Hash)
    requires Sound(w, hash)
    requires a.stamp in w.manifest ==> Apart(hash, w.files[Final(a.stamp)], NewPak(w, a))
    ensures Sound(Step(w, a, hash).0, hash) <==> !Clobbers(w, a)
    ensures !Clobbers(w, a) ==> SameHeld(w, Step(w, a, hash).0)
  {
    if Clobbers(w, a) {
      ClobberLeaves(w, a, hash);
    } else {
      StepKeeps(w, a, hash);
    }
  }

  /** Store and manifest stay; the listed file is deleted, or holds the refused pak. */
  lemma ClobberLeaves(w: World, a: Args, hash: Hash)
    requires Clobbers(w, a)
    ensures var after := Step(w, a, hash).0;
      && Step(w, a, hash).1.Err? && after.db == w.db && after.manifest == w.manifest
      && (Final(a.stamp) in after.files <==> a.faults.removeFinal)
      && (a.faults.removeFinal ==> after.files[Final(a.stamp)] == NewPak(w, a))
      && (forall s | s != a.stamp :: Final(s) in after.files <==> Final(s) in w.files)
      && (forall s | s != a.stamp && Final(s) in w.files :: after.files[Final(s)] == w.files[Final(s)])
  {}

  /** A tidy directory stays tidy exactly when the call can delete what it should. */
  lemma StepTidyIff(w: World, a: Args, hash: Hash)
    requires Sound(w, hash) && Tidy(w)
    ensures Tidy(Step(w, a, hash).0) <==> !LeavesStray(w, a)
  {
    var files := Step(w, a, hash).0.files;
    if LeavesStray(w, a) {
      assert if Renames(w, a) then Final(a.stamp) in files else Temp(a.stamp) in files;
    }
  }

  /** What clobbering costs: every fact archived under that stamp is gone, from store and directory. */
  lemma CollisionLoses(w: World, a: Args, hash: Hash, id: int, f: Fact)
    requires Sound(w, hash) && a.stamp in w.manifest && Renames(w, a) && PakAt(w, a.stamp, id, f)
    ensures Step(w, a, hash).1.Err? && Step(w, a, hash).0.db == w.db
    ensures forall g :: !Held(Step(w, a, hash).0, id, g)
  {
    var after := Step(w, a, hash).0;
    if id in BuildPak(w.db, CandidateIds(w.db, a.before)).facts {
      assert LiveAt(w, id, w.db.facts[id]);
    }
    ClobberLeaves(w, a, hash);
    forall g ensures !Held(after, id, g) {
      assert LiveAt(after, id, g) ==> LiveAt(w, id, g);
      assert forall s :: PakAt(after, s, id, g) ==> PakAt(w, s, id, g) && s != a.stamp;
    }
  }

  /** A call that archives moves exactly the facts that are not pinned and expired before its cutoff. */
  lemma ArchivedAre(w: World, a: Args, hash: Hash, id: int, f: Fact)
    requires Archives(w, a)
    ensures var after := Step(w, a, hash).0;
      var moves := !f.pinned && f.expired.Some? && f.expired.value < a.before;
      && (PakAt(after, a.stamp, id, f) <==> LiveAt(w, id, f) && moves)
      && (LiveAt(after, id, f) <==> LiveAt(w, id, f) && !moves)
  {
    StepArchives(w, a, hash);
    var ids := CandidateIds(w.db, a.before);
    FactsLeave(w, Step(w, a, hash).0, ids);
    FactsArrive(w, Step(w, a, hash).0, a.stamp, ids, hash);
  }

  /** The row of a new pak counts its facts and edges and has the digest of its file. */
  lemma RowRecorded(w: World, a: Args, hash: Hash)
    requires Archives(w, a)
    ensures var after := Step(w, a, hash).0;
      && after.manifest.Keys == w.manifest.Keys + {a.stamp}
      && (forall s :: s in w.manifest ==> after.manifest[s] == w.manifest[s])
      && Final(a.stamp) in after.files && after.files[Final(a.stamp)].Whole?
      && var pak := after.files[Final(a.stamp)].pak;
         after.manifest[a.stamp] == Entry(|pak.facts|, |pak.edges|, hash(after.files[Final(a.stamp)]))
  {
    StepArchives(w, a, hash);
  }

  /** Which fault an error names: the first step that fails. */
  lemma ErrorNames(w: World, a: Args, hash: Hash, e: Error)
    requires Step(w, a, hash).1 == Err(e)
    ensures var f := a.faults;
      match e
      case MkdirFailed => f.mkdir
      case CreateFailed => !f.mkdir && (f.create || Temp(a.stamp) in w.files)
      case EncodeFailed => !f.mkdir && !f.create && f.encode
      case RenameFailed => !f.mkdir && !f.create && !f.encode && f.rename
      case StatFailed => !f.mkdir && !f.create && !f.encode && !f.rename && f.stat
      case CommitFailed =>
        !f.mkdir && !f.create && !f.encode && !f.rename && !f.stat && (f.commit || a.stamp in w.manifest)
  {}

  // ---------- edges ----------

  /** An edge survives as it was, in the new pak if both its ends are archived, live if neither is, and
      otherwise nowhere. */
  lemma EdgeKeptIff(w: World, a: Args, hash: Hash, e: int)
    requires Archives(w, a) && e in w.db.edges
    ensures var after, ids := Step(w, a, hash).0, CandidateIds(w.db, a.before); var row := w.db.edges[e];
      && Final(a.stamp) in after.files && after.files[Final(a.stamp)].Whole?
      && (e in after.db.edges <==> row.source !in ids && row.target !in ids)
      && (e in after.db.edges ==> after.db.edges[e] == row)
      && var packed := after.files[Final(a.stamp)].pak.edges;
         && (e in packed <==> row.source in ids && row.target in ids) && (e in packed ==> packed[e] == row)
  {
    StepArchives(w, a, hash);
  }

  // ---------- verification ----------

  type Path = seq<Search.Component>

  /** A manifest row as verification reads it; the path may have been tampered with. */
  datatype Row = Row(path: Path, digest: int)

  datatype File = Readable(contents: Contents) | Unreadable

  datatype Verdict = Good | Traversal | NotFound | Mismatch(actual: int) | IoError

  ghost predicate FileIs(disk: map<Path, File>, path: Path, c: Contents) {
    path in disk && disk[path] == Readable(c)
  }

  /** What each verdict says about the row. */
  ghost predicate Judged(disk: map<Path, File>, hash: Hash, row: Row, v: Verdict) {
    if v.Traversal? then !Search.IsWithinArchiveDir(row.path)
    else
      && Search.IsWithinArchiveDir(row.path)
      && match v
         case NotFound => row.path !in disk
         case IoError => row.path in disk && disk[row.path].Unreadable?
         case Mismatch(actual) => actual != row.digest && (exists c :: FileIs(disk, row.path, c) && hash(c) == actual)
         case Good => exists c :: FileIs(disk, row.path, c) && hash(c) == row.digest
  }

  /** The digest does not confuse `c` with what is there now. */
  ghost predicate Told(disk: map<Path, File>, hash: Hash, path: Path, c: Contents) {
    forall d :: FileIs(disk, path, d) ==> Apart(hash, c, d)
  }

  /** A row is good exactly when its file is the one that was hashed. */
  ghost predicate Vouches(disk: map<Path, File>, hash: Hash, row: Row, v: Verdict) {
    forall c | hash(c) == row.digest && Told(disk, hash, row.path, c) ::
      v.Good? <==> Search.IsWithinArchiveDir(row.path) && FileIs(disk, row.path, c)
  }

  /** One verdict for each row in order, none looked up outside the directory. A row is good exactly when its
      file is what was hashed, and no failure stops the others. */
  method VerifyArchives(disk: map<Path, File>, hash: Hash, rows: seq<Row>) returns (out: seq<Verdict>)
    ensures |out| == |rows|
    ensures forall k :: 0 <= k < |rows| ==> Judged(disk, hash, rows[k], out[k])
    ensures forall k :: 0 <= k < |rows| ==> Vouches(disk, hash, rows[k], out[k])
  {
    out := [];
    for k := 0 to |rows|
      invariant |out| == k && forall j :: 0 <= j < k ==> Judged(disk, hash, rows[j], out[j])
    {
      if !Search.IsWithinArchiveDir(rows[k].path) {
        out := out + [Traversal];
        continue;
      }
      var verdict := NotFound;
      if rows[k].path in disk {
        verdict := VerifySingle(disk[rows[k].path], hash, rows[k].digest);
        assert disk[rows[k].path].Readable? ==> FileIs(disk, rows[k].path, disk[rows[k].path].contents);
      }
      out := out + [verdict];
    }
    forall k | 0 <= k < |rows| ensures Vouches(disk, hash, rows[k], out[k]) {
      VerifiesIff(disk, hash, rows[k], out[k]);
    }
  }

  method VerifySingle(file: File, hash: Hash, digest: int) returns (v: Verdict)
    ensures file.Unreadable? ==> v == IoError
    ensures file.Readable? ==> v == if hash(file.contents) == digest then Good else Mismatch(hash(file.contents))
  {
    match file
    case Unreadable => v := IoError;
    case Readable(c) => v := if hash(c) == digest then Good else Mismatch(hash(c));
  }

  lemma VerifiesIff(disk: map<Path, File>, hash: Hash, row: Row, v: Verdict)
    requires Judged(disk, hash, row, v)
    ensures Vouches(disk, hash, row, v)
    ensures forall u :: Judged(disk, hash, row, u) ==> u == v
  {
    forall c | hash(c) == row.digest && Told(disk, hash, row.path, c)
      ensures v.Good? <==> Search.IsWithinArchiveDir(row.path) && FileIs(disk, row.path, c)
    {
      if v.Good? {
        var d :| FileIs(disk, row.path, d) && hash(d) == row.digest;
        assert Apart(hash, c, d);
      }
    }
  }

  function PathOf(name: int -> string, s: int): Path { [Search.Normal(name(s))] }

  /** Verification finds all damage and nothing else: in a sound world, whatever has happened to the directory
      since, all rows are good exactly when every listed pak is still there as it was. */
  lemma AuditIsExact(w: World, hash: Hash, name: int -> string, disk: map<Path, File>, out: map<int, Verdict>)
    requires Sound(w, hash) && out.Keys == w.manifest.Keys
    requires forall s :: s in out ==> Judged(disk, hash, Row(PathOf(name, s), w.manifest[s].digest), out[s])
    requires forall s :: s in out ==> Told(disk, hash, PathOf(name, s), w.files[Final(s)])
    ensures forall s :: s in out ==> (out[s].Good? <==> FileIs(disk, PathOf(name, s), w.files[Final(s)]))
    ensures forall s :: s in out ==> !out[s].Traversal?
  {
    forall s | s in out ensures out[s].Good? <==> FileIs(disk, PathOf(name, s), w.files[Final(s)]) {
      var row := Row(PathOf(name, s), w.manifest[s].digest);
      VerifiesIff(disk, hash, row, out[s]);
      assert hash(w.files[Final(s)]) == row.digest;
    }
  }

  // ---------- runs ----------

  /** Only an active fact can be expired. */
  datatype Op = Add(fact: Fact) | Expire(id: int, now: int) | Archive(args: Args)

  function Apply(w: World, op: Op, hash: Hash): World {
    match op
    case Add(f) => w.(db := InsertFact(w.db, f))
    case Expire(id, now) => if w.db.Has(id) then w.(db := ExpireFact(w.db, id, now)) else w
    case Archive(a) => Step(w, a, hash).0
  }

  function After(w: World, ops: seq<Op>, hash: Hash): World {
    if ops == [] then w else Apply(After(w, ops[..|ops| - 1], hash), ops[|ops| - 1], hash)
  }

  /** No call clobbers a listed pak. Stamps that no listed pak has will do, whatever else fails. */
  ghost predicate Careful(w: World, ops: seq<Op>, hash: Hash) {
    forall k :: 0 <= k < |ops| && ops[k].Archive? ==> !Clobbers(After(w, ops[..k], hash), ops[k].args)
  }

  /** Every file that had to be deleted could be. */
  ghost predicate Cleans(w: World, ops: seq<Op>, hash: Hash) {
    forall k :: 0 <= k < |ops| && ops[k].Archive? ==> !LeavesStray(After(w, ops[..k], hash), ops[k].args)
  }

  ghost predicate HeldId(w: World, id: int) { exists f :: Held(w, id, f) }

  lemma {:induction false} ApplyKeeps(w: World, op: Op, hash: Hash)
    requires Sound(w, hash) && (op.Archive? ==> !Clobbers(w, op.args))
    ensures Sound(Apply(w, op, hash), hash)
    ensures Tidy(w) && (op.Archive? ==> !LeavesStray(w, op.args)) ==> Tidy(Apply(w, op, hash))
    ensures forall id :: HeldId(Apply(w, op, hash), id) <==> HeldId(w, id) || (op.Add? && id == w.db.nextFact)
  {
    var after := Apply(w, op, hash);
    if op.Archive? {
      StepKeeps(w, op.args, hash);
      if Tidy(w) {
        StepTidyIff(w, op.args, hash);
      }
      forall id ensures HeldId(after, id) <==> HeldId(w, id) {
        if f :| Held(w, id, f) { assert Held(after, id, f); }
        if f :| Held(after, id, f) { assert Held(w, id, f); }
      }
    } else {
      StoreOnly(w, after, op);
    }
  }

  /** An active, unpinned fact that expires before the cutoff of the next call goes into that call's pak. */
  lemma ExpiredThenArchived(w: World, id: int, now: int, a: Args, hash: Hash)
    requires id in w.db.facts && w.db.facts[id].expired.None? && !w.db.facts[id].pinned && now < a.before
    requires Archives(Apply(w, Expire(id, now), hash), a)
    ensures var f := w.db.facts[id].(expired := Some(now));
      var after := Step(Apply(w, Expire(id, now), hash), a, hash).0;
      PakAt(after, a.stamp, id, f) && id !in after.db.facts
  {
    var f := w.db.facts[id].(expired := Some(now));
    var expired := Apply(w, Expire(id, now), hash);
    assert LiveAt(expired, id, f);
    ArchivedAre(expired, a, hash, id, f);
    var after := Step(expired, a, hash).0;
    if id in after.db.facts {
      ArchivedAre(expired, a, hash, id, after.db.facts[id]);
      assert LiveAt(after, id, after.db.facts[id]);
    }
  }

  lemma StoreOnly(w: World, after: World, op: Op)
    requires OnePlace(w) && w.db.WellFormed()
    requires op.Add? || op.Expire?
    requires after == if op.Add? then w.(db := InsertFact(w.db, op.fact))
                      else if w.db.Has(op.id) then w.(db := ExpireFact(w.db, op.id, op.now)) else w
    ensures OnePlace(after)
    ensures forall id :: HeldId(after, id) <==> HeldId(w, id) || (op.Add? && id == w.db.nextFact)
  {
    assert forall s, id, f :: PakAt(after, s, id, f) <==> PakAt(w, s, id, f);
    forall s, id, f | PakAt(w, s, id, f) ensures id !in after.db.facts {
      assert id in w.db.facts ==> LiveAt(w, id, w.db.facts[id]);
    }
    forall id ensures HeldId(after, id) <==> HeldId(w, id) || (op.Add? && id == w.db.nextFact) {
      HeldIn(w, id);
      HeldIn(after, id);
    }
  }

  lemma HeldIn(w: World, id: int)
    ensures HeldId(w, id) <==> id in w.db.facts || exists s, f :: PakAt(w, s, id, f)
  {
    if id in w.db.facts {
      assert Held(w, id, w.db.facts[id]);
    }
    if s, f :| PakAt(w, s, id, f) {
      assert Held(w, id, f);
    }
  }

  /** Over every run of inserts, expiries and archive calls that clobbers no listed pak, whatever else fails:
      every listed pak is there as recorded, and every fact ever added is in exactly one place. No temp
      file and no orphan remains if what had to be deleted could be. */
  lemma {:induction false} RunConserves(w: World, ops: seq<Op>, hash: Hash)
    requires w == World(Db(map[], map[], 0, 0), map[], map[]) && Careful(w, ops, hash)
    ensures Sound(After(w, ops, hash), hash)
    ensures forall id :: HeldId(After(w, ops, hash), id) <==> 0 <= id < After(w, ops, hash).db.nextFact
    ensures Cleans(w, ops, hash) ==> Tidy(After(w, ops, hash))
  {
    if ops == [] {
      forall id ensures !HeldId(w, id) {
        HeldIn(w, id);
      }
    } else {
      var n := |ops| - 1;
      var init := ops[..n];
      forall k | 0 <= k < n ensures init[..k] == ops[..k] && init[k] == ops[k] {}
      RunConserves(w, init, hash);
      ApplyKeeps(After(w, init, hash), ops[n], hash);
      assert After(w, ops, hash).db.nextFact == After(w, init, hash).db.nextFact + if ops[n].Add? then 1 else 0;
    }
  }
}
