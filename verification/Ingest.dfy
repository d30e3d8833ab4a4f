/** Batch ingest (crates/me-ingest/src/lib.rs): validate, embed and classify as batches, insert at
    once, and thread the ids back to their entries.

    A batch that comes back is what adding the entries one by one leaves (`BatchIsEach`, composed in
    `AddFactsBatchPartial`). An error leaves the store alone unless it is the index error, behind
    which the whole batch is committed; a retry then stores it twice (`RetryDuplicates`).
  */
module Ingest {
  import opened Collections
  import opened MemoryStore

  /** What the classifier may see. */
  datatype Input = Input(content: string, factType: FactType, importance: real, metadata: string)

  datatype Request = Request(content: string, factType: FactType, importance: Option<real>, metadata: Option<string>,
                             pinned: Option<bool>, created: Option<int>, lastAccessed: Option<int>,
                             tValid: Option<int>, tInvalid: Option<int>)
  {
    function Importance(): real { if importance.Some? then importance.value else 0.5 }

    function ForClassifier(): Input {
      Input(content, factType, Importance(), if metadata.Some? then metadata.value else "{}")
    }
  }

  datatype Error = PolicyParameter | ContentTooLarge | MetadataTooLarge | EmbedFailed | CountMismatch
                 | EmbeddingDimension | InsertFailed | IndexInconsistent

  type Vector = seq<real>

  /** The size checks, the providers' answers, how the insert ends, the engine's dimension and the clock. */
  datatype Env = Env(contentFits: string -> bool, metadataFits: string -> bool,
                     embedBatch: seq<string> -> Option<seq<Vector>>, shouldPin: Option<Input -> bool>,
                     insert: Port, dim: nat, now: int)

  function Validate(env: Env, r: Request): Option<Error> {
    if r.importance.Some? && !(0.0 <= r.importance.value <= 1.0) then Some(PolicyParameter)
    else if !env.contentFits(r.content) then Some(ContentTooLarge)
    else if r.metadata.Some? && !env.metadataFits(r.metadata.value) then Some(MetadataTooLarge)
    else None
  }

  // ---------- the per-entry rules ----------

  /** The caller's choice, else the classifier's, else not pinned. */
  function PinRule(env: Env, r: Request): bool {
    if r.pinned.Some? then r.pinned.value
    else if env.shouldPin.Some? then env.shouldPin.value(r.ForClassifier())
    else false
  }

  function FactOf(env: Env, r: Request, embedding: Vector, pin: bool): Fact {
    Fact(r.content, embedding, r.factType, 1, pin, false, r.Importance(), 0.0, 0,
         if r.lastAccessed.Some? then r.lastAccessed.value else env.now,
         if r.created.Some? then r.created.value else env.now, None, r.tValid, r.tInvalid)
  }

  // ---------- pins ----------

  predicate NeedsClassifier(env: Env, r: Request) { r.pinned.None? && env.shouldPin.Some? }

  function Pending(env: Env, entries: seq<Request>): seq<Input> {
    if entries == [] then []
    else
      var n := |entries| - 1;
      Pending(env, entries[..n]) + if NeedsClassifier(env, entries[n]) then [entries[n].ForClassifier()] else []
  }

  lemma {:induction false} PendingAt(env: Env, entries: seq<Request>, i: nat)
    requires i < |entries| && NeedsClassifier(env, entries[i])
    ensures |Pending(env, entries[..i])| < |Pending(env, entries)|
    ensures Pending(env, entries)[|Pending(env, entries[..i])|] == entries[i].ForClassifier()
  {
    var n := |entries| - 1;
    if i < n {
      PendingAt(env, entries[..n], i);
      assert entries[..n][..i] == entries[..i];
    }
  }

  ghost predicate AreSlots(env: Env, entries: seq<Request>, slots: seq<Option<bool>>) {
    && |slots| == |entries|
    && forall i :: 0 <= i < |entries| ==>
         slots[i] == if NeedsClassifier(env, entries[i]) then None else Some(PinRule(env, entries[i]))
  }

  method ResolveSlots(env: Env, entries: seq<Request>) returns (slots: seq<Option<bool>>, pending: seq<Input>)
    ensures AreSlots(env, entries, slots) && pending == Pending(env, entries)
  {
    slots, pending := [], [];
    for k := 0 to |entries|
      invariant AreSlots(env, entries[..k], slots) && pending == Pending(env, entries[..k])
    {
      assert entries[..k + 1][..k] == entries[..k];
      if entries[k].pinned.Some? {
        slots := slots + [Some(entries[k].pinned.value)];
      } else if env.shouldPin.Some? {
        pending := pending + [entries[k].ForClassifier()];
        slots := slots + [None];
      } else {
        slots := slots + [Some(false)];
      }
    }
    assert entries[..|entries|] == entries;
  }

  /** Slots that need no call are resolved at once, the rest classified as one list and drawn in order.
      The stitched pins are the per-entry rule, and the list never runs out. */
  method ComputeBatchPins(env: Env, entries: seq<Request>) returns (pins: seq<bool>)
    ensures |pins| == |entries| && forall i :: 0 <= i < |entries| ==> pins[i] == PinRule(env, entries[i])
  {
    var slots, pending := ResolveSlots(env, entries);
    var answers := Classify(env, pending);
    pins := [];
    var next := 0;
    for k := 0 to |entries|
      invariant |pins| == k && next == |Pending(env, entries[..k])|
      invariant forall i :: 0 <= i < k ==> pins[i] == PinRule(env, entries[i])
    {
      assert entries[..k + 1][..k] == entries[..k];
      if slots[k].Some? {
        pins := pins + [slots[k].value];
      } else {
        PendingAt(env, entries, k);
        pins := pins + [answers[next]];
        next := next + 1;
      }
    }
  }

  method Classify(env: Env, pending: seq<Input>) returns (answers: seq<bool>)
    ensures env.shouldPin.Some? ==> |answers| == |pending|
    ensures env.shouldPin.Some? ==> forall k :: 0 <= k < |pending| ==> answers[k] == env.shouldPin.value(pending[k])
  {
    answers := [];
    if env.shouldPin.Some? {
      for k := 0 to |pending|
        invariant |answers| == k && forall j :: 0 <= j < k ==> answers[j] == env.shouldPin.value(pending[j])
      {
        answers := answers + [env.shouldPin.value(pending[k])];
      }
    }
  }

  // ---------- the valid partition ----------

  function Valid(env: Env, entries: seq<Request>): seq<Request> {
    if entries == [] then []
    else
      var n := |entries| - 1;
      Valid(env, entries[..n]) + if Validate(env, entries[n]).None? then [entries[n]] else []
  }

  method Partition(env: Env, entries: seq<Request>) returns (validation: seq<Option<Error>>, valid: seq<Request>)
    ensures |validation| == |entries| && forall i :: 0 <= i < |entries| ==> validation[i] == Validate(env, entries[i])
    ensures valid == Valid(env, entries)
  {
    validation, valid := [], [];
    for k := 0 to |entries|
      invariant |validation| == k && forall i :: 0 <= i < k ==> validation[i] == Validate(env, entries[i])
      invariant valid == Valid(env, entries[..k])
    {
      assert entries[..k + 1][..k] == entries[..k];
      var bad := Validate(env, entries[k]);
      if bad.None? {
        valid := valid + [entries[k]];
      }
      validation := validation + [bad];
    }
    assert entries[..|entries|] == entries;
  }

  function Slots(validation: seq<Option<Error>>): nat {
    if validation == [] then 0
    else Slots(validation[..|validation| - 1]) + if validation[|validation| - 1].None? then 1 else 0
  }

  lemma {:induction false} SlotsAre(env: Env, entries: seq<Request>, validation: seq<Option<Error>>)
    requires |validation| == |entries| && forall i :: 0 <= i < |entries| ==> validation[i] == Validate(env, entries[i])
    ensures Slots(validation) == |Valid(env, entries)|
  {
    if entries != [] {
      var n := |entries| - 1;
      SlotsAre(env, entries[..n], validation[..n]);
    }
  }

  lemma {:induction false} SlotsGrow(validation: seq<Option<Error>>, i: nat)
    requires i < |validation| && validation[i].None?
    ensures Slots(validation[..i]) < Slots(validation)
  {
    var n := |validation| - 1;
    if i < n {
      SlotsGrow(validation[..n], i);
      assert validation[..n][..i] == validation[..i];
    }
  }

  /** A valid slot holds the next id, any other its error. */
  ghost predicate Drawn(validation: seq<Option<Error>>, ids: seq<int>, i: nat, r: Result<int, Error>)
    requires i < |validation|
  {
    if validation[i].Some? then r == Err(validation[i].value)
    else Slots(validation[..i]) < |ids| && r == Ok(ids[Slots(validation[..i])])
  }

  /** Positional re-threading; the ids never run out. */
  method Rethread(validation: seq<Option<Error>>, ids: seq<int>) returns (results: seq<Result<int, Error>>)
    requires |ids| == Slots(validation)
    ensures |results| == |validation| && forall i :: 0 <= i < |results| ==> Drawn(validation, ids, i, results[i])
  {
    results := [];
    var next := 0;
    for k := 0 to |validation|
      invariant |results| == k && next == Slots(validation[..k])
      invariant forall i :: 0 <= i < k ==> Drawn(validation, ids, i, results[i])
    {
      assert validation[..k + 1][..k] == validation[..k];
      if validation[k].Some? {
        results := results + [Err(validation[k].value)];
      } else {
        SlotsGrow(validation, k);
        results := results + [Ok(ids[next])];
        next := next + 1;
      }
    }
  }

  function NewIds(from: int, n: nat): (r: seq<int>)
    ensures |r| == n && forall k :: 0 <= k < n ==> r[k] == from + k
  {
    seq(n, k => from + k)
  }

  /** What entry `i` of a batch gets when the first new id is `from`. */
  function Expected(env: Env, entries: seq<Request>, from: int, i: nat): Result<int, Error>
    requires i < |entries|
  {
    var bad := Validate(env, entries[i]);
    if bad.Some? then Err(bad.value) else Ok(from + |Valid(env, entries[..i])|)
  }

  ghost predicate AsExpected(env: Env, entries: seq<Request>, from: int, results: seq<Result<int, Error>>) {
    |results| == |entries| && forall i :: 0 <= i < |entries| ==> results[i] == Expected(env, entries, from, i)
  }

  lemma {:induction false} DrawnAsExpected(env: Env, entries: seq<Request>, validation: seq<Option<Error>>, from: int,
                                           results: seq<Result<int, Error>>)
    requires |validation| == |entries| && forall i :: 0 <= i < |entries| ==> validation[i] == Validate(env, entries[i])
    requires |results| == |entries|
    requires forall i :: 0 <= i < |results| ==> Drawn(validation, NewIds(from, |Valid(env, entries)|), i, results[i])
    ensures AsExpected(env, entries, from, results)
  {
    forall i | 0 <= i < |entries| ensures results[i] == Expected(env, entries, from, i) {
      SlotsAre(env, entries[..i], validation[..i]);
      assert Drawn(validation, NewIds(from, |Valid(env, entries)|), i, results[i]);
    }
  }

  // ---------- the atomic insert ----------

  function InsertAll(db: Db, facts: seq<Fact>): (r: Db)
    ensures r.nextFact == db.nextFact + |facts|
  {
    if facts == [] then db else InsertFact(InsertAll(db, facts[..|facts| - 1]), facts[|facts| - 1])
  }

  function Texts(entries: seq<Request>): seq<string> {
    seq(|entries|, k requires 0 <= k < |entries| => entries[k].content)
  }

  function FactsOf(env: Env, entries: seq<Request>, vectors: seq<Vector>): (r: seq<Fact>)
    requires |vectors| == |entries|
    ensures |r| == |entries|
  {
    seq(|entries|, k requires 0 <= k < |entries| => FactOf(env, entries[k], vectors[k], PinRule(env, entries[k])))
  }

  predicate Fits(vectors: seq<Vector>, dim: nat) {
    forall k :: 0 <= k < |vectors| ==> |vectors[k]| == dim
  }

  /** The answer the batch call gives for its valid entries when it is not the ids. */
  function BatchFault(env: Env, valid: seq<Request>): Option<Error> {
    var vectors := env.embedBatch(Texts(valid));
    if vectors.None? then Some(EmbedFailed)
    else if |vectors.value| != |valid| then Some(CountMismatch)
    else if env.insert.RolledBack? then Some(InsertFailed)
    else if !Fits(vectors.value, env.dim) then Some(EmbeddingDimension)
    else if env.insert.CommittedStale? then Some(IndexInconsistent)
    else None
  }

  /** Every vector is there and fits, and the transaction commits, whatever the call then answers. */
  predicate Lands(env: Env, valid: seq<Request>) {
    BatchFault(env, valid) in {None, Some(IndexInconsistent)}
  }

  /** The store once the valid entries are in. */
  function Stored(db: Db, env: Env, valid: seq<Request>): Db
    requires valid == [] || Lands(env, valid)
  {
    if valid == [] then db else InsertAll(db, FactsOf(env, valid, env.embedBatch(Texts(valid)).value))
  }

  ghost predicate FirstInvalid(env: Env, entries: seq<Request>, k: int) {
    && 0 <= k < |entries| && Validate(env, entries[k]).Some?
    && forall j :: 0 <= j < k ==> Validate(env, entries[j]).None?
  }

  // ---------- what is stored, and what an error says ----------

  /** The importance is in [0, 1] if given, and content and metadata are not too large. */
  ghost predicate Admitted(env: Env, r: Request) {
    && (r.importance.Some? ==> 0.0 <= r.importance.value <= 1.0)
    && env.contentFits(r.content) && (r.metadata.Some? ==> env.metadataFits(r.metadata.value))
  }

  /** The row of a request: importance one half, both dates now, the root scope and an unlimited life unless the
      request says otherwise; pinned if it says so, or, if it says nothing, if the classifier does. */
  ghost function RowFor(env: Env, r: Request, vector: Vector): Fact {
    var base := match r.importance case Some(x) => x case None => 0.5;
    var seen := Input(r.content, r.factType, base, match r.metadata case Some(m) => m case None => "{}");
    var pin := match (r.pinned, env.shouldPin) case (Some(p), _) => p case (None, Some(f)) => f(seen) case _ => false;
    Fact(r.content, vector, r.factType, 1, pin, false, base, base, 0,
         match r.lastAccessed case Some(at) => at case None => env.now,
         match r.created case Some(at) => at case None => env.now, None, r.tValid, r.tInvalid)
  }

  ghost function Contents(entries: seq<Request>): (r: seq<string>)
    ensures |r| == |entries| && forall k :: 0 <= k < |r| ==> r[k] == entries[k].content
  {
    seq(|entries|, k requires 0 <= k < |entries| => entries[k].content)
  }

  /** The entries' rows stand under the next ids, in order, and no other row is new or changed. */
  ghost predicate RowsAdded(env: Env, entries: seq<Request>, before: Db, after: Db) {
    var vectors := env.embedBatch(Contents(entries));
    && vectors.Some? && |vectors.value| == |entries| && after.edges == before.edges
    && after.nextFact == before.nextFact + |entries|
    && (forall id :: id in after.facts <==> id in before.facts || before.nextFact <= id < after.nextFact)
    && (forall id :: id in before.facts ==> id in after.facts && after.facts[id] == before.facts[id])
    && forall k :: 0 <= k < |entries| ==>
         var id := before.nextFact + k;
         id in after.facts && |vectors.value[k]| == env.dim
         && after.facts[id] == RowFor(env, entries[k], vectors.value[k])
  }

  /** What the error of an entry says of it. */
  ghost predicate Blames(env: Env, r: Request, e: Error) {
    match e
    case PolicyParameter => r.importance.Some? && !(0.0 <= r.importance.value <= 1.0)
    case ContentTooLarge => !env.contentFits(r.content)
    case MetadataTooLarge => r.metadata.Some? && !env.metadataFits(r.metadata.value)
    case _ => false
  }

  /** What an error of the batch says: the first entry that is not admitted, or else the provider or the store. */
  ghost predicate BatchBlames(env: Env, entries: seq<Request>, e: Error) {
    var vectors := env.embedBatch(Contents(entries));
    match e
    case EmbedFailed => vectors.None?
    case CountMismatch => vectors.Some? && |vectors.value| != |entries|
    case InsertFailed => vectors.Some? && env.insert == RolledBack
    case EmbeddingDimension => vectors.Some? && exists k :: 0 <= k < |vectors.value| && |vectors.value[k]| != env.dim
    case IndexInconsistent => vectors.Some? && env.insert == CommittedStale
    case _ => exists k :: IsFirstRefused(env, entries, k) && Blames(env, entries[k], e)
  }

  ghost predicate IsFirstRefused(env: Env, entries: seq<Request>, k: int) {
    0 <= k < |entries| && !Admitted(env, entries[k]) && forall j :: 0 <= j < k ==> Admitted(env, entries[j])
  }

  lemma ValidateSays(env: Env, r: Request)
    ensures Validate(env, r).None? <==> Admitted(env, r)
    ensures Validate(env, r).Some? ==> Blames(env, r, Validate(env, r).value)
  {}

  lemma FactRow(env: Env, r: Request, vector: Vector)
    ensures FactOf(env, r, vector, PinRule(env, r)).(score := r.Importance()) == RowFor(env, r, vector)
  {}

  lemma {:induction false} InsertAllAdds(db: Db, facts: seq<Fact>, id: int)
    ensures id in InsertAll(db, facts).facts <==> id in db.facts || db.nextFact <= id < db.nextFact + |facts|
    ensures InsertAll(db, facts).edges == db.edges
  {
    if facts != [] {
      InsertAllAdds(db, facts[..|facts| - 1], id);
    }
  }

  /** A batch that lands adds its rows. */
  lemma {:induction false} StoredAdds(db: Db, env: Env, valid: seq<Request>)
    requires db.WellFormed() && valid != [] && Lands(env, valid)
    ensures RowsAdded(env, valid, db, Stored(db, env, valid))
  {
    var vectors := env.embedBatch(Texts(valid)).value;
    var facts := FactsOf(env, valid, vectors);
    assert Texts(valid) == Contents(valid);
    InsertAllAdds(db, facts, 0);
    forall id
      ensures id in InsertAll(db, facts).facts <==> id in db.facts || db.nextFact <= id < db.nextFact + |facts|
    {
      InsertAllAdds(db, facts, id);
    }
    forall id | id in db.facts
      ensures id in InsertAll(db, facts).facts && InsertAll(db, facts).facts[id] == db.facts[id]
    {
      InsertKeeps(db, facts, id);
    }
    forall k | 0 <= k < |valid|
      ensures db.nextFact + k in InsertAll(db, facts).facts
      ensures InsertAll(db, facts).facts[db.nextFact + k] == RowFor(env, valid[k], vectors[k])
    {
      InsertLands(db, facts, k);
      FactRow(env, valid[k], vectors[k]);
    }
  }

  lemma {:induction false} FaultSays(env: Env, entries: seq<Request>)
    requires BatchFault(env, entries).Some?
    ensures BatchBlames(env, entries, BatchFault(env, entries).value)
  {
    assert Texts(entries) == Contents(entries);
  }

  /** Each admitted entry has an id under which its row stands, in order and with no id between; each other
      entry has the error that is its own. */
  ghost predicate Threaded(env: Env, entries: seq<Request>, before: Db, results: seq<Result<int, Error>>, after: Db) {
    && |results| == |entries|
    && (forall i :: 0 <= i < |entries| ==>
          match results[i]
          case Err(e) => !Admitted(env, entries[i]) && Blames(env, entries[i], e)
          case Ok(id) => Admitted(env, entries[i]) && IsRow(env, entries[i], before, id, after))
    && (forall i, j :: 0 <= i < j < |results| && results[i].Ok? && results[j].Ok? ==>
          results[i].value < results[j].value)
    && forall id :: before.nextFact <= id < after.nextFact ==> exists i :: 0 <= i < |results| && results[i] == Ok(id)
  }

  ghost predicate IsRow(env: Env, r: Request, before: Db, id: int, after: Db) {
    && before.nextFact <= id < after.nextFact && id in after.facts
    && after.facts[id] == RowFor(env, r, after.facts[id].embedding)
  }

  lemma {:induction false} ValidAt(env: Env, entries: seq<Request>, i: nat)
    requires i < |entries| && Validate(env, entries[i]).None?
    ensures |Valid(env, entries[..i])| < |Valid(env, entries)|
    ensures Valid(env, entries)[|Valid(env, entries[..i])|] == entries[i]
  {
    var n := |entries| - 1;
    if i < n {
      ValidAt(env, entries[..n], i);
      assert entries[..n][..i] == entries[..i];
    }
  }

  lemma {:induction false} ValidOnto(env: Env, entries: seq<Request>, p: nat) returns (i: nat)
    requires p < |Valid(env, entries)|
    ensures i < |entries| && Validate(env, entries[i]).None? && |Valid(env, entries[..i])| == p
  {
    var n := |entries| - 1;
    if p < |Valid(env, entries[..n])| {
      i := ValidOnto(env, entries[..n], p);
      assert entries[..n][..i] == entries[..i];
    } else {
      i := n;
    }
  }

  lemma {:induction false} ThreadedRows(env: Env, entries: seq<Request>, before: Db, results: seq<Result<int, Error>>,
                                        after: Db)
    requires AsExpected(env, entries, before.nextFact, results)
    requires if Valid(env, entries) == [] then after == before else RowsAdded(env, Valid(env, entries), before, after)
    ensures Threaded(env, entries, before, results, after)
  {
    var valid := Valid(env, entries);
    forall i | 0 <= i < |entries|
      ensures match results[i]
        case Err(e) => !Admitted(env, entries[i]) && Blames(env, entries[i], e)
        case Ok(id) => Admitted(env, entries[i]) && IsRow(env, entries[i], before, id, after)
    {
      ValidateSays(env, entries[i]);
      assert results[i] == Expected(env, entries, before.nextFact, i);
      if results[i].Ok? {
        ValidAt(env, entries, i);
      }
    }
    forall i, j | 0 <= i < j < |results| && results[i].Ok? && results[j].Ok?
      ensures results[i].value < results[j].value
    {
      assert results[i] == Expected(env, entries, before.nextFact, i);
      assert results[j] == Expected(env, entries, before.nextFact, j);
      ValidAt(env, entries[..j], i);
      assert entries[..j][..i] == entries[..i];
    }
    forall id | before.nextFact <= id < after.nextFact ensures exists i :: 0 <= i < |results| && results[i] == Ok(id) {
      var i := ValidOnto(env, entries, id - before.nextFact);
      assert results[i] == Expected(env, entries, before.nextFact, i);
    }
  }

  class Engine {
    var db: Db

    constructor ()
      ensures db == Db(map[], map[], 0, 0)
    {
      db := Db(map[], map[], 0, 0);
    }

    /** `insert_facts_batch_atomic`: all facts in order in one transaction, or none. A dropped transaction
        leaves the store alone; the index is told after the commit. */
    method InsertFactsBatchAtomic(facts: seq<Fact>, dim: nat, port: Port) returns (r: Result<seq<int>, Error>)
      modifies this
      ensures port.RolledBack? ==> r == Err(InsertFailed) && db == old(db)
      ensures !port.RolledBack? && !AllFit(facts, dim) ==> r == Err(EmbeddingDimension) && db == old(db)
      ensures !port.RolledBack? && AllFit(facts, dim) ==>
        && db == InsertAll(old(db), facts)
        && r == if port.Committed? then Ok(NewIds(old(db).nextFact, |facts|)) else Err(IndexInconsistent)
    {
      if port.RolledBack? {
        return Err(InsertFailed);
      }
      var tx, out := db, NewIds(0, 0);
      for k := 0 to |facts|
        invariant AllFit(facts[..k], dim)
        invariant tx == InsertAll(old(db), facts[..k]) && out == NewIds(old(db).nextFact, k)
      {
        if |facts[k].embedding| != dim {
          return Err(EmbeddingDimension);
        }
        assert facts[..k + 1][..k] == facts[..k];
        out := out + [tx.nextFact];
        tx := InsertFact(tx, facts[k]);
      }
      assert facts[..|facts|] == facts;
      db := tx;
      if port.CommittedStale? {
        return Err(IndexInconsistent);
      }
      return Ok(out);
    }

    method InsertValidatedBatch(env: Env, valid: seq<Request>) returns (r: Result<seq<int>, Error>)
      requires valid != []
      modifies this
      ensures r == if BatchFault(env, valid).Some? then Err(BatchFault(env, valid).value)
                   else Ok(NewIds(old(db).nextFact, |valid|))
      ensures db == if Lands(env, valid) then Stored(old(db), env, valid) else old(db)
    {
      var vectors := env.embedBatch(Texts(valid));
      if vectors.None? {
        return Err(EmbedFailed);
      }
      if |vectors.value| != |valid| {
        return Err(CountMismatch);
      }
      var pins := ComputeBatchPins(env, valid);
      var facts: seq<Fact> := [];
      for k := 0 to |valid|
        invariant |facts| == k
        invariant forall i :: 0 <= i < k ==> facts[i] == FactOf(env, valid[i], vectors.value[i], pins[i])
      {
        facts := facts + [FactOf(env, valid[k], vectors.value[k], pins[k])];
      }
      assert facts == FactsOf(env, valid, vectors.value);
      assert AllFit(facts, env.dim) <==> Fits(vectors.value, env.dim) by {
        assert forall k :: 0 <= k < |facts| ==> facts[k].embedding == vectors.value[k];
      }
      var ids := InsertFactsBatchAtomic(facts, env.dim, env.insert);
      if ids.Err? {
        return Err(ids.error);
      }
      if |ids.value| != |facts| {
        return Err(CountMismatch);
      }
      return Ok(ids.value);
    }

    /** The first invalid entry rejects the batch before anything is embedded. Else all entries are stored
        or none is, and an error means none, but for the index error, which means all. */
    method AddFactsBatch(env: Env, entries: seq<Request>) returns (r: Result<seq<int>, Error>)
      modifies this
      ensures forall k :: FirstInvalid(env, entries, k) ==> r == Err(Validate(env, entries[k]).value)
      ensures r.Ok? ==> Valid(env, entries) == entries && r.value == NewIds(old(db).nextFact, |entries|)
      ensures r.Ok? && entries != [] ==> Lands(env, entries) && db == Stored(old(db), env, entries)
      ensures r.Ok? <==> entries == [] || (Valid(env, entries) == entries && BatchFault(env, entries).None?)
      ensures r.Err? ==> (db == old(db) <==> r.error != IndexInconsistent)
      ensures r == Err(IndexInconsistent) ==> Lands(env, entries) && db == Stored(old(db), env, entries)
      ensures r == Err(IndexInconsistent) <==>
        entries != [] && Valid(env, entries) == entries && BatchFault(env, entries) == Some(IndexInconsistent)
      ensures old(db).WellFormed() && entries != [] && (r.Ok? || r == Err(IndexInconsistent)) ==>
        RowsAdded(env, entries, old(db), db)
      ensures r.Err? ==> BatchBlames(env, entries, r.error)
    {
      if entries == [] {
        return Ok([]);
      }
      forall e: Request ensures Validate(env, e).None? <==> Admitted(env, e) {
        ValidateSays(env, e);
      }
      for k := 0 to |entries|
        invariant db == old(db) && forall j :: 0 <= j < k ==> Validate(env, entries[j]).None?
      {
        var bad := Validate(env, entries[k]);
        if bad.Some? {
          assert FirstInvalid(env, entries, k);
          InvalidShrinks(env, entries, k);
          ValidateSays(env, entries[k]);
          assert IsFirstRefused(env, entries, k);
          return Err(bad.value);
        }
      }
      AllValid(env, entries);
      r := InsertValidatedBatch(env, entries);
      if Lands(env, entries) && old(db).WellFormed() {
        StoredAdds(old(db), env, entries);
      }
      if r.Err? {
        FaultSays(env, entries);
      }
    }

    /** One result for each entry: its validation error, or its id. The ids are those the valid
        entries get in order. An outer error means that nothing was stored, but for the index error,
        which means that the whole valid part was. When the batched embedding agrees with a pointwise
        one, what comes back and what is stored are those of adding the entries one by one. */
    method AddFactsBatchPartial(env: Env, entries: seq<Request>) returns (r: Result<seq<Result<int, Error>>, Error>)
      modifies this
      ensures r.Ok? <==> Valid(env, entries) == [] || BatchFault(env, Valid(env, entries)).None?
      ensures r.Err? ==> Some(r.error) == BatchFault(env, Valid(env, entries))
      ensures r.Ok? ==> AsExpected(env, entries, old(db).nextFact, r.value)
      ensures r.Ok? ==> db == Stored(old(db), env, Valid(env, entries))
      ensures r.Err? ==> (db == old(db) <==> r.error != IndexInconsistent)
      ensures r == Err(IndexInconsistent) ==> db == Stored(old(db), env, Valid(env, entries))
      ensures forall embed: string -> Vector :: Agrees(env, embed, entries) && r.Ok? ==>
        (db, r.value) == AddEach(old(db), env, embed, entries)
      ensures old(db).WellFormed() && r.Ok? ==> Threaded(env, entries, old(db), r.value, db)
    {
      if entries == [] {
        return Ok([]);
      }
      var validation, valid := Partition(env, entries);
      var ids := NewIds(db.nextFact, 0);
      if valid != [] {
        var inserted := InsertValidatedBatch(env, valid);
        if inserted.Err? {
          return Err(inserted.error);
        }
        ids := inserted.value;
      }
      SlotsAre(env, entries, validation);
      var results := Rethread(validation, ids);
      DrawnAsExpected(env, entries, validation, old(db).nextFact, results);
      if old(db).WellFormed() {
        if valid != [] {
          StoredAdds(old(db), env, valid);
        }
        ThreadedRows(env, entries, old(db), results, db);
      }
      forall embed: string -> Vector | Agrees(env, embed, entries)
        ensures (db, results) == AddEach(old(db), env, embed, entries)
      {
        BatchIsEach(old(db), env, embed, entries);
        ExpectedUnique(env, entries, old(db).nextFact, results, AddEach(old(db), env, embed, entries).1);
      }
      return Ok(results);
    }
  }

  /** Every batch that can be stored can be stored by a call that fails. */
  lemma {:induction false} FailedCallStores(db: Db, env: Env, valid: seq<Request>)
    requires valid != [] && BatchFault(env.(insert := Committed), valid).None?
    ensures BatchFault(env.(insert := CommittedStale), valid) == Some(IndexInconsistent)
    ensures Stored(db, env.(insert := CommittedStale), valid) == Stored(db, env.(insert := Committed), valid)
    ensures Stored(db, env.(insert := CommittedStale), valid) != db
  {
    var vectors := env.embedBatch(Texts(valid)).value;
    assert FactsOf(env.(insert := CommittedStale), valid, vectors)
      == FactsOf(env.(insert := Committed), valid, vectors);
  }

  /** After the two stores of `RetryDuplicates`, entry `k` sits under two ids. */
  ghost predicate TwiceIn(db: Db, from: nat, count: nat, k: nat) {
    && from + k in db.facts && from + count + k in db.facts
    && db.facts[from + k] == db.facts[from + count + k]
  }

  /** A retry after the index error stores every entry a second time, under a new id. */
  lemma {:induction false} RetryDuplicates(db: Db, env: Env, valid: seq<Request>, k: nat)
    requires db.WellFormed() && k < |valid| && BatchFault(env, valid) == Some(IndexInconsistent)
    ensures TwiceIn(Stored(Stored(db, env, valid), env, valid), db.nextFact, |valid|, k)
  {
    var facts := FactsOf(env, valid, env.embedBatch(Texts(valid)).value);
    var once := InsertAll(db, facts);
    InsertLands(db, facts, k);
    InsertLands(once, facts, k);
    InsertKeeps(once, facts, db.nextFact + k);
  }

  lemma {:induction false} InsertKeeps(db: Db, facts: seq<Fact>, id: int)
    requires id in db.facts && id < db.nextFact
    ensures id in InsertAll(db, facts).facts && InsertAll(db, facts).facts[id] == db.facts[id]
  {
    if facts != [] {
      InsertKeeps(db, facts[..|facts| - 1], id);
    }
  }

  lemma {:induction false} InsertLands(db: Db, facts: seq<Fact>, k: nat)
    requires k < |facts|
    ensures db.nextFact + k in InsertAll(db, facts).facts
    ensures InsertAll(db, facts).facts[db.nextFact + k] == facts[k].(score := facts[k].base)
  {
    var n := |facts| - 1;
    if k < n {
      InsertLands(db, facts[..n], k);
    }
  }

  predicate AllFit(facts: seq<Fact>, dim: nat) {
    forall k :: 0 <= k < |facts| ==> |facts[k].embedding| == dim
  }

  lemma {:induction false} InvalidShrinks(env: Env, entries: seq<Request>, k: nat)
    requires k < |entries| && Validate(env, entries[k]).Some?
    ensures |Valid(env, entries)| < |entries|
  {
    var n := |entries| - 1;
    ValidFits(env, entries[..n]);
    if k < n {
      InvalidShrinks(env, entries[..n], k);
    }
  }

  lemma {:induction false} ValidFits(env: Env, entries: seq<Request>)
    ensures |Valid(env, entries)| <= |entries|
  {
    if entries != [] {
      ValidFits(env, entries[..|entries| - 1]);
    }
  }

  lemma {:induction false} AllValid(env: Env, entries: seq<Request>)
    requires forall k :: 0 <= k < |entries| ==> Validate(env, entries[k]).None?
    ensures Valid(env, entries) == entries
  {
    if entries != [] {
      var n := |entries| - 1;
      AllValid(env, entries[..n]);
      assert entries == entries[..n] + [entries[n]];
    }
  }

  // ---------- one by one ----------

  /** `add_fact` when the embedder answers and the port commits. */
  function AddOne(db: Db, env: Env, embed: string -> Vector, r: Request): (Db, Result<int, Error>) {
    var bad := Validate(env, r);
    if bad.Some? then (db, Err(bad.value))
    else if |embed(r.content)| != env.dim then (db, Err(EmbeddingDimension))
    else (InsertFact(db, FactOf(env, r, embed(r.content), PinRule(env, r))), Ok(db.nextFact))
  }

  function AddEach(db: Db, env: Env, embed: string -> Vector, entries: seq<Request>)
    : (Db, seq<Result<int, Error>>)
  {
    if entries == [] then (db, [])
    else
      var n := |entries| - 1;
      var (before, results) := AddEach(db, env, embed, entries[..n]);
      var (after, result) := AddOne(before, env, embed, entries[n]);
      (after, results + [result])
  }

  function EmbedAll(embed: string -> Vector, entries: seq<Request>): (r: seq<Vector>)
    ensures |r| == |entries|
  {
    seq(|entries|, k requires 0 <= k < |entries| => embed(entries[k].content))
  }

  /** The batched call gives for the valid entries what the single calls give. */
  ghost predicate Agrees(env: Env, embed: string -> Vector, entries: seq<Request>) {
    env.embedBatch(Texts(Valid(env, entries))) == Some(EmbedAll(embed, Valid(env, entries)))
  }

  /** Adding one by one leaves the store and the results of the batch: same ids, same facts, same errors in place. */
  lemma {:induction false} BatchIsEach(db: Db, env: Env, embed: string -> Vector, entries: seq<Request>)
    requires Fits(EmbedAll(embed, Valid(env, entries)), env.dim)
    ensures AddEach(db, env, embed, entries).0
      == InsertAll(db, FactsOf(env, Valid(env, entries), EmbedAll(embed, Valid(env, entries))))
    ensures AsExpected(env, entries, db.nextFact, AddEach(db, env, embed, entries).1)
  {
    if entries != [] {
      var n := |entries| - 1;
      var valid := Valid(env, entries[..n]);
      assert Valid(env, entries) == if Validate(env, entries[n]).None? then valid + [entries[n]] else valid;
      PrefixFits(env, embed, valid, entries[n], Validate(env, entries[n]).None?);
      BatchIsEach(db, env, embed, entries[..n]);
      var before := AddEach(db, env, embed, entries[..n]);
      OneMore(db, env, embed, valid, entries[n]);
      ExpectedJoins(env, entries, db.nextFact, before.1, AddOne(before.0, env, embed, entries[n]).1);
    }
  }

  lemma PrefixFits(env: Env, embed: string -> Vector, valid: seq<Request>, last: Request, joins: bool)
    requires Fits(EmbedAll(embed, if joins then valid + [last] else valid), env.dim)
    ensures Fits(EmbedAll(embed, valid), env.dim)
    ensures joins ==> |embed(last.content)| == env.dim
  {
    if joins {
      var vectors := EmbedAll(embed, valid + [last]);
      assert vectors[|valid|] == embed(last.content);
      assert forall k :: 0 <= k < |valid| ==> EmbedAll(embed, valid)[k] == vectors[k];
    }
  }

  lemma ExpectedUnique(env: Env, entries: seq<Request>, from: int, a: seq<Result<int, Error>>,
                       b: seq<Result<int, Error>>)
    requires AsExpected(env, entries, from, a) && AsExpected(env, entries, from, b)
    ensures a == b
  {
    assert forall i :: 0 <= i < |entries| ==> a[i] == Expected(env, entries, from, i) == b[i];
  }

  lemma {:induction false} OneMore(db: Db, env: Env, embed: string -> Vector, valid: seq<Request>, last: Request)
    ensures InsertAll(db, FactsOf(env, valid + [last], EmbedAll(embed, valid + [last]))) ==
      InsertFact(InsertAll(db, FactsOf(env, valid, EmbedAll(embed, valid))),
                 FactOf(env, last, embed(last.content), PinRule(env, last)))
  {
    var facts := FactsOf(env, valid + [last], EmbedAll(embed, valid + [last]));
    assert facts[..|valid|] == FactsOf(env, valid, EmbedAll(embed, valid));
  }

  lemma ExpectedJoins(env: Env, entries: seq<Request>, from: int, results: seq<Result<int, Error>>,
                      last: Result<int, Error>)
    requires entries != [] && AsExpected(env, entries[..|entries| - 1], from, results)
    requires last == Expected(env, entries, from, |entries| - 1)
    ensures AsExpected(env, entries, from, results + [last])
  {
    var init := entries[..|entries| - 1];
    forall i | 0 <= i < |init| ensures results[i] == Expected(env, entries, from, i) {
      assert init[..i] == entries[..i] && results[i] == Expected(env, init, from, i);
    }
  }
}
