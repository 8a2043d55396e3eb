/** What the mutation API does to rows and log, as a function, and what every run of it keeps. */
module EventStore {
  import opened Wrappers
  import opened Records

  datatype Step = Done(db: Db, result: Result) | Failed(error: Error)

  // ---------------------------------------------------------------- one mutation

  function EntityRow(schema: Schema, e: Entity): Entity {
    e.(id := if e.id == "" then schema.entityId(e) else e.id,
       isActive := true,
       lifecycle := if e.lifecycle == "" then ACTIVE else e.lifecycle)
  }

  function RelRow(schema: Schema, r: Relationship): Relationship {
    r.(id := if r.id == "" then schema.relId(r) else r.id, isActive := true)
  }

  /** Bookkeeping fields aside, the two states are the same. */
  predicate EntityEqualForUpdate(a: Entity, b: Entity) {
    a.kind == b.kind && a.subType == b.subType && a.canonicalName == b.canonicalName && a.namespace == b.namespace &&
    a.confidence == b.confidence && a.isActive == b.isActive && a.lifecycle == b.lifecycle
      && a.properties == b.properties
  }

  predicate RelEqualForUpdate(a: Relationship, b: Relationship) {
    a.kind == b.kind && a.fromId == b.fromId && a.toId == b.toId &&
    a.confidence == b.confidence && a.isActive == b.isActive && a.properties == b.properties
  }

  function Logged(db: Db, txn: string, at: Time, c: Change): seq<Entry> {
    db.log + [Entry(|db.log| + 1, txn, at, c)]
  }

  /** Writes an entity row and its log entry together. */
  function WriteEntity(db: Db, txn: string, at: Time, op: MutationType, row: Entity, logged: Entity): Db {
    Db(db.entities[row.id := row], db.relationships,
       Logged(db, txn, at, EntityChange(op, row.id, if row.id in db.entities then Some(db.entities[row.id])
         else None, logged)))
  }

  function WriteRel(db: Db, txn: string, at: Time, op: MutationType, row: Relationship, logged: Relationship): Db {
    Db(db.entities, db.relationships[row.id := row],
       Logged(db, txn, at, RelChange(op, row.id, if row.id in db.relationships then Some(db.relationships[row.id])
         else None, logged)))
  }

  function ApplyUpsertEntity(schema: Schema, db: Db, txn: string, e0: Entity, tick: Tick): Step {
    if !schema.entityOk(e0) then Failed(Invalid)
    else
      var e := EntityRow(schema, e0);
      if e.id !in db.entities then
        var row := e.(version := if e.version == 0 then 1 else e.version);
        Done(WriteEntity(db, txn, tick.log, Created, row, row), Result(OpCreated, Some(e.id), None))
      else
        var existing := db.entities[e.id];
        if e.version != 0 && e.version != existing.version then Failed(VersionConflict)
        else
          var row := e.(version := existing.version + 1);
          if EntityEqualForUpdate(existing, row) then Done(db, Result(OpNoChange, Some(e.id), None))
          else Done(WriteEntity(db, txn, tick.log, Updated, row, row), Result(OpUpdated, Some(e.id), None))
  }

  function ApplyUpsertRel(schema: Schema, db: Db, txn: string, r0: Relationship, tick: Tick): Step {
    if !schema.relOk(r0) then Failed(Invalid)
    else
      var r := RelRow(schema, r0);
      if r.fromId !in db.entities || r.toId !in db.entities then Failed(UnknownEntity)
      else if r.id !in db.relationships then
        var row := r.(version := if r.version == 0 then 1 else r.version);
        Done(WriteRel(db, txn, tick.log, Created, row, row), Result(OpCreated, None, Some((r.fromId, r.toId))))
      else
        var existing := db.relationships[r.id];
        if r.version != 0 && r.version != existing.version then Failed(VersionConflict)
        else
          var row := r.(version := existing.version + 1);
          if RelEqualForUpdate(existing, row) then Done(db, Result(OpNoChange, None, None))
          else Done(WriteRel(db, txn, tick.log, Updated, row, row), Result(OpUpdated, None, Some((r.fromId, r.toId))))
  }

  function DeletedEntity(e: Entity, at: Time): Entity {
    e.(isActive := false, lifecycle := DELETED, validTo := Some(at), version := e.version + 1)
  }

  function DeletedRel(r: Relationship, at: Time): Relationship {
    r.(isActive := false, validTo := Some(at), version := r.version + 1)
  }

  function ApplySoftDelete(db: Db, txn: string, id: Id, tick: Tick): Step {
    if id == "" then Failed(MissingTarget)
    else if id !in db.entities then Failed(NotFound)
    else
      var existing := db.entities[id];
      if !existing.isActive then Done(db, Result(OpNoChange, Some(id), None))
      else
        Done(WriteEntity(db, txn, tick.log, Deleted, DeletedEntity(existing, tick.row).(id := id),
          DeletedEntity(existing, tick.state)),
             Result(OpDeleted, Some(id), None))
  }

  function ApplyDeleteRel(db: Db, txn: string, id: Id, tick: Tick): Step {
    if id == "" then Failed(MissingTarget)
    else if id !in db.relationships then Failed(NotFound)
    else
      var existing := db.relationships[id];
      if !existing.isActive then Done(db, Result(OpNoChange, None, None))
      else
        Done(WriteRel(db, txn, tick.log, Deleted, DeletedRel(existing, tick.row).(id := id),
          DeletedRel(existing, tick.state)),
             Result(OpDeleted, None, Some((existing.fromId, existing.toId))))
  }

  function ApplyOne(schema: Schema, db: Db, txn: string, m: Mutation, tick: Tick): Step {
    match m
    case UpsertEntity(e) => if e.None? then Failed(MissingBody) else ApplyUpsertEntity(schema, db, txn, e.value, tick)
    case UpsertRelationship(r) => if r.None? then Failed(MissingBody)
      else ApplyUpsertRel(schema, db, txn, r.value, tick)
    case SoftDeleteEntity(id) => ApplySoftDelete(db, txn, id, tick)
    case DeleteRelationship(id) => ApplyDeleteRel(db, txn, id, tick)
    case UnknownKind => Failed(BadKind)
  }

  // ---------------------------------------------------------------- a batch, a run

  datatype Batch = Batch(txn: string, mutations: seq<Mutation>, clock: nat -> Tick)

  /** The transaction after the first k mutations: still going, or failed. */
  datatype Progress = Going(db: Db, results: seq<Result>) | Stopped(error: Error)

  function Prefix(schema: Schema, db: Db, b: Batch, k: nat): Progress
    requires k <= |b.mutations|
  {
    if k == 0 then Going(db, [])
    else
      match Prefix(schema, db, b, k - 1)
      case Stopped(error) => Stopped(error)
      case Going(db1, results) =>
        match ApplyOne(schema, db1, b.txn, b.mutations[k - 1], b.clock(k - 1))
        case Failed(error) => Stopped(error)
        case Done(db2, result) => Going(db2, results + [result])
  }

  /** The committed state: all of the batch, or none of it. */
  function Committed(schema: Schema, db: Db, b: Batch): Db {
    var p := Prefix(schema, db, b, |b.mutations|);
    if p.Going? then p.db else db
  }

  const EMPTY := Db(map[], map[], [])

  function Run(schema: Schema, batches: seq<Batch>): Db {
    if batches == [] then EMPTY
    else Committed(schema, Run(schema, batches[..|batches| - 1]), batches[|batches| - 1])
  }

  // ---------------------------------------------------------------- what the log says

  /** The last logged state of an entity. */
  function LastEntity(log: seq<Entry>, id: Id): Option<Entity> {
    if log == [] then None
    else
      var c := log[|log| - 1].change;
      if c.EntityChange? && c.id == id then Some(c.after) else LastEntity(log[..|log| - 1], id)
  }

  function LastRel(log: seq<Entry>, id: Id): Option<Relationship> {
    if log == [] then None
    else
      var c := log[|log| - 1].change;
      if c.RelChange? && c.id == id then Some(c.afterRel) else LastRel(log[..|log| - 1], id)
  }

  /** Same state, except that a deletion stamps the row and the log at different instants. */
  predicate SameEntity(row: Entity, logged: Entity) {
    row == logged.(validTo := row.validTo) && (row.isActive ==> row == logged)
  }

  predicate SameRel(row: Relationship, logged: Relationship) {
    row == logged.(validTo := row.validTo) && (row.isActive ==> row == logged)
  }

  predicate EntityMatches(row: Option<Entity>, logged: Option<Entity>) {
    if row.Some? then logged.Some? && SameEntity(row.value, logged.value) else logged == None
  }

  predicate RelMatches(row: Option<Relationship>, logged: Option<Relationship>) {
    if row.Some? then logged.Some? && SameRel(row.value, logged.value) else logged == None
  }

  function Lookup<T>(rows: map<Id, T>, id: Id): Option<T> {
    if id in rows then Some(rows[id]) else None
  }

  /** The log is truth: every row is the last logged state of its id, and there are no other rows. */
  ghost predicate LogIsTruth(db: Db) {
    && (forall id :: EntityMatches(Lookup(db.entities, id), LastEntity(db.log, id)))
    && (forall id :: RelMatches(Lookup(db.relationships, id), LastRel(db.log, id)))
  }

  /** One entry continues its id's history: it creates a new id, or moves the latest state up one version. */
  predicate Continues(before: seq<Entry>, e: Entry) {
    && e.entryId == |before| + 1
    && match e.change
       case EntityChange(op, id, b, a) =>
         a.id == id && EntityMatches(b, LastEntity(before, id)) && (op == Created <==> b == None) &&
         (b.Some? ==> a.version == b.value.version + 1)
       case RelChange(op, id, b, a) =>
         a.id == id && RelMatches(b, LastRel(before, id)) && (op == Created <==> b == None) &&
         (b.Some? ==> a.version == b.value.version + 1)
  }

  ghost predicate Disciplined(log: seq<Entry>) {
    forall i :: 0 <= i < |log| ==> Continues(log[..i], log[i])
  }

  ghost predicate EndpointsExist(db: Db) {
    forall id :: id in db.relationships ==>
      db.relationships[id].fromId in db.entities && db.relationships[id].toId in db.entities
  }

  ghost predicate KeysAreIds(db: Db) {
    && (forall id :: id in db.entities ==> db.entities[id].id == id)
    && (forall id :: id in db.relationships ==> db.relationships[id].id == id)
  }

  /** What every run of batches keeps. */
  ghost predicate Inv(db: Db) {
    LogIsTruth(db) && Disciplined(db.log) && EndpointsExist(db) && KeysAreIds(db)
  }

  lemma InvParts(db: Db)
    requires Inv(db)
    ensures LogIsTruth(db) && Disciplined(db.log) && EndpointsExist(db) && KeysAreIds(db)
  {
  }

  // ---------------------------------------------------------------- every run keeps it

  lemma LastSnoc(log: seq<Entry>, e: Entry)
    ensures forall id :: LastEntity(log + [e], id) ==
              if e.change.EntityChange? && e.change.id == id then Some(e.change.after) else LastEntity(log, id)
    ensures forall id :: LastRel(log + [e], id) ==
              if e.change.RelChange? && e.change.id == id then Some(e.change.afterRel) else LastRel(log, id)
  {
    assert (log + [e])[..|log|] == log;
  }

  lemma DisciplinedSnoc(log: seq<Entry>, e: Entry)
    requires Disciplined(log) && Continues(log, e)
    ensures Disciplined(log + [e])
  {
    hide Continues;
    var log' := log + [e];
    forall i | 0 <= i < |log'| ensures Continues(log'[..i], log'[i]) {
      assert i < |log| ==> log'[..i] == log[..i];
      assert log'[..|log|] == log;
    }
  }

  lemma WriteEntityKeepsInv(db: Db, txn: string, at: Time, op: MutationType, row: Entity, logged: Entity)
    requires Inv(db) && SameEntity(row, logged)
    requires op == Created <==> row.id !in db.entities
    requires row.id in db.entities ==> row.version == db.entities[row.id].version + 1
    ensures Inv(WriteEntity(db, txn, at, op, row, logged))
  {
    hide LastEntity, LastRel, Disciplined;
    var db' := WriteEntity(db, txn, at, op, row, logged);
    var e := db'.log[|db.log|];
    LastSnoc(db.log, e);
    assert Continues(db.log, e) by {
      assert EntityMatches(Lookup(db.entities, row.id), LastEntity(db.log, row.id));
    }
    DisciplinedSnoc(db.log, e);
    forall id ensures EntityMatches(Lookup(db'.entities, id), LastEntity(db'.log, id)) {
      assert EntityMatches(Lookup(db.entities, id), LastEntity(db.log, id));
    }
    forall id ensures RelMatches(Lookup(db'.relationships, id), LastRel(db'.log, id)) {
      assert RelMatches(Lookup(db.relationships, id), LastRel(db.log, id));
    }
  }

  lemma WriteRelKeepsInv(db: Db, txn: string, at: Time, op: MutationType, row: Relationship, logged: Relationship)
    requires Inv(db) && SameRel(row, logged)
    requires op == Created <==> row.id !in db.relationships
    requires row.id in db.relationships ==> row.version == db.relationships[row.id].version + 1
    requires row.fromId in db.entities && row.toId in db.entities
    ensures Inv(WriteRel(db, txn, at, op, row, logged))
  {
    hide LastEntity, LastRel, Disciplined;
    var db' := WriteRel(db, txn, at, op, row, logged);
    var e := db'.log[|db.log|];
    LastSnoc(db.log, e);
    assert Continues(db.log, e) by {
      assert RelMatches(Lookup(db.relationships, row.id), LastRel(db.log, row.id));
    }
    DisciplinedSnoc(db.log, e);
    forall id ensures EntityMatches(Lookup(db'.entities, id), LastEntity(db'.log, id)) {
      assert EntityMatches(Lookup(db.entities, id), LastEntity(db.log, id));
    }
    forall id ensures RelMatches(Lookup(db'.relationships, id), LastRel(db'.log, id)) {
      assert RelMatches(Lookup(db.relationships, id), LastRel(db.log, id));
    }
  }

  /** One successful mutation keeps rows, log and endpoints in step. */
  lemma ApplyOneKeepsInv(schema: Schema, db: Db, txn: string, m: Mutation, tick: Tick)
    requires Inv(db) && ApplyOne(schema, db, txn, m, tick).Done?
    ensures Inv(ApplyOne(schema, db, txn, m, tick).db)
  {
    hide LogIsTruth, Disciplined, WriteEntity, WriteRel;
    match m
    case UpsertEntity(e) =>
      var e1 := EntityRow(schema, e.value);
      if e1.id !in db.entities {
        var row := e1.(version := if e1.version == 0 then 1 else e1.version);
        WriteEntityKeepsInv(db, txn, tick.log, Created, row, row);
      } else {
        var row := e1.(version := db.entities[e1.id].version + 1);
        WriteEntityKeepsInv(db, txn, tick.log, Updated, row, row);
      }
    case UpsertRelationship(r) =>
      var r1 := RelRow(schema, r.value);
      if r1.id !in db.relationships {
        var row := r1.(version := if r1.version == 0 then 1 else r1.version);
        WriteRelKeepsInv(db, txn, tick.log, Created, row, row);
      } else {
        var row := r1.(version := db.relationships[r1.id].version + 1);
        WriteRelKeepsInv(db, txn, tick.log, Updated, row, row);
      }
    case SoftDeleteEntity(id) =>
      if db.entities[id].isActive {
        WriteEntityKeepsInv(db, txn, tick.log, Deleted, DeletedEntity(db.entities[id], tick.row).(id := id),
                            DeletedEntity(db.entities[id], tick.state));
      }
    case DeleteRelationship(id) =>
      if db.relationships[id].isActive {
        WriteRelKeepsInv(db, txn, tick.log, Deleted, DeletedRel(db.relationships[id], tick.row).(id := id),
                         DeletedRel(db.relationships[id], tick.state));
      }
  }

  lemma {:induction false} PrefixKeepsInv(schema: Schema, db: Db, b: Batch, k: nat)
    requires Inv(db) && k <= |b.mutations|
    ensures Prefix(schema, db, b, k).Going? ==> Inv(Prefix(schema, db, b, k).db)
  {
    hide Inv, ApplyOne;
    if k > 0 {
      PrefixKeepsInv(schema, db, b, k - 1);
      var p := Prefix(schema, db, b, k - 1);
      if p.Going? && ApplyOne(schema, p.db, b.txn, b.mutations[k - 1], b.clock(k - 1)).Done? {
        ApplyOneKeepsInv(schema, p.db, b.txn, b.mutations[k - 1], b.clock(k - 1));
      }
    }
  }

  /** Over every run of batches, whatever the clock does and whichever batches fail. */
  lemma {:induction false} RunKeepsInv(schema: Schema, batches: seq<Batch>)
    ensures Inv(Run(schema, batches))
  {
    if batches != [] {
      RunKeepsInv(schema, batches[..|batches| - 1]);
      hide Inv;
      var b := batches[|batches| - 1];
      PrefixKeepsInv(schema, Run(schema, batches[..|batches| - 1]), b, |b.mutations|);
    }
  }

  lemma StepExtendsLog(schema: Schema, db: Db, txn: string, m: Mutation, tick: Tick)
    requires ApplyOne(schema, db, txn, m, tick).Done?
    ensures db.log <= ApplyOne(schema, db, txn, m, tick).db.log
  {
  }

  /** The log only ever grows at its end. */
  lemma {:induction false} PrefixExtendsLog(schema: Schema, db: Db, b: Batch, k: nat)
    requires k <= |b.mutations|
    ensures Prefix(schema, db, b, k).Going? ==> db.log <= Prefix(schema, db, b, k).db.log
  {
    hide ApplyOne;
    if k > 0 && Prefix(schema, db, b, k).Going? {
      PrefixExtendsLog(schema, db, b, k - 1);
      var p := Prefix(schema, db, b, k - 1);
      StepExtendsLog(schema, p.db, b.txn, b.mutations[k - 1], b.clock(k - 1));
    }
  }

  /** A batch with any failing mutation leaves no trace. */
  lemma FailedBatchLeavesNoTrace(schema: Schema, db: Db, b: Batch, k: nat)
    requires k < |b.mutations| && Prefix(schema, db, b, k).Going?
    requires ApplyOne(schema, Prefix(schema, db, b, k).db, b.txn, b.mutations[k], b.clock(k)).Failed?
    ensures Committed(schema, db, b) == db
  {
    hide ApplyOne;
    StoppedStays(schema, db, b, k + 1, |b.mutations|);
  }

  lemma {:induction false} StoppedStays(schema: Schema, db: Db, b: Batch, j: nat, k: nat)
    requires j <= k <= |b.mutations| && Prefix(schema, db, b, j).Stopped?
    ensures Prefix(schema, db, b, k) == Prefix(schema, db, b, j)
    decreases k
  {
    hide ApplyOne;
    if j < k {
      StoppedStays(schema, db, b, j, k - 1);
    }
  }

  /** The last mutation of a transaction that is still going. */
  lemma PrefixStep(schema: Schema, db: Db, b: Batch, k: nat)
    requires 0 < k <= |b.mutations| && Prefix(schema, db, b, k).Going?
    ensures var p, q := Prefix(schema, db, b, k - 1), Prefix(schema, db, b, k);
            p.Going? &&
            var step := ApplyOne(schema, p.db, b.txn, b.mutations[k - 1], b.clock(k - 1));
            step.Done? && q.db == step.db && |q.results| == |p.results| + 1 && q.results[|p.results|] == step.result &&
            forall i :: 0 <= i < |p.results| ==> q.results[i] == p.results[i]
  {
    hide ApplyOne;
  }

  /** The post-commit hooks treat this entity as changed. */
  predicate Names(r: Result, id: Id) {
    r.operation != OpNoChange && r.entityId == Some(id)
  }

  lemma OneMutationNames(schema: Schema, db: Db, txn: string, m: Mutation, tick: Tick, id: Id)
    requires ApplyOne(schema, db, txn, m, tick).Done?
    requires !Names(ApplyOne(schema, db, txn, m, tick).result, id)
    ensures Lookup(ApplyOne(schema, db, txn, m, tick).db.entities, id) == Lookup(db.entities, id)
  {
  }

  /** A row no result names is untouched. */
  lemma {:induction false} UnnamedRowStays(schema: Schema, db: Db, b: Batch, k: nat, id: Id)
    requires k <= |b.mutations| && Prefix(schema, db, b, k).Going?
    requires forall i :: 0 <= i < |Prefix(schema, db, b, k).results| ==> !Names(Prefix(schema, db, b, k).results[i], id)
    ensures Lookup(Prefix(schema, db, b, k).db.entities, id) == Lookup(db.entities, id)
  {
    hide ApplyOne, Names;
    if k > 0 {
      var p, q := Prefix(schema, db, b, k - 1), Prefix(schema, db, b, k);
      PrefixStep(schema, db, b, k);
      hide Prefix;
      UnnamedRowStays(schema, db, b, k - 1, id);
      assert !Names(q.results[|p.results|], id);
      OneMutationNames(schema, p.db, b.txn, b.mutations[k - 1], b.clock(k - 1), id);
    }
  }

  // ---------------------------------------------------------------- histories

  predicate OnEntity(e: Entry, id: Id) {
    e.change.EntityChange? && e.change.id == id
  }

  predicate OnRel(e: Entry, id: Id) {
    e.change.RelChange? && e.change.id == id
  }

  lemma {:induction false} LastEntityIs(log: seq<Entry>, id: Id, i: nat)
    requires i < |log| && OnEntity(log[i], id) && forall k :: i < k < |log| ==> !OnEntity(log[k], id)
    ensures LastEntity(log, id) == Some(log[i].change.after)
    decreases |log|
  {
    if i < |log| - 1 {
      assert !OnEntity(log[|log| - 1], id);
      LastEntityIs(log[..|log| - 1], id, i);
    }
  }

  lemma {:induction false} LastRelIs(log: seq<Entry>, id: Id, i: nat)
    requires i < |log| && OnRel(log[i], id) && forall k :: i < k < |log| ==> !OnRel(log[k], id)
    ensures LastRel(log, id) == Some(log[i].change.afterRel)
    decreases |log|
  {
    if i < |log| - 1 {
      assert !OnRel(log[|log| - 1], id);
      LastRelIs(log[..|log| - 1], id, i);
    }
  }

  lemma {:induction false} NoEntityEntry(log: seq<Entry>, id: Id)
    ensures LastEntity(log, id) == None <==> forall k :: 0 <= k < |log| ==> !OnEntity(log[k], id)
  {
    if log != [] {
      NoEntityEntry(log[..|log| - 1], id);
    }
  }

  lemma {:induction false} NoRelEntry(log: seq<Entry>, id: Id)
    ensures LastRel(log, id) == None <==> forall k :: 0 <= k < |log| ==> !OnRel(log[k], id)
  {
    if log != [] {
      NoRelEntry(log[..|log| - 1], id);
    }
  }

  lemma EachContinues(log: seq<Entry>, j: nat)
    requires Disciplined(log) && j < |log|
    ensures Continues(log[..j], log[j])
  {
    hide Continues;
  }

  /** Each entity id is created once, by its first entry; consecutive entries chain their versions. */
  lemma EntityHistory(log: seq<Entry>, id: Id, j: nat)
    requires Disciplined(log) && j < |log| && OnEntity(log[j], id)
    ensures log[j].change.op == Created <==> forall k :: 0 <= k < j ==> !OnEntity(log[k], id)
    ensures forall i :: 0 <= i < j && OnEntity(log[i], id) && (forall k :: i < k < j ==> !OnEntity(log[k], id)) ==>
              log[j].change.before.Some? && log[j].change.before.value.version == log[i].change.after.version &&
              log[j].change.after.version == log[i].change.after.version + 1
  {
    hide LastEntity, Disciplined;
    var past := log[..j];
    assert forall k :: 0 <= k < j ==> past[k] == log[k];
    assert Continues(past, log[j]) by { EachContinues(log, j); }
    NoEntityEntry(past, id);
    forall i | 0 <= i < j && OnEntity(log[i], id) && (forall k :: i < k < j ==> !OnEntity(log[k], id))
      ensures LastEntity(past, id) == Some(log[i].change.after)
    {
      LastEntityIs(past, id, i);
    }
  }

  lemma RelHistory(log: seq<Entry>, id: Id, j: nat)
    requires Disciplined(log) && j < |log| && OnRel(log[j], id)
    ensures log[j].change.op == Created <==> forall k :: 0 <= k < j ==> !OnRel(log[k], id)
    ensures forall i :: 0 <= i < j && OnRel(log[i], id) && (forall k :: i < k < j ==> !OnRel(log[k], id)) ==>
              log[j].change.beforeRel.Some? &&
              log[j].change.beforeRel.value.version == log[i].change.afterRel.version &&
              log[j].change.afterRel.version == log[i].change.afterRel.version + 1
  {
    hide LastRel, Disciplined;
    var past := log[..j];
    assert forall k :: 0 <= k < j ==> past[k] == log[k];
    assert Continues(past, log[j]) by { EachContinues(log, j); }
    NoRelEntry(past, id);
    forall i | 0 <= i < j && OnRel(log[i], id) && (forall k :: i < k < j ==> !OnRel(log[k], id))
      ensures LastRel(past, id) == Some(log[i].change.afterRel)
    {
      LastRelIs(past, id, i);
    }
  }

  /** Over every run: rows carry the last logged version, and both endpoints of every stored edge exist. */
  lemma RowsFollowLog(schema: Schema, batches: seq<Batch>, id: Id)
    ensures var db := Run(schema, batches);
            && (id in db.entities <==> LastEntity(db.log, id).Some?)
            && (id in db.entities ==> db.entities[id].version == LastEntity(db.log, id).value.version)
            && (id in db.relationships <==> LastRel(db.log, id).Some?)
            && (id in db.relationships ==>
                  db.relationships[id].version == LastRel(db.log, id).value.version &&
                  db.relationships[id].fromId in db.entities && db.relationships[id].toId in db.entities)
  {
    RunKeepsInv(schema, batches);
    hide Run, LastEntity, LastRel, Disciplined;
    var db := Run(schema, batches);
    assert EntityMatches(Lookup(db.entities, id), LastEntity(db.log, id));
    assert RelMatches(Lookup(db.relationships, id), LastRel(db.log, id));
  }
}
