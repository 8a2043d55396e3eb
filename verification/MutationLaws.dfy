/**
 * What a mutation may do and what it leaves behind, said of rows and log alone: when each kind is accepted, what the
 * tables, the log and the result hold afterwards. A transaction is exactly a chain of such steps.
 */
module MutationLaws {
  import opened Wrappers
  import opened Records
  import opened EventStore

  // ---------------------------------------------------------------- upserts

  ghost function EntityTarget(schema: Schema, e: Entity): Id {
    if e.id != "" then e.id else schema.entityId(e)
  }

  ghost function RelTarget(schema: Schema, r: Relationship): Id {
    if r.id != "" then r.id else schema.relId(r)
  }

  /** The stored row is active and has what the caller supplied; an absent lifecycle means ACTIVE. */
  ghost predicate EntitySays(row: Entity, e: Entity) {
    && row.isActive && row.kind == e.kind && row.subType == e.subType && row.canonicalName == e.canonicalName
    && row.namespace == e.namespace && row.confidence == e.confidence && row.properties == e.properties
    && row.lifecycle == (if e.lifecycle != "" then e.lifecycle else "ACTIVE")
  }

  ghost predicate RelSays(row: Relationship, r: Relationship) {
    && row.isActive && row.kind == r.kind && row.fromId == r.fromId && row.toId == r.toId
    && row.confidence == r.confidence && row.properties == r.properties
  }

  /** A supplied version is either absent (0) or the stored one; a first version is the supplied one or 1. */
  ghost predicate VersionFits(supplied: int, stored: Option<int>) {
    supplied != 0 && stored.Some? ==> supplied == stored.value
  }

  ghost function NextVersion(supplied: int, stored: Option<int>): int {
    if stored.Some? then stored.value + 1 else if supplied != 0 then supplied else 1
  }

  ghost function EntityVersion(db: Db, id: Id): Option<int> {
    if id in db.entities then Some(db.entities[id].version) else None
  }

  ghost function RelVersion(db: Db, id: Id): Option<int> {
    if id in db.relationships then Some(db.relationships[id].version) else None
  }

  // ---------------------------------------------------------------- what one mutation may touch

  /** One entity row and nothing else, and one new log entry. */
  ghost predicate WritesEntity(db: Db, db': Db, id: Id, txn: string, at: Time, change: Change) {
    && db'.relationships == db.relationships
    && db'.entities.Keys == db.entities.Keys + {id}
    && (forall x :: x in db.entities && x != id ==> db'.entities[x] == db.entities[x])
    && db'.log == db.log + [Entry(|db.log| + 1, txn, at, change)]
  }

  ghost predicate WritesRel(db: Db, db': Db, id: Id, txn: string, at: Time, change: Change) {
    && db'.entities == db.entities
    && db'.relationships.Keys == db.relationships.Keys + {id}
    && (forall x :: x in db.relationships && x != id ==> db'.relationships[x] == db.relationships[x])
    && db'.log == db.log + [Entry(|db.log| + 1, txn, at, change)]
  }

  // ---------------------------------------------------------------- accepted when, and then what

  /** Exactly what the transaction demands of a mutation. */
  ghost predicate Accepts(schema: Schema, db: Db, m: Mutation) {
    match m
    case UpsertEntity(e) =>
      e.Some? && schema.entityOk(e.value)
      && VersionFits(e.value.version, EntityVersion(db, EntityTarget(schema, e.value)))
    case UpsertRelationship(r) =>
      r.Some? && schema.relOk(r.value) && r.value.fromId in db.entities && r.value.toId in db.entities
      && VersionFits(r.value.version, RelVersion(db, RelTarget(schema, r.value)))
    case SoftDeleteEntity(id) => id != "" && id in db.entities
    case DeleteRelationship(id) => id != "" && id in db.relationships
    case UnknownKind => false
  }

  ghost predicate EntityUpserted(schema: Schema, db: Db, txn: string, e: Entity, tick: Tick, db': Db) {
    var id := EntityTarget(schema, e);
    if id in db.entities && EntitySays(db.entities[id], e) then db' == db
    else
      id in db'.entities &&
      var row := db'.entities[id];
      && EntitySays(row, e) && row.id == id && row.validFrom == e.validFrom && row.validTo == e.validTo
      && row.version == NextVersion(e.version, EntityVersion(db, id))
      && WritesEntity(db, db', id, txn, tick.log,
           EntityChange(if id in db.entities then Updated else Created, id, Lookup(db.entities, id), row))
  }

  ghost predicate RelUpserted(schema: Schema, db: Db, txn: string, r: Relationship, tick: Tick, db': Db) {
    var id := RelTarget(schema, r);
    if id in db.relationships && RelSays(db.relationships[id], r) then db' == db
    else
      id in db'.relationships &&
      var row := db'.relationships[id];
      && RelSays(row, r) && row.id == id && row.validFrom == r.validFrom && row.validTo == r.validTo
      && row.version == NextVersion(r.version, RelVersion(db, id))
      && WritesRel(db, db', id, txn, tick.log,
           RelChange(if id in db.relationships then Updated else Created, id, Lookup(db.relationships, id), row))
  }

  /** Inactive, DELETED, stamped and one version up; the logged state has its own stamp. A dead row is left alone. */
  ghost predicate EntityDeleted(db: Db, txn: string, id: Id, tick: Tick, db': Db)
    requires id in db.entities
  {
    var was := db.entities[id];
    if !was.isActive then db' == db
    else
      id in db'.entities &&
      var row := db'.entities[id];
      && row == was.(isActive := false, lifecycle := "DELETED", validTo := Some(tick.row), version := was.version + 1)
      && WritesEntity(db, db', id, txn, tick.log,
           EntityChange(Deleted, id, Some(was), row.(validTo := Some(tick.state))))
  }

  ghost predicate RelDeleted(db: Db, txn: string, id: Id, tick: Tick, db': Db)
    requires id in db.relationships
  {
    var was := db.relationships[id];
    if !was.isActive then db' == db
    else
      id in db'.relationships &&
      var row := db'.relationships[id];
      && row == was.(isActive := false, validTo := Some(tick.row), version := was.version + 1)
      && WritesRel(db, db', id, txn, tick.log, RelChange(Deleted, id, Some(was), row.(validTo := Some(tick.state))))
  }

  /** The rows and the log after an accepted mutation. */
  ghost predicate Leaves(schema: Schema, db: Db, txn: string, m: Mutation, tick: Tick, db': Db)
    requires Accepts(schema, db, m)
  {
    match m
    case UpsertEntity(e) => EntityUpserted(schema, db, txn, e.value, tick, db')
    case UpsertRelationship(r) => RelUpserted(schema, db, txn, r.value, tick, db')
    case SoftDeleteEntity(id) => EntityDeleted(db, txn, id, tick, db')
    case DeleteRelationship(id) => RelDeleted(db, txn, id, tick, db')
  }

  /** The operation the caller reads back: nothing changed, or what the new log entry says. */
  ghost function OperationOf(db: Db, db': Db): Operation {
    if |db'.log| == 0 || db' == db then OpNoChange
    else
      match db'.log[|db'.log| - 1].change.op
      case Created => OpCreated
      case Updated => OpUpdated
      case Deleted => OpDeleted
  }

  /** An entity mutation names its entity; one that changes a relationship names the ends of the row it wrote. */
  ghost predicate Reports(schema: Schema, db: Db, m: Mutation, db': Db, result: Result)
    requires Accepts(schema, db, m)
  {
    result.operation == OperationOf(db, db') &&
    match m
    case UpsertEntity(e) => result.entityId == Some(EntityTarget(schema, e.value)) && result.stale == None
    case SoftDeleteEntity(id) => result.entityId == Some(id) && result.stale == None
    case UpsertRelationship(r) =>
      result.entityId == None && result.stale == (if db' == db then None else Some((r.value.fromId, r.value.toId)))
    case DeleteRelationship(id) =>
      var was := db.relationships[id];
      result.entityId == None && result.stale == (if db' == db then None else Some((was.fromId, was.toId)))
  }

  /** The first demand that is not met names the error. */
  ghost function Refusal(schema: Schema, db: Db, m: Mutation): Error
    requires !Accepts(schema, db, m)
  {
    match m
    case UpsertEntity(e) =>
      if e == None then MissingBody else if !schema.entityOk(e.value) then Invalid else VersionConflict
    case UpsertRelationship(r) =>
      if r == None then MissingBody else if !schema.relOk(r.value) then Invalid
      else if r.value.fromId !in db.entities || r.value.toId !in db.entities then UnknownEntity else VersionConflict
    case SoftDeleteEntity(id) => if id == "" then MissingTarget else NotFound
    case DeleteRelationship(id) => if id == "" then MissingTarget else NotFound
    case UnknownKind => BadKind
  }

  // ---------------------------------------------------------------- every step is one of these

  lemma UpsertEntityLeaves(schema: Schema, db: Db, txn: string, e: Entity, tick: Tick)
    requires KeysAreIds(db) && Accepts(schema, db, UpsertEntity(Some(e)))
    ensures var s := ApplyOne(schema, db, txn, UpsertEntity(Some(e)), tick);
      s.Done? && EntityUpserted(schema, db, txn, e, tick, s.db)
      && Reports(schema, db, UpsertEntity(Some(e)), s.db, s.result)
  {
  }

  lemma UpsertRelLeaves(schema: Schema, db: Db, txn: string, r: Relationship, tick: Tick)
    requires KeysAreIds(db) && Accepts(schema, db, UpsertRelationship(Some(r)))
    ensures var s := ApplyOne(schema, db, txn, UpsertRelationship(Some(r)), tick);
      s.Done? && RelUpserted(schema, db, txn, r, tick, s.db)
      && Reports(schema, db, UpsertRelationship(Some(r)), s.db, s.result)
  {
  }

  lemma SoftDeleteLeaves(schema: Schema, db: Db, txn: string, id: Id, tick: Tick)
    requires KeysAreIds(db) && Accepts(schema, db, SoftDeleteEntity(id))
    ensures var s := ApplyOne(schema, db, txn, SoftDeleteEntity(id), tick);
      s.Done? && EntityDeleted(db, txn, id, tick, s.db) && Reports(schema, db, SoftDeleteEntity(id), s.db, s.result)
  {
  }

  lemma DeleteRelLeaves(schema: Schema, db: Db, txn: string, id: Id, tick: Tick)
    requires KeysAreIds(db) && Accepts(schema, db, DeleteRelationship(id))
    ensures var s := ApplyOne(schema, db, txn, DeleteRelationship(id), tick);
      s.Done? && RelDeleted(db, txn, id, tick, s.db) && Reports(schema, db, DeleteRelationship(id), s.db, s.result)
  {
  }

  /** A mutation goes through exactly when it is accepted, and then leaves what it should. */
  lemma OneStep(schema: Schema, db: Db, txn: string, m: Mutation, tick: Tick)
    requires KeysAreIds(db)
    ensures var s := ApplyOne(schema, db, txn, m, tick);
      && (s.Done? <==> Accepts(schema, db, m))
      && (s.Done? ==> Leaves(schema, db, txn, m, tick, s.db) && Reports(schema, db, m, s.db, s.result))
      && (s.Failed? ==> s.error == Refusal(schema, db, m))
  {
    if Accepts(schema, db, m) {
      hide Reports;
      match m
      case UpsertEntity(e) => UpsertEntityLeaves(schema, db, txn, e.value, tick);
      case UpsertRelationship(r) => UpsertRelLeaves(schema, db, txn, r.value, tick);
      case SoftDeleteEntity(id) => SoftDeleteLeaves(schema, db, txn, id, tick);
      case DeleteRelationship(id) => DeleteRelLeaves(schema, db, txn, id, tick);
    }
  }

  // ---------------------------------------------------------------- nothing is left to chance

  lemma SameEntityWrites(db: Db, a: Db, b: Db, id: Id, txn: string, at: Time, c: Change, d: Change)
    requires WritesEntity(db, a, id, txn, at, c) && WritesEntity(db, b, id, txn, at, d)
    requires a.entities[id] == b.entities[id] && c == d
    ensures a == b
  {
    assert a.entities == b.entities;
  }

  lemma SameRelWrites(db: Db, a: Db, b: Db, id: Id, txn: string, at: Time, c: Change, d: Change)
    requires WritesRel(db, a, id, txn, at, c) && WritesRel(db, b, id, txn, at, d)
    requires a.relationships[id] == b.relationships[id] && c == d
    ensures a == b
  {
    assert a.relationships == b.relationships;
  }

  /** An accepted mutation leaves one store and one result. */
  lemma LeavesOne(schema: Schema, db: Db, txn: string, m: Mutation, tick: Tick, a: Db, b: Db, x: Result, y: Result)
    requires Accepts(schema, db, m)
    requires Leaves(schema, db, txn, m, tick, a) && Leaves(schema, db, txn, m, tick, b)
    requires Reports(schema, db, m, a, x) && Reports(schema, db, m, b, y)
    ensures a == b && x == y
  {
    hide OperationOf;
    if a != db || b != db {
      match m
      case UpsertEntity(e) =>
        var id := EntityTarget(schema, e.value);
        var op := if id in db.entities then Updated else Created;
        SameEntityWrites(db, a, b, id, txn, tick.log, EntityChange(op, id, Lookup(db.entities, id), a.entities[id]),
          EntityChange(op, id, Lookup(db.entities, id), b.entities[id]));
      case UpsertRelationship(r) =>
        var id := RelTarget(schema, r.value);
        var op := if id in db.relationships then Updated else Created;
        SameRelWrites(db, a, b, id, txn, tick.log,
          RelChange(op, id, Lookup(db.relationships, id), a.relationships[id]),
          RelChange(op, id, Lookup(db.relationships, id), b.relationships[id]));
      case SoftDeleteEntity(id) =>
        var c := EntityChange(Deleted, id, Some(db.entities[id]), a.entities[id].(validTo := Some(tick.state)));
        SameEntityWrites(db, a, b, id, txn, tick.log, c, c);
      case DeleteRelationship(id) =>
        var c := RelChange(Deleted, id, Some(db.relationships[id]), a.relationships[id].(validTo := Some(tick.state)));
        SameRelWrites(db, a, b, id, txn, tick.log, c, c);
    }
  }

  // ---------------------------------------------------------------- a transaction is a chain of them

  /** The stores and results along the first mutations of a batch, each mutation accepted where it stands. */
  ghost predicate IsChain(schema: Schema, b: Batch, dbs: seq<Db>, results: seq<Result>) {
    && |dbs| == |results| + 1 && |results| <= |b.mutations|
    && forall k :: 0 <= k < |results| ==> IsLink(schema, b, k, dbs[k], dbs[k + 1], results[k])
  }

  ghost predicate IsLink(schema: Schema, b: Batch, k: nat, db: Db, db': Db, result: Result)
    requires k < |b.mutations|
  {
    && Accepts(schema, db, b.mutations[k])
    && Leaves(schema, db, b.txn, b.mutations[k], b.clock(k), db')
    && Reports(schema, db, b.mutations[k], db', result)
  }

  /** A chain through the whole batch. */
  ghost predicate Succeeds(schema: Schema, db: Db, b: Batch, dbs: seq<Db>, results: seq<Result>) {
    IsChain(schema, b, dbs, results) && |results| == |b.mutations| && dbs[0] == db
  }

  /** A chain up to a mutation that is refused where it stands. */
  ghost predicate Fails(schema: Schema, db: Db, b: Batch, dbs: seq<Db>, results: seq<Result>, error: Error) {
    && IsChain(schema, b, dbs, results) && |results| < |b.mutations| && dbs[0] == db
    && !Accepts(schema, dbs[|results|], b.mutations[|results|])
    && error == Refusal(schema, dbs[|results|], b.mutations[|results|])
  }

  lemma LinkStep(schema: Schema, db: Db, b: Batch, k: nat)
    requires Inv(db) && k < |b.mutations| && Prefix(schema, db, b, k).Going?
    ensures var p, q := Prefix(schema, db, b, k), Prefix(schema, db, b, k + 1);
      && (q.Going? <==> Accepts(schema, p.db, b.mutations[k]))
      && (q.Going? ==> |q.results| == |p.results| + 1 && q.results[..|p.results|] == p.results
                       && IsLink(schema, b, k, p.db, q.db, q.results[|p.results|]))
      && (q.Stopped? ==> q.error == Refusal(schema, p.db, b.mutations[k]))
  {
    hide ApplyOne, Accepts, Leaves, Reports, Refusal, LogIsTruth, Disciplined, EndpointsExist, KeysAreIds;
    var p := Prefix(schema, db, b, k);
    PrefixKeepsInv(schema, db, b, k);
    InvParts(p.db);
    OneStep(schema, p.db, b.txn, b.mutations[k], b.clock(k));
  }

  lemma ChainSnoc(schema: Schema, b: Batch, dbs: seq<Db>, results: seq<Result>, db': Db, result: Result)
    requires IsChain(schema, b, dbs, results) && |results| < |b.mutations|
    requires IsLink(schema, b, |results|, dbs[|results|], db', result)
    ensures IsChain(schema, b, dbs + [db'], results + [result])
  {
    hide IsLink;
    var ds, rs := dbs + [db'], results + [result];
    forall k | 0 <= k < |rs| ensures IsLink(schema, b, k, ds[k], ds[k + 1], rs[k]) {
      if k < |results| {
        assert IsLink(schema, b, k, dbs[k], dbs[k + 1], results[k]);
      }
    }
  }

  /** The transaction after k mutations stands at the end of a chain, or was stopped by a refused mutation. */
  lemma {:induction false} PrefixIsChain(schema: Schema, db: Db, b: Batch, k: nat) returns (dbs: seq<Db>)
    requires Inv(db) && k <= |b.mutations|
    ensures var p := Prefix(schema, db, b, k);
      p.Going? ==> IsChain(schema, b, dbs, p.results) && |p.results| == k && dbs[0] == db && dbs[k] == p.db
    ensures Prefix(schema, db, b, k).Stopped? ==>
      exists ds, rs :: Fails(schema, db, b, ds, rs, Prefix(schema, db, b, k).error)
  {
    hide IsLink, ApplyOne, Inv, Accepts, Refusal;
    if k == 0 {
      dbs := [db];
    } else {
      dbs := PrefixIsChain(schema, db, b, k - 1);
      var p, q := Prefix(schema, db, b, k - 1), Prefix(schema, db, b, k);
      if p.Going? {
        LinkStep(schema, db, b, k - 1);
        if q.Going? {
          hide IsChain;
          ChainSnoc(schema, b, dbs, p.results, q.db, q.results[k - 1]);
          assert p.results + [q.results[k - 1]] == q.results;
          dbs := dbs + [q.db];
        } else {
          assert Fails(schema, db, b, dbs, p.results, q.error);
        }
      }
    }
  }

  /** There is only one chain: it follows the transaction. */
  lemma {:induction false} ChainIsPrefix(schema: Schema, db: Db, b: Batch, dbs: seq<Db>, results: seq<Result>, k: nat)
    requires Inv(db) && IsChain(schema, b, dbs, results) && dbs[0] == db && k <= |results|
    ensures Prefix(schema, db, b, k) == Going(dbs[k], results[..k])
  {
    hide ApplyOne, Inv, Accepts, Leaves, Reports;
    if k > 0 {
      ChainIsPrefix(schema, db, b, dbs, results, k - 1);
      LinkStep(schema, db, b, k - 1);
      assert IsLink(schema, b, k - 1, dbs[k - 1], dbs[k], results[k - 1]);
      var q := Prefix(schema, db, b, k);
      LeavesOne(schema, dbs[k - 1], b.txn, b.mutations[k - 1], b.clock(k - 1), q.db, dbs[k], q.results[k - 1],
        results[k - 1]);
      assert q.results == results[..k - 1] + [results[k - 1]];
    }
  }

  /** The transaction succeeds exactly when every mutation is accepted in turn, and ends where that chain ends. */
  lemma BatchIsChain(schema: Schema, db: Db, b: Batch)
    requires Inv(db)
    ensures var p := Prefix(schema, db, b, |b.mutations|);
      && (p.Going? <==> exists dbs, results :: Succeeds(schema, db, b, dbs, results))
      && (forall dbs, results :: Succeeds(schema, db, b, dbs, results) ==> p == Going(dbs[|b.mutations|], results))
      && (forall dbs, results, error :: Fails(schema, db, b, dbs, results, error) ==> p == Stopped(error))
      && (p.Stopped? ==> exists dbs, results :: Fails(schema, db, b, dbs, results, p.error))
  {
    hide IsChain, Inv, Accepts, Refusal, Prefix;
    var n := |b.mutations|;
    var p := Prefix(schema, db, b, n);
    var mine := PrefixIsChain(schema, db, b, n);
    if p.Going? {
      assert Succeeds(schema, db, b, mine, p.results);
    }
    forall dbs, results | Succeeds(schema, db, b, dbs, results)
      ensures |dbs| == n + 1 && p == Going(dbs[n], results)
    {
      ChainLength(schema, b, dbs, results);
      ChainIsPrefix(schema, db, b, dbs, results, n);
      assert results[..n] == results;
    }
    forall dbs, results, error | Fails(schema, db, b, dbs, results, error) ensures p == Stopped(error) {
      ChainLength(schema, b, dbs, results);
      var k := |results|;
      ChainIsPrefix(schema, db, b, dbs, results, k);
      LinkStep(schema, db, b, k);
      StoppedStays(schema, db, b, k + 1, n);
    }
  }

  lemma ChainLength(schema: Schema, b: Batch, dbs: seq<Db>, results: seq<Result>)
    requires IsChain(schema, b, dbs, results)
    ensures |dbs| == |results| + 1
  {
    hide IsLink;
  }
}
