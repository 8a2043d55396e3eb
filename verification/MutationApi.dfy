/** The storage service's write path: row tables, the append-only log, and the batch transaction over both. */
module MutationApi {
  import opened Wrappers
  import opened Records
  import opened EventStore
  import MutationLaws

  /** The tables of the storage database. */
  class Store {
    var entities: map<Id, Entity>
    var relationships: map<Id, Relationship>
    var log: seq<Entry>

    function State(): Db
      reads this
    {
      Db(entities, relationships, log)
    }

    constructor ()
      ensures State() == EMPTY
    {
      entities, relationships, log := map[], map[], [];
    }

    /** Fails on a primary-key clash; a zero version becomes 1 and an empty lifecycle ACTIVE. */
    method InsertEntity(e0: Entity) returns (ok: bool, e: Entity)
      modifies this`entities
      ensures e == e0.(version := if e0.version == 0 then 1 else e0.version,
                       lifecycle := if e0.lifecycle == "" then ACTIVE else e0.lifecycle)
      ensures ok <==> e0.id !in old(entities)
      ensures entities == if ok then old(entities)[e.id := e] else old(entities)
    {
      e := e0;
      if e.version == 0 {
        e := e.(version := 1);
      }
      if e.lifecycle == "" {
        e := e.(lifecycle := ACTIVE);
      }
      ok := e.id !in entities;
      if ok {
        entities := entities[e.id := e];
      }
    }

    /** Overwrites the row only if it still has the expected version. */
    method UpdateEntity(e: Entity, prevVersion: int) returns (ok: bool)
      modifies this`entities
      ensures ok <==> e.id in old(entities) && old(entities)[e.id].version == prevVersion
      ensures entities == if ok then old(entities)[e.id := e] else old(entities)
    {
      ok := e.id in entities && entities[e.id].version == prevVersion;
      if ok {
        entities := entities[e.id := e];
      }
    }

    method SoftDeleteEntity(id: Id, prevVersion: int, now: Time) returns (ok: bool)
      modifies this`entities
      ensures ok <==> id in old(entities) && old(entities)[id].version == prevVersion
      ensures entities == if ok then old(entities)[id := DeletedEntity(old(entities)[id], now)] else old(entities)
    {
      ok := id in entities && entities[id].version == prevVersion;
      if ok {
        var row := entities[id];
        entities := entities[id := row.(isActive := false, lifecycle := DELETED, validTo := Some(now),
          version := row.version + 1)];
      }
    }

    method EntityExists(id: Id) returns (found: bool)
      ensures found <==> id in entities
    {
      found := id in entities;
    }

    /** Fails on a primary-key clash or a dangling endpoint. */
    method InsertRelationship(r0: Relationship) returns (ok: bool, r: Relationship)
      modifies this`relationships
      ensures r == r0.(version := if r0.version == 0 then 1 else r0.version)
      ensures ok <==> r0.id !in old(relationships) && r0.fromId in entities && r0.toId in entities
      ensures relationships == if ok then old(relationships)[r.id := r] else old(relationships)
    {
      r := r0;
      if r.version == 0 {
        r := r.(version := 1);
      }
      ok := r.id !in relationships && r.fromId in entities && r.toId in entities;
      if ok {
        relationships := relationships[r.id := r];
      }
    }

    /** Overwrites the row only if it still has the expected version, and fails on a dangling endpoint. */
    method UpdateRelationship(r: Relationship, prevVersion: int) returns (ok: bool)
      modifies this`relationships
      ensures ok <==>
        && r.id in old(relationships) && old(relationships)[r.id].version == prevVersion
        && r.fromId in entities && r.toId in entities
      ensures relationships == if ok then old(relationships)[r.id := r] else old(relationships)
    {
      ok := r.id in relationships && relationships[r.id].version == prevVersion;
      ok := ok && r.fromId in entities && r.toId in entities;
      if ok {
        relationships := relationships[r.id := r];
      }
    }

    method SoftDeleteRelationship(id: Id, prevVersion: int, now: Time) returns (ok: bool)
      modifies this`relationships
      ensures ok <==> id in old(relationships) && old(relationships)[id].version == prevVersion
      ensures relationships == if ok then old(relationships)[id := DeletedRel(old(relationships)[id], now)]
          else old(relationships)
    {
      ok := id in relationships && relationships[id].version == prevVersion;
      if ok {
        var row := relationships[id];
        relationships := relationships[id := row.(isActive := false, validTo := Some(now), version := row.version + 1)];
      }
    }

    /** Appends one entry; ids are the positions in the log, from 1. */
    method Append(transactionId: string, change: Change, now: Time) returns (entryId: nat)
      modifies this`log
      ensures log == Logged(old(State()), transactionId, now, change)
      ensures entryId == |log|
    {
      entryId := |log| + 1;
      log := log + [Entry(entryId, transactionId, now, change)];
    }
  }

  datatype Outcome = Applied(result: Result) | Rejected(error: Error)

  /** The single write entry point. */
  class Api {
    const store: Store
    const schema: Schema

    constructor (store: Store, schema: Schema)
      ensures this.store == store && this.schema == schema
    {
      this.store, this.schema := store, schema;
    }

    /** The state and outcome a handler must produce for the given step. */
    twostate predicate Performs(step: Step, outcome: Outcome)
      reads store
    {
      match step
      case Done(db, result) => store.State() == db && outcome == Applied(result)
      case Failed(error) => store.State() == old(store.State()) && outcome == Rejected(error)
    }

    method UpsertEntityRow(txn: string, entity: Option<Entity>, tick: Tick) returns (o: Outcome)
      modifies store
      ensures Performs(ApplyOne(schema, old(store.State()), txn, UpsertEntity(entity), tick), o)
    {
      hide EntityEqualForUpdate;
      if entity.None? {
        return Rejected(MissingBody);
      }
      var e := entity.value;
      if !schema.entityOk(e) {
        return Rejected(Invalid);
      }
      if e.id == "" {
        e := e.(id := schema.entityId(entity.value));
      }
      if !e.isActive {
        e := e.(isActive := true);
      }
      if e.lifecycle == "" {
        e := e.(lifecycle := ACTIVE);
      }
      if e.id !in store.entities {
        var ok, row := store.InsertEntity(e);
        var _ := store.Append(txn, EntityChange(Created, row.id, None, row), tick.log);
        return Applied(Result(OpCreated, Some(e.id), None));
      }
      var existing := store.entities[e.id];
      if e.version != 0 && e.version != existing.version {
        return Rejected(VersionConflict);
      }
      var prevVersion := existing.version;
      e := e.(version := prevVersion + 1);
      if EntityEqualForUpdate(existing, e) {
        return Applied(Result(OpNoChange, Some(e.id), None));
      }
      var ok := store.UpdateEntity(e, prevVersion);
      if !ok {
        return Rejected(VersionConflict);
      }
      var _ := store.Append(txn, EntityChange(Updated, e.id, Some(existing), e), tick.log);
      return Applied(Result(OpUpdated, Some(e.id), None));
    }

    method UpsertRelRow(txn: string, relationship: Option<Relationship>, tick: Tick) returns (o: Outcome)
      modifies store
      ensures Performs(ApplyOne(schema, old(store.State()), txn, UpsertRelationship(relationship), tick), o)
    {
      hide RelEqualForUpdate;
      if relationship.None? {
        return Rejected(MissingBody);
      }
      var r := relationship.value;
      if !schema.relOk(r) {
        return Rejected(Invalid);
      }
      if r.id == "" {
        r := r.(id := schema.relId(relationship.value));
      }
      if !r.isActive {
        r := r.(isActive := true);
      }
      var fromOk := store.EntityExists(r.fromId);
      if !fromOk {
        return Rejected(UnknownEntity);
      }
      var toOk := store.EntityExists(r.toId);
      if !toOk {
        return Rejected(UnknownEntity);
      }
      if r.id !in store.relationships {
        var ok, row := store.InsertRelationship(r);
        var _ := store.Append(txn, RelChange(Created, row.id, None, row), tick.log);
        return Applied(Result(OpCreated, None, Some((r.fromId, r.toId))));
      }
      var existing := store.relationships[r.id];
      if r.version != 0 && r.version != existing.version {
        return Rejected(VersionConflict);
      }
      var prevVersion := existing.version;
      r := r.(version := prevVersion + 1);
      if RelEqualForUpdate(existing, r) {
        return Applied(Result(OpNoChange, None, None));
      }
      var ok := store.UpdateRelationship(r, prevVersion);
      if !ok {
        return Rejected(VersionConflict);
      }
      var _ := store.Append(txn, RelChange(Updated, r.id, Some(existing), r), tick.log);
      return Applied(Result(OpUpdated, None, Some((r.fromId, r.toId))));
    }

    method SoftDeleteRow(txn: string, targetId: Id, tick: Tick) returns (o: Outcome)
      requires KeysAreIds(store.State())
      modifies store
      ensures Performs(ApplyOne(schema, old(store.State()), txn, SoftDeleteEntity(targetId), tick), o)
    {
      if targetId == "" {
        return Rejected(MissingTarget);
      }
      if targetId !in store.entities {
        return Rejected(NotFound);
      }
      var existing := store.entities[targetId];
      if !existing.isActive {
        return Applied(Result(OpNoChange, Some(targetId), None));
      }
      var ok := store.SoftDeleteEntity(targetId, existing.version, tick.row);
      if !ok {
        return Rejected(VersionConflict);
      }
      var after := existing.(isActive := false, lifecycle := DELETED, validTo := Some(tick.state),
        version := existing.version + 1);
      var _ := store.Append(txn, EntityChange(Deleted, targetId, Some(existing), after), tick.log);
      return Applied(Result(OpDeleted, Some(targetId), None));
    }

    method DeleteRelRow(txn: string, targetId: Id, tick: Tick) returns (o: Outcome)
      requires KeysAreIds(store.State())
      modifies store
      ensures Performs(ApplyOne(schema, old(store.State()), txn, DeleteRelationship(targetId), tick), o)
    {
      if targetId == "" {
        return Rejected(MissingTarget);
      }
      if targetId !in store.relationships {
        return Rejected(NotFound);
      }
      var existing := store.relationships[targetId];
      if !existing.isActive {
        return Applied(Result(OpNoChange, None, None));
      }
      var ok := store.SoftDeleteRelationship(targetId, existing.version, tick.row);
      if !ok {
        return Rejected(VersionConflict);
      }
      var after := existing.(isActive := false, validTo := Some(tick.state), version := existing.version + 1);
      var _ := store.Append(txn, RelChange(Deleted, targetId, Some(existing), after), tick.log);
      return Applied(Result(OpDeleted, None, Some((existing.fromId, existing.toId))));
    }

    method ApplyMutation(txn: string, m: Mutation, tick: Tick) returns (o: Outcome)
      requires KeysAreIds(store.State())
      modifies store
      ensures Performs(ApplyOne(schema, old(store.State()), txn, m, tick), o)
    {
      match m
      case UpsertEntity(e) => o := UpsertEntityRow(txn, e, tick);
      case UpsertRelationship(r) => o := UpsertRelRow(txn, r, tick);
      case SoftDeleteEntity(id) => o := SoftDeleteRow(txn, id, tick);
      case DeleteRelationship(id) => o := DeleteRelRow(txn, id, tick);
      case UnknownKind => o := Rejected(BadKind);
    }

    /** One transaction: every mutation in order, or none of them. */
    method ApplyBatch(b: Batch) returns (outcome: Progress)
      requires Inv(store.State())
      modifies store
      ensures outcome == Prefix(schema, old(store.State()), b, |b.mutations|)
      ensures store.State() == Committed(schema, old(store.State()), b)
      ensures Inv(store.State())
      ensures outcome.Going? <==> exists dbs, results ::
          MutationLaws.Succeeds(schema, old(store.State()), b, dbs, results)
      ensures forall dbs, results :: MutationLaws.Succeeds(schema, old(store.State()), b, dbs, results) ==>
          outcome.Going? && outcome.results == results && store.State() == dbs[|b.mutations|]
      ensures outcome.Stopped? ==>
          store.State() == old(store.State()) &&
          exists dbs, results :: MutationLaws.Fails(schema, old(store.State()), b, dbs, results, outcome.error)
    {
      hide Inv, ApplyOne, MutationLaws.IsChain;
      var savedEntities, savedRelationships, savedLog := store.entities, store.relationships, store.log;
      ghost var db := store.State();
      MutationLaws.BatchIsChain(schema, db, b);
      var results: seq<Result> := [];
      for k := 0 to |b.mutations|
        invariant Prefix(schema, db, b, k) == Going(store.State(), results)
      {
        PrefixKeepsInv(schema, db, b, k);
        InvParts(store.State());
        label Before:
        ghost var before := store.State();
        var o := ApplyMutation(b.txn, b.mutations[k], b.clock(k));
        assert Performs@Before(ApplyOne(schema, before, b.txn, b.mutations[k], b.clock(k)), o);
        match o
        case Rejected(error) =>
          store.entities, store.relationships, store.log := savedEntities, savedRelationships, savedLog;
          StoppedStays(schema, db, b, k + 1, |b.mutations|);
          return Stopped(error);
        case Applied(result) =>
          results := results + [result];
      }
      PrefixKeepsInv(schema, db, b, |b.mutations|);
      return Going(store.State(), results);
    }
  }
}
