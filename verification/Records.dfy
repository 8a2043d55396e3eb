/** The rows, log entries and mutations the storage service works on. */
module Records {
  import opened Wrappers

  type Id = string
  /** A JSON value in its canonical text form. */
  type Json = string
  type Properties = map<string, Json>
  /** An instant; any total order will do. */
  type Time = int

  const ACTIVE := "ACTIVE"
  const DELETED := "DELETED"

  datatype Entity = Entity(
    id: Id, kind: string, subType: string, canonicalName: string, namespace: string, confidence: real,
    isActive: bool, lifecycle: string, validFrom: Time, validTo: Option<Time>, version: int, properties: Properties)

  datatype Relationship = Relationship(
    id: Id, kind: string, fromId: Id, toId: Id, confidence: real,
    isActive: bool, validFrom: Time, validTo: Option<Time>, version: int, properties: Properties)

  datatype MutationType = Created | Updated | Deleted

  /** What one log entry records. */
  datatype Change =
    | EntityChange(op: MutationType, id: Id, before: Option<Entity>, after: Entity)
    | RelChange(op: MutationType, id: Id, beforeRel: Option<Relationship>, afterRel: Relationship)

  datatype Entry = Entry(entryId: nat, transactionId: string, occurredAt: Time, change: Change)

  datatype Db = Db(entities: map<Id, Entity>, relationships: map<Id, Relationship>, log: seq<Entry>)

  datatype Mutation =
    | UpsertEntity(entity: Option<Entity>)
    | UpsertRelationship(relationship: Option<Relationship>)
    | SoftDeleteEntity(targetId: Id)
    | DeleteRelationship(targetId: Id)
    | UnknownKind

  datatype Error = MissingBody | Invalid | UnknownEntity | VersionConflict | NotFound | MissingTarget | BadKind

  datatype Operation = OpCreated | OpUpdated | OpDeleted | OpNoChange

  /** Per-mutation outcome: what happened, to which entity if any, and whose edges to forget. */
  datatype Result = Result(operation: Operation, entityId: Option<Id>, stale: Option<(Id, Id)>)

  /** The schema rules and the id recipes, left abstract: every theorem holds for all of them. */
  datatype Schema = Schema(
    entityOk: Entity -> bool, relOk: Relationship -> bool,
    entityId: Entity -> Id, relId: Relationship -> Id)

  /** The clock readings of one mutation: the row stamp, the stamp in the logged state, the log's own. */
  datatype Tick = Tick(row: Time, state: Time, log: Time)

  /** Accepts everything. */
  const PERMISSIVE := Schema((e: Entity) => true, (r: Relationship) => true, (e: Entity) => "e",
    (r: Relationship) => "r")

  /** A clock that stands still. */
  function Clock(i: nat): Tick {
    Tick(1, 1, 1)
  }
}
