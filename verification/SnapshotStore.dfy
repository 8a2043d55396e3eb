/** Snapshots of the row tables, and restoring the graph as of an instant. */
module SnapshotStore {
  import opened Wrappers
  import opened Records
  import opened EventStore
  import opened Replay
  import opened SnapshotReads
  import opened StateAt
  import opened MutationApi

  datatype Snapshot = Snapshot(at: Time, cut: nat, state: GraphState)

  /** sn holds the entities of the first n entries of the log, the relationships of the first m; its cut is before n. */
  ghost predicate TakenAt(sn: Snapshot, log: seq<Entry>, n: int, m: int) {
    && sn.cut <= n <= m <= |log|
    && HoldsEntities(sn.state, log[..n]) && HoldsRels(sn.state, log[..m])
  }

  /** ... and what committed between its reads does it no harm. */
  ghost predicate SafelyTaken(sn: Snapshot, log: seq<Entry>) {
    exists n: nat, m: nat :: TakenAt(sn, log, n, m) && Tolerates(log[..m], sn.at, sn.cut, n)
  }

  /** Later batches only extend the log, so a snapshot stays what it was. */
  lemma StaysTaken(sn: Snapshot, log: seq<Entry>, later: seq<Entry>)
    requires SafelyTaken(sn, log)
    ensures SafelyTaken(sn, log + later)
  {
    hide HoldsEntities, HoldsRels, Tolerates;
    var n: nat, m: nat :| TakenAt(sn, log, n, m) && Tolerates(log[..m], sn.at, sn.cut, n);
    assert (log + later)[..n] == log[..n] && (log + later)[..m] == log[..m];
    assert TakenAt(sn, log + later, n, m);
  }

  /** Restoring from a safely taken snapshot gives the promised state. */
  lemma SafeSnapshotRestores(sn: Snapshot, log: seq<Entry>, asOf: Time)
    requires Disciplined(log) && SafelyTaken(sn, log) && sn.at <= asOf
    ensures IsAsOf(ReplayFrom(sn.state, AfterCut(log, sn.cut, asOf)), log, asOf)
  {
    hide HoldsEntities, HoldsRels, Tolerates, Disciplined, IsAsOf, ReplayFrom, AfterCut;
    var n: nat, m: nat :| TakenAt(sn, log, n, m) && Tolerates(log[..m], sn.at, sn.cut, n);
    assert log == log[..m] + log[m..] && log[..m][..n] == log[..n];
    ToleratedRestores(sn.state, log[..m], sn.cut, n, sn.at, log[m..], asOf);
  }

  lemma NoSnapshotRestores(log: seq<Entry>, asOf: Time)
    requires Disciplined(log)
    ensures IsAsOf(ReplayFrom(NOTHING, AfterCut(log, 0, asOf)), log, asOf)
  {
    hide SettledBy, Disciplined, IsAsOf, ReplayFrom, AfterCut;
    NothingHolds();
    assert [] + log == log;
    TakenAfterEverything([], asOf);
    SettledRestores(NOTHING, [], asOf, log, asOf);
    assert CutAt([], asOf) == 0;
  }

  /** The list state that `replayEntry` updates in place. */
  class Restorer {
    var entities: seq<Entity>
    var relationships: seq<Relationship>

    function State(): GraphState
      reads this
    {
      GraphState(entities, relationships)
    }

    constructor (s: GraphState)
      ensures State() == s
    {
      entities, relationships := s.entities, s.relationships;
    }

    method ReplayOne(c: Change)
      modifies this
      ensures State() == ReplayEntry(old(State()), c)
    {
      match c
      case EntityChange(op, _, _, e) =>
        if op == Created {
          entities := entities + [e];
          return;
        }
        for i := 0 to |entities|
          invariant forall j :: 0 <= j < i ==> entities[j].id != e.id
        {
          if entities[i].id == e.id {
            EntitySlotUnique(entities, e.id, i);
            entities := entities[i := e];
            return;
          }
        }
        entities := entities + [e];
      case RelChange(op, _, _, r) =>
        if op == Created {
          relationships := relationships + [r];
          return;
        }
        for i := 0 to |relationships|
          invariant forall j :: 0 <= j < i ==> relationships[j].id != r.id
        {
          if relationships[i].id == r.id {
            RelSlotUnique(relationships, r.id, i);
            relationships := relationships[i := r];
            return;
          }
        }
        relationships := relationships + [r];
    }
  }

  lemma NothingListed()
    ensures UniqueEntities([]) && forall id :: FirstEntity([], id) == None
    ensures UniqueRels([]) && forall id :: FirstRel([], id) == None
  {
  }

  /** Any listing of the entity table: each row once. */
  method ListEntities(rows: map<Id, Entity>) returns (es: seq<Entity>)
    requires forall id :: id in rows ==> rows[id].id == id
    ensures UniqueEntities(es) && forall id :: FirstEntity(es, id) == Lookup(rows, id)
  {
    hide EntitySlot, FirstEntity, UniqueEntities;
    es := [];
    assert UniqueEntities([]) && forall id :: FirstEntity([], id) == None by { NothingListed(); }
    var todo := rows;
    while todo != map[]
      invariant forall id :: id in todo ==> id in rows && todo[id] == rows[id]
      invariant UniqueEntities(es)
      invariant forall id :: FirstEntity(es, id) == if id in rows && id !in todo then Some(rows[id]) else None
      decreases |todo|
    {
      var id :| id in todo;
      SetEntityFinds(es, es + [rows[id]], rows[id]);
      es := es + [rows[id]];
      todo := todo - {id};
    }
  }

  method ListRelationships(rows: map<Id, Relationship>) returns (rs: seq<Relationship>)
    requires forall id :: id in rows ==> rows[id].id == id
    ensures UniqueRels(rs) && forall id :: FirstRel(rs, id) == Lookup(rows, id)
  {
    hide RelSlot, FirstRel, UniqueRels;
    rs := [];
    assert UniqueRels([]) && forall id :: FirstRel([], id) == None by { NothingListed(); }
    var todo := rows;
    while todo != map[]
      invariant forall id :: id in todo ==> id in rows && todo[id] == rows[id]
      invariant UniqueRels(rs)
      invariant forall id :: FirstRel(rs, id) == if id in rows && id !in todo then Some(rows[id]) else None
      decreases |todo|
    {
      var id :| id in todo;
      SetRelFinds(rs, rs + [rows[id]], rows[id]);
      rs := rs + [rows[id]];
      todo := todo - {id};
    }
  }

  /** es lists the entity rows, each once, in some order. */
  ghost predicate ListsEntities(es: seq<Entity>, db: Db) {
    UniqueEntities(es) && forall id :: FirstEntity(es, id) == Lookup(db.entities, id)
  }

  ghost predicate ListsRels(rs: seq<Relationship>, db: Db) {
    UniqueRels(rs) && forall id :: FirstRel(rs, id) == Lookup(db.relationships, id)
  }

  /** The rows read hold the last states of the log, as far as it was written by then. */
  lemma EntitiesHold(db: Db, s: GraphState)
    requires LogIsTruth(db) && ListsEntities(s.entities, db)
    ensures HoldsEntities(s, db.log)
  {
    hide FirstEntity, UniqueEntities, LastEntity, LastRel;
    forall id ensures EntityMatches(FindEntity(s, id), LastEntity(db.log, id)) {
      assert EntityMatches(Lookup(db.entities, id), LastEntity(db.log, id));
    }
  }

  lemma RelsHold(db: Db, s: GraphState)
    requires LogIsTruth(db) && ListsRels(s.relationships, db)
    ensures HoldsRels(s, db.log)
  {
    hide FirstRel, UniqueRels, LastEntity, LastRel;
    forall id ensures RelMatches(FindRel(s, id), LastRel(db.log, id)) {
      assert RelMatches(Lookup(db.relationships, id), LastRel(db.log, id));
    }
  }

  /** Only the entities matter for what a state holds of them. */
  lemma SameEntitiesHold(s: GraphState, s': GraphState, log: seq<Entry>)
    requires HoldsEntities(s, log) && s'.entities == s.entities
    ensures HoldsEntities(s', log)
  {
    hide FirstEntity, UniqueEntities;
    forall id ensures EntityMatches(FindEntity(s', id), LastEntity(log, id)) {
      assert EntityMatches(FindEntity(s, id), LastEntity(log, id));
    }
  }

  /** Several batches, one after the other. */
  function CommitAll(schema: Schema, db: Db, bs: seq<Batch>): Db {
    if bs == [] then db else Committed(schema, CommitAll(schema, db, bs[..|bs| - 1]), bs[|bs| - 1])
  }

  /** A run from nothing is its batches, one after the other. */
  lemma {:induction false} RunIsCommitAll(schema: Schema, bs: seq<Batch>)
    ensures CommitAll(schema, EMPTY, bs) == Run(schema, bs)
  {
    hide Committed;
    if bs != [] {
      RunIsCommitAll(schema, bs[..|bs| - 1]);
    }
  }

  lemma {:induction false} CommitAllExtendsLog(schema: Schema, db: Db, bs: seq<Batch>)
    requires Inv(db)
    ensures Inv(CommitAll(schema, db, bs)) && db.log <= CommitAll(schema, db, bs).log
  {
    hide Inv, Committed;
    if bs != [] {
      var init := CommitAll(schema, db, bs[..|bs| - 1]);
      CommitAllExtendsLog(schema, db, bs[..|bs| - 1]);
      CommitExtends(schema, init, bs[|bs| - 1]);
    }
  }

  lemma CommitExtends(schema: Schema, db: Db, b: Batch)
    requires Inv(db)
    ensures Inv(Committed(schema, db, b)) && db.log <= Committed(schema, db, b).log
  {
    hide Inv, Prefix;
    PrefixKeepsInv(schema, db, b, |b.mutations|);
    PrefixExtendsLog(schema, db, b, |b.mutations|);
  }

  /** What the three reads saw, once they are done. */
  lemma ReadsTaken(before: Db, db1: Db, db2: Db, at: Time, s: GraphState)
    requires Inv(before) && Inv(db1) && Inv(db2) && before.log <= db1.log <= db2.log
    requires ListsEntities(s.entities, db1) && ListsRels(s.relationships, db2)
    ensures var sn := Snapshot(at, CutAt(before.log, at), s);
      && TakenAt(sn, db2.log, |db1.log|, |db2.log|)
      && (Tolerates(db2.log, at, sn.cut, |db1.log|) <==> RestoresAlways(s, sn.cut, db2.log, at))
  {
    hide LogIsTruth, Disciplined, EndpointsExist, KeysAreIds, ListsEntities, ListsRels, HoldsEntities, HoldsRels,
      Tolerates, RestoresAlways, CutAt;
    EntitiesHold(db1, s);
    RelsHold(db2, s);
    CutBounded(before.log, at);
    assert db2.log[..|db1.log|] == db1.log && db2.log[..|db2.log|] == db2.log;
    ToleratedIff(s, db2.log, CutAt(before.log, at), |db1.log|, at);
  }

  class Snapshots {
    const api: Api
    const store: Store
    var table: map<string, Snapshot>

    constructor (api: Api)
      ensures this.api == api && store == api.store && table == map[]
    {
      this.api, store, table := api, api.store, map[];
    }

    /** The largest entry id no later than the instant, 0 if there is none. */
    method FindCut(at: Time) returns (cut: nat)
      ensures cut == CutAt(store.log, at) && IsGreatestId(store.log, at, cut)
    {
      hide IsGreatestId;
      cut := 0;
      for i := 0 to |store.log|
        invariant cut == CutAt(store.log[..i], at)
      {
        assert store.log[..i + 1][..i] == store.log[..i];
        if store.log[i].occurredAt <= at && store.log[i].entryId > cut {
          cut := store.log[i].entryId;
        }
      }
      assert store.log[..|store.log|] == store.log;
      CutIsGreatest(store.log, at);
    }

    /** The batches that other callers commit between two queries. */
    method Meanwhile(bs: seq<Batch>)
      requires api.store == store && Inv(store.State())
      modifies store
      ensures store.State() == CommitAll(api.schema, old(store.State()), bs)
      ensures Inv(store.State()) && old(store.log) <= store.log
    {
      hide Inv, Committed;
      ghost var db := store.State();
      for i := 0 to |bs|
        invariant store.State() == CommitAll(api.schema, db, bs[..i]) && Inv(store.State())
      {
        assert bs[..i + 1][..i] == bs[..i];
        var _ := api.ApplyBatch(bs[i]);
      }
      assert bs[..|bs|] == bs;
      CommitAllExtendsLog(api.schema, db, bs);
    }

    /**
     * Three queries: the cut of the log at snapshotAt, the entities, the relationships; `first` and `second` commit in
     * between. Fails on a reused id. The snapshot always restores correctly exactly when it tolerates what it saw.
     */
    method CreateSnapshot(snapshotId: string, snapshotAt: Time, now: Time, freshId: string, first: seq<Batch>,
                          second: seq<Batch>)
      returns (ok: bool)
      requires api.store == store && Inv(store.State())
      modifies this`table, store
      ensures Inv(store.State())
      ensures var id := if snapshotId == "" then freshId else snapshotId;
              var at := if snapshotAt == 0 then now else snapshotAt;
              var before := old(store.State());
              var between := CommitAll(api.schema, before, first);
              && store.State() == CommitAll(api.schema, between, second)
              && (ok <==> id !in old(table))
              && (!ok ==> table == old(table))
              && (ok ==> id in table && table == old(table)[id := table[id]] && table[id].at == at &&
                         table[id].cut == CutAt(before.log, at) &&
                         TakenAt(table[id], store.log, |between.log|, |store.log|) &&
                         (Tolerates(store.log, at, table[id].cut, |between.log|) <==>
                            RestoresAlways(table[id].state, table[id].cut, store.log, at)))
    {
      hide Inv, Tolerates, RestoresAlways, TakenAt, IsGreatestId, CutAt;
      var id, at := snapshotId, snapshotAt;
      if id == "" {
        id := freshId;
      }
      if at == 0 {
        at := now;
      }
      ghost var before := store.State();
      var cut := FindCut(at);
      Meanwhile(first);
      ghost var between := store.State();
      InvParts(between);
      var es := ListEntities(store.entities);
      Meanwhile(second);
      InvParts(store.State());
      var rs := ListRelationships(store.relationships);
      ReadsTaken(before, between, store.State(), at, GraphState(es, rs));
      if id in table {
        return false;
      }
      table := table[id := Snapshot(at, cut, GraphState(es, rs))];
      ok := true;
    }

    /** The newest snapshot no later than asOf, if any. */
    method NearestSnapshot(asOf: Time) returns (r: Option<Snapshot>)
      ensures r == None <==> forall id :: id in table ==> table[id].at > asOf
      ensures r.Some? ==> r.value in table.Values && r.value.at <= asOf
      ensures r.Some? ==> forall id :: id in table && table[id].at <= asOf ==> table[id].at <= r.value.at
    {
      r := None;
      var todo := table.Keys;
      while todo != {}
        invariant todo <= table.Keys
        invariant r == None <==> forall id :: id in table.Keys - todo ==> table[id].at > asOf
        invariant r.Some? ==> r.value in table.Values && r.value.at <= asOf
        invariant r.Some? ==> forall id :: id in table.Keys - todo && table[id].at <= asOf ==>
            table[id].at <= r.value.at
        decreases |todo|
      {
        var id :| id in todo;
        if table[id].at <= asOf && (r == None || table[id].at > r.value.at) {
          r := Some(table[id]);
        }
        todo := todo - {id};
      }
    }

    /** The base with the entries after the cut and no later than asOf replayed over it. */
    method ReplayLog(base: GraphState, cut: nat, asOf: Time) returns (r: GraphState)
      ensures r == ReplayFrom(base, AfterCut(store.log, cut, asOf))
    {
      hide AfterCut, ReplayFrom, ReplayEntry;
      ReplayNothing(base, cut, asOf);
      var restorer := new Restorer(base);
      for i := 0 to |store.log|
        invariant restorer.State() == ReplayFrom(base, AfterCut(store.log[..i], cut, asOf))
      {
        var e := store.log[i];
        assert store.log[..i + 1] == store.log[..i] + [e];
        AfterCutSnoc(store.log[..i], e, cut, asOf);
        if e.entryId > cut && e.occurredAt <= asOf {
          ReplaySnoc(base, AfterCut(store.log[..i], cut, asOf), e);
          restorer.ReplayOne(e.change);
        }
      }
      assert store.log[..|store.log|] == store.log;
      r := restorer.State();
    }

    /** A snapshot the restore at asOf may pick: none at or before asOf is newer. */
    ghost predicate Newest(sn: Snapshot, asOf: Time)
      reads this
    {
      sn in table.Values && sn.at <= asOf && forall id :: id in table && table[id].at <= asOf ==> table[id].at <= sn.at
    }

    /** Time travel: right for every instant whose newest snapshots were safely taken, whatever the others are. */
    method RestoreGraph(asOf0: Time, now: Time) returns (r: GraphState)
      requires Inv(store.State())
      ensures var asOf := if asOf0 == 0 then now else asOf0;
              (forall sn :: Newest(sn, asOf) ==> SafelyTaken(sn, store.log)) ==>
                IsAsOf(r, store.log, asOf) && IsStateAt(r, store.log, asOf)
      ensures var asOf := if asOf0 == 0 then now else asOf0;
              if exists id :: id in table && table[id].at <= asOf
              then exists sn :: Newest(sn, asOf) && r == ReplayFrom(sn.state, AfterCut(store.log, sn.cut, asOf))
              else r == ReplayFrom(NOTHING, AfterCut(store.log, 0, asOf))
    {
      hide Inv, SafelyTaken, IsAsOf, IsStateAt, AfterCut, ReplayFrom;
      var asOf := asOf0;
      if asOf == 0 {
        asOf := now;
      }
      var nearest := NearestSnapshot(asOf);
      var base, cut := NOTHING, 0;
      if nearest.Some? {
        base, cut := nearest.value.state, nearest.value.cut;
      }
      r := ReplayLog(base, cut, asOf);
      InvParts(store.State());
      if nearest == None {
        NoSnapshotRestores(store.log, asOf);
      } else {
        assert Newest(nearest.value, asOf);
        if SafelyTaken(nearest.value, store.log) {
          SafeSnapshotRestores(nearest.value, store.log, asOf);
        }
      }
      if IsAsOf(r, store.log, asOf) {
        AsOfIsStateAt(r, store.log, asOf);
      }
    }
  }

  lemma ReplayNothing(base: GraphState, cut: nat, asOf: Time)
    ensures ReplayFrom(base, AfterCut([], cut, asOf)) == base
  {
  }

  lemma ReplaySnoc(s: GraphState, log: seq<Entry>, e: Entry)
    ensures ReplayFrom(s, log + [e]) == ReplayEntry(ReplayFrom(s, log), e.change)
  {
    assert (log + [e])[..|log|] == log;
  }

  // ---------------------------------------------------------------- time travel over whole runs

  datatype Event =
    | Commit(batch: Batch)
    | ReadCut(key: string, at: Time)
    | ReadEntities(key: string, entities: seq<Entity>)
    | ReadRels(key: string, relationships: seq<Relationship>)

  /** A snapshot under way, and how many entries were in when it read the entities. */
  datatype Pending = Begun(at: Time, cut: nat) | HalfRead(at: Time, cut: nat, seen: nat, entities: seq<Entity>)

  datatype System = System(db: Db, pending: map<string, Pending>, snapshots: seq<Snapshot>)

  const INITIAL := System(EMPTY, map[], [])

  /** One commit, or one query of a snapshot; the last query stores it. */
  function Next(schema: Schema, s: System, e: Event): System {
    match e
    case Commit(b) => s.(db := Committed(schema, s.db, b))
    case ReadCut(key, at) => s.(pending := s.pending[key := Begun(at, CutAt(s.db.log, at))])
    case ReadEntities(key, es) =>
      if key in s.pending && s.pending[key].Begun? then
        s.(pending := s.pending[key := HalfRead(s.pending[key].at, s.pending[key].cut, |s.db.log|, es)])
      else s
    case ReadRels(key, rs) =>
      if key in s.pending && s.pending[key].HalfRead? then
        var p := s.pending[key];
        System(s.db, s.pending - {key}, s.snapshots + [Snapshot(p.at, p.cut, GraphState(p.entities, rs))])
      else s
  }

  function Play(schema: Schema, events: seq<Event>): System {
    if events == [] then INITIAL else Next(schema, Play(schema, events[..|events| - 1]), events[|events| - 1])
  }

  /**
   * What the three queries of one snapshot leave, with any batches between them: one more snapshot, of their instant
   * and their listings, cut at the largest entry id no later than the instant when the first query ran.
   */
  lemma QueriesTake(schema: Schema, s: System, key: string, at: Time, first: seq<Batch>, es: seq<Entity>,
                    second: seq<Batch>, rs: seq<Relationship>)
    ensures var s1 := Next(schema, s, ReadCut(key, at));
      var s2 := Next(schema, s1.(db := CommitAll(schema, s1.db, first)), ReadEntities(key, es));
      var s3 := Next(schema, s2.(db := CommitAll(schema, s2.db, second)), ReadRels(key, rs));
      && s3.db == CommitAll(schema, CommitAll(schema, s.db, first), second)
      && s3.pending == s.pending - {key}
      && exists cut :: IsGreatestId(s.db.log, at, cut)
           && s3.snapshots == s.snapshots + [Snapshot(at, cut, GraphState(es, rs))]
  {
    hide CommitAll, CutAt, IsGreatestId;
    CutIsGreatest(s.db.log, at);
  }

  /** The listing is faithful, and a snapshot that is finished here tolerates what committed between its reads. */
  ghost predicate ReadsWell(s: System, e: Event) {
    match e
    case Commit(_) => true
    case ReadCut(_, _) => true
    case ReadEntities(_, es) => ListsEntities(es, s.db)
    case ReadRels(key, rs) =>
      && ListsRels(rs, s.db)
      && (key in s.pending && s.pending[key].HalfRead? && s.pending[key].seen <= |s.db.log| ==>
            Tolerates(s.db.log, s.pending[key].at, s.pending[key].cut, s.pending[key].seen))
  }

  ghost predicate TakenWell(schema: Schema, events: seq<Event>) {
    events != [] ==>
      && TakenWell(schema, events[..|events| - 1])
      && ReadsWell(Play(schema, events[..|events| - 1]), events[|events| - 1])
  }

  ghost predicate PendingOk(p: Pending, log: seq<Entry>) {
    match p
    case Begun(_, cut) => cut <= |log|
    case HalfRead(_, cut, seen, es) => cut <= seen <= |log| && HoldsEntities(GraphState(es, []), log[..seen])
  }

  ghost predicate SystemOk(s: System) {
    && Inv(s.db)
    && (forall key :: key in s.pending ==> PendingOk(s.pending[key], s.db.log))
    && (forall i :: 0 <= i < |s.snapshots| ==> SafelyTaken(s.snapshots[i], s.db.log))
  }

  lemma PendingStaysOk(p: Pending, log: seq<Entry>, log': seq<Entry>)
    requires PendingOk(p, log) && log <= log'
    ensures PendingOk(p, log')
  {
    hide HoldsEntities;
    if p.HalfRead? {
      assert log'[..p.seen] == log[..p.seen];
    }
  }

  lemma NextKeepsOk(schema: Schema, s: System, e: Event)
    requires SystemOk(s) && ReadsWell(s, e)
    ensures SystemOk(Next(schema, s, e))
  {
    hide Inv, SafelyTaken, ListsEntities, ListsRels, Tolerates, CutAt, HoldsEntities, HoldsRels;
    InvParts(s.db);
    match e
    case Commit(b) =>
      CommitExtends(schema, s.db, b);
      CommitKeepsTaken(s, Next(schema, s, e));
    case ReadCut(key, at) =>
      CutBounded(s.db.log, at);
    case ReadEntities(key, es) =>
      EntitiesHold(s.db, GraphState(es, []));
      assert s.db.log[..|s.db.log|] == s.db.log;
    case ReadRels(key, rs) =>
      if key in s.pending && s.pending[key].HalfRead? {
        FinishedIsSafe(s, key, rs);
      }
  }

  lemma CommitKeepsTaken(s: System, s': System)
    requires SystemOk(s) && Inv(s'.db) && s.db.log <= s'.db.log
    requires s'.pending == s.pending && s'.snapshots == s.snapshots
    ensures SystemOk(s')
  {
    hide Inv, SafelyTaken, PendingOk;
    var later := s'.db.log[|s.db.log|..];
    assert s'.db.log == s.db.log + later;
    forall i | 0 <= i < |s.snapshots| ensures SafelyTaken(s.snapshots[i], s'.db.log) {
      StaysTaken(s.snapshots[i], s.db.log, later);
    }
    forall key | key in s.pending ensures PendingOk(s.pending[key], s'.db.log) {
      PendingStaysOk(s.pending[key], s.db.log, s'.db.log);
    }
  }

  lemma FinishedIsSafe(s: System, key: string, rs: seq<Relationship>)
    requires Inv(s.db) && key in s.pending && s.pending[key].HalfRead? && PendingOk(s.pending[key], s.db.log)
    requires ReadsWell(s, ReadRels(key, rs))
    ensures var p := s.pending[key];
      SafelyTaken(Snapshot(p.at, p.cut, GraphState(p.entities, rs)), s.db.log)
  {
    hide Inv, ListsRels, Tolerates, HoldsEntities, HoldsRels;
    var p, log := s.pending[key], s.db.log;
    var sn := Snapshot(p.at, p.cut, GraphState(p.entities, rs));
    InvParts(s.db);
    SameEntitiesHold(GraphState(p.entities, []), sn.state, log[..p.seen]);
    RelsHold(s.db, sn.state);
    assert log[..|log|] == log;
    assert TakenAt(sn, log, p.seen, |log|);
  }

  lemma {:induction false} PlayKeepsSafe(schema: Schema, events: seq<Event>)
    requires TakenWell(schema, events)
    ensures SystemOk(Play(schema, events))
  {
    hide Next, ReadsWell;
    if events == [] {
      RunKeepsInv(schema, []);
    } else {
      hide SystemOk;
      PlayKeepsSafe(schema, events[..|events| - 1]);
      NextKeepsOk(schema, Play(schema, events[..|events| - 1]), events[|events| - 1]);
    }
  }

  /**
   * After any run in which batches and the queries of snapshots alternate at will, and every finished snapshot
   * tolerates what committed between its queries, every restore is right, whichever snapshot it starts from.
   */
  lemma TimeTravel(schema: Schema, events: seq<Event>, asOf: Time)
    requires TakenWell(schema, events)
    ensures var s := Play(schema, events);
            && IsStateAt(ReplayFrom(NOTHING, AfterCut(s.db.log, 0, asOf)), s.db.log, asOf)
            && forall i :: 0 <= i < |s.snapshots| && s.snapshots[i].at <= asOf ==>
                 IsStateAt(ReplayFrom(s.snapshots[i].state, AfterCut(s.db.log, s.snapshots[i].cut, asOf)), s.db.log,
                   asOf)
  {
    hide SafelyTaken, IsAsOf, IsStateAt, Play, TakenWell, Disciplined, LogIsTruth, ReplayFrom, AfterCut;
    PlayKeepsSafe(schema, events);
    var s := Play(schema, events);
    InvParts(s.db);
    NoSnapshotRestores(s.db.log, asOf);
    AsOfIsStateAt(ReplayFrom(NOTHING, AfterCut(s.db.log, 0, asOf)), s.db.log, asOf);
    forall i | 0 <= i < |s.snapshots| && s.snapshots[i].at <= asOf
      ensures IsStateAt(ReplayFrom(s.snapshots[i].state, AfterCut(s.db.log, s.snapshots[i].cut, asOf)), s.db.log, asOf)
    {
      SafeSnapshotRestores(s.snapshots[i], s.db.log, asOf);
      AsOfIsStateAt(ReplayFrom(s.snapshots[i].state, AfterCut(s.db.log, s.snapshots[i].cut, asOf)), s.db.log, asOf);
    }
  }

  // ---------------------------------------------------------------- two runs that go wrong

  /** The row a first upsert stores. */
  function FirstRow(schema: Schema, e: Entity): Entity {
    var row := EntityRow(schema, e);
    row.(version := if row.version == 0 then 1 else row.version)
  }

  lemma FirstCommit(schema: Schema, e: Entity, txn: string, clock: nat -> Tick)
    requires schema.entityOk(e)
    ensures var row := FirstRow(schema, e);
      Committed(schema, EMPTY, Batch(txn, [UpsertEntity(Some(e))], clock))
      == Db(map[row.id := row], map[], [Entry(1, txn, clock(0).log, EntityChange(Created, row.id, None, row))])
  {
    var b := Batch(txn, [UpsertEntity(Some(e))], clock);
    assert Prefix(schema, EMPTY, b, 0) == Going(EMPTY, []);
    assert Prefix(schema, EMPTY, b, 1).Going?;
  }

  /** One entry past the cut is replayed over a base that already has it. */
  lemma ReplayedTwice(row: Entity, entry: Entry, asOf: Time)
    requires entry.change == EntityChange(Created, row.id, None, row) && entry.entryId == 1 && entry.occurredAt <= asOf
    ensures ReplayFrom(GraphState([row], []), AfterCut([entry], 0, asOf)) == GraphState([row, row], [])
  {
    hide ReplayFrom;
    OneEntryAfter(entry, asOf);
    OneEntryReplayed(GraphState([row], []), entry);
    assert [row] + [row] == [row, row];
  }

  lemma NoEntryYet(entry: Entry, at: Time)
    ensures CutAt([], at) == 0
    ensures at < entry.occurredAt ==> CutAt([entry], at) == 0
  {
    assert [entry][..0] == [];
  }

  lemma OneEntryReplayed(base: GraphState, entry: Entry)
    ensures ReplayFrom(base, [entry]) == ReplayEntry(base, entry.change)
  {
    assert [entry][..0] == [];
  }

  lemma OneEntryAfter(entry: Entry, asOf: Time)
    requires entry.entryId == 1 && entry.occurredAt <= asOf
    ensures AfterCut([entry], 0, asOf) == [entry]
  {
    assert [] + [entry] == [entry];
    AfterCutSnoc([], entry, 0, asOf);
  }

  lemma OneRowListed(row: Entity, db: Db)
    requires db.entities == map[row.id := row] && db.relationships == map[]
    ensures ListsEntities([row], db) && ListsRels([], db)
  {
    forall id ensures FirstEntity([row], id) == Lookup(db.entities, id) {
      if id == row.id {
        EntitySlotUnique([row], id, 0);
      }
    }
  }

  lemma TwiceIsNotAsOf(row: Entity, log: seq<Entry>, asOf: Time)
    ensures !IsAsOf(GraphState([row, row], []), log, asOf)
  {
    hide FindEntity, FindRel, AsOf;
    var es := [row, row];
    assert es[0].id == es[1].id;
  }

  /** The snapshot of a run holds the only row while its cut precedes that row's creation. */
  ghost predicate HoldsTwice(s: System, row: Entity, asOf: Time) {
    && ListsEntities([row], s.db) && ListsRels([], s.db) && |s.snapshots| == 1
    && var r := ReplayFrom(s.snapshots[0].state, AfterCut(s.db.log, s.snapshots[0].cut, asOf));
       r.entities == [row, row] && !IsAsOf(r, s.db.log, asOf)
  }

  lemma CutTooEarly(s: System, row: Entity, entry: Entry, at: Time, asOf: Time)
    requires s.db == Db(map[row.id := row], map[], [entry])
    requires s.snapshots == [Snapshot(at, 0, GraphState([row], []))]
    requires entry.change == EntityChange(Created, row.id, None, row) && entry.entryId == 1 && entry.occurredAt <= asOf
    ensures HoldsTwice(s, row, asOf)
  {
    hide AfterCut, ReplayFrom, IsAsOf, ListsEntities, ListsRels;
    OneRowListed(row, s.db);
    ReplayedTwice(row, entry, asOf);
    TwiceIsNotAsOf(row, s.db.log, asOf);
  }

  lemma PlayFour(schema: Schema, a: Event, b: Event, c: Event, d: Event)
    ensures Play(schema, [a, b, c, d])
         == Next(schema, Next(schema, Next(schema, Next(schema, INITIAL, a), b), c), d)
  {
    hide Next;
    assert [a, b, c, d][..3] == [a, b, c] && [a, b, c][..2] == [a, b] && [a, b][..1] == [a] && [a][..0] == [];
    assert Play(schema, []) == INITIAL;
    assert Play(schema, [a]) == Next(schema, INITIAL, a);
    assert Play(schema, [a, b]) == Next(schema, Next(schema, INITIAL, a), b);
    assert Play(schema, [a, b, c]) == Next(schema, Next(schema, Next(schema, INITIAL, a), b), c);
  }

  /**
   * From the empty store: create an entity, then take a snapshot of the rows dated before that creation. Restoring
   * at any instant from the creation on yields the entity twice.
   */
  lemma EarlySnapshotRun(schema: Schema, e: Entity, txn: string, clock: nat -> Tick, at: Time, asOf: Time)
    requires schema.entityOk(e) && at < clock(0).log <= asOf
    ensures var row, b := FirstRow(schema, e), Batch(txn, [UpsertEntity(Some(e))], clock);
      HoldsTwice(Play(schema, [Commit(b), ReadCut("s", at), ReadEntities("s", [row]), ReadRels("s", [])]), row, asOf)
  {
    var row, b := FirstRow(schema, e), Batch(txn, [UpsertEntity(Some(e))], clock);
    FirstCommit(schema, e, txn, clock);
    hide FirstRow, Committed, CutAt, HoldsTwice;
    PlayFour(schema, Commit(b), ReadCut("s", at), ReadEntities("s", [row]), ReadRels("s", []));
    var s := Play(schema, [Commit(b), ReadCut("s", at), ReadEntities("s", [row]), ReadRels("s", [])]);
    NoEntryYet(s.db.log[0], at);
    assert s.db.log == [s.db.log[0]];
    CutTooEarly(s, row, s.db.log[0], at, asOf);
  }

  /**
   * From the empty store: a snapshot reads its cut, then an entity is created, then the snapshot reads the rows.
   * Whatever its instant, restoring at any instant from the creation on yields the entity twice.
   */
  lemma TornSnapshotRun(schema: Schema, e: Entity, txn: string, clock: nat -> Tick, at: Time, asOf: Time)
    requires schema.entityOk(e) && clock(0).log <= asOf
    ensures var row, b := FirstRow(schema, e), Batch(txn, [UpsertEntity(Some(e))], clock);
      HoldsTwice(Play(schema, [ReadCut("s", at), Commit(b), ReadEntities("s", [row]), ReadRels("s", [])]), row, asOf)
  {
    var row, b := FirstRow(schema, e), Batch(txn, [UpsertEntity(Some(e))], clock);
    FirstCommit(schema, e, txn, clock);
    hide FirstRow, Committed, CutAt, HoldsTwice;
    PlayFour(schema, ReadCut("s", at), Commit(b), ReadEntities("s", [row]), ReadRels("s", []));
    var s := Play(schema, [ReadCut("s", at), Commit(b), ReadEntities("s", [row]), ReadRels("s", [])]);
    NoEntryYet(s.db.log[0], at);
    assert s.db.log == [s.db.log[0]];
    CutTooEarly(s, row, s.db.log[0], at, asOf);
  }
}
