/** What the delta promises: it applies without conflict, settles the batch, and converges. */
module DeltaLaws {
  import opened Wrappers
  import opened Records
  import opened EventStore
  import opened DeltaCompute

  // ---------------------------------------------------------------- knowing the store

  ghost predicate Shared(db: Db, nss: set<string>, r: NifRelationship) {
    SharedEnds(db, nss, r.fromId, r.toId)
  }

  /** Both ends stored, in one namespace, and that namespace among the given ones. */
  ghost predicate SharedEnds(db: Db, nss: set<string>, from: Id, to: Id) {
    && from in db.entities && to in db.entities
    && db.entities[from].namespace == db.entities[to].namespace && db.entities[from].namespace in nss
  }

  /** Everything known is so in the store, and known for the right reason. */
  ghost predicate Sound(db: Db, nss: set<string>, knownE: map<Id, Entity>, knownR: map<Id, Relationship>) {
    && (forall id :: id in knownE ==> id in db.entities && knownE[id] == db.entities[id])
    && (forall id :: id in knownR ==>
          id in db.relationships && knownR[id] == db.relationships[id] &&
          SharedEnds(db, nss, knownR[id].fromId, knownR[id].toId))
  }

  ghost predicate RelVisible(db: Db, nss: set<string>, id: Id) {
    && id in db.relationships && db.relationships[id].isActive
    && SharedEnds(db, nss, db.relationships[id].fromId, db.relationships[id].toId)
  }

  ghost predicate Complete(db: Db, nss: set<string>, knownE: map<Id, Entity>, knownR: map<Id, Relationship>) {
    && (forall id :: id in db.entities && db.entities[id].isActive && db.entities[id].namespace in nss ==> id in knownE)
    && (forall id :: RelVisible(db, nss, id) ==> id in knownR)
  }

  /** Faithful listings make the gathered rows sound, and complete when no namespace is over its caps. */
  lemma FetchesTellTheStore(db: Db, nss: set<string>, fetch: string -> Fetch, knownE: map<Id, Entity>,
                            knownR: map<Id, Relationship>)
    requires KeysAreIds(db) && ListsStore(db, nss, fetch)
    requires GatheredEntities(fetch, nss, knownE) && GatheredRels(fetch, nss, knownR)
    ensures Sound(db, nss, knownE, knownR)
    ensures UnderCaps(db, nss) ==> Complete(db, nss, knownE, knownR)
  {
    forall id | id in knownE ensures id in db.entities && knownE[id] == db.entities[id] {
      var ns :| ns in nss && EntityFrom(fetch(ns), knownE[id]);
    }
    forall id | id in knownR
      ensures id in db.relationships && knownR[id] == db.relationships[id]
      ensures SharedEnds(db, nss, knownR[id].fromId, knownR[id].toId)
    {
      var ns :| ns in nss && RelFrom(fetch(ns), knownR[id]);
      assert RelListed(db, ns, id);
    }
    if UnderCaps(db, nss) {
      forall id | id in db.entities && db.entities[id].isActive && db.entities[id].namespace in nss
        ensures id in knownE
      {
        var ns := db.entities[id].namespace;
        assert id in EntitiesIn(db, ns);
        assert EntityFrom(fetch(ns), db.entities[id]);
      }
      forall id | RelVisible(db, nss, id) ensures id in knownR {
        var ns := db.entities[db.relationships[id].fromId].namespace;
        assert id in RelsIn(db, ns);
        assert RelFrom(fetch(ns), db.relationships[id]);
      }
    }
  }

  // ---------------------------------------------------------------- applying the delta

  ghost predicate ValidEntity(schema: Schema, env: Env, e: NifEntity) {
    e.id != "" && e.namespace != "" && forall v :: schema.entityOk(MapEntity(env, e).(version := v))
  }

  ghost predicate ValidRel(schema: Schema, env: Env, r: NifRelationship) {
    r.id != "" && forall v :: schema.relOk(MapRel(env, r).(version := v))
  }

  /** Schema-valid, with no id twice. */
  ghost predicate ValidBatch(schema: Schema, env: Env, es: seq<NifEntity>, rs: seq<NifRelationship>) {
    && (forall i :: 0 <= i < |es| ==> ValidEntity(schema, env, es[i]))
    && (forall i :: 0 <= i < |rs| ==> ValidRel(schema, env, rs[i]))
    && (forall i, k :: 0 <= i < k < |es| ==> es[i].id != es[k].id)
    && (forall i, k :: 0 <= i < k < |rs| ==> rs[i].id != rs[k].id)
  }

  ghost predicate InBatch(es: seq<NifEntity>, id: Id) {
    exists i :: 0 <= i < |es| && es[i].id == id
  }

  ghost predicate RelInBatch(rs: seq<NifRelationship>, id: Id) {
    exists i :: 0 <= i < |rs| && rs[i].id == id
  }

  /** The store holds this entity as the batch has it. */
  ghost predicate EntitySettled(env: Env, db: Db, e: NifEntity) {
    e.id in db.entities && !EntityChanged(db.entities[e.id], MapEntity(env, e))
  }

  ghost predicate RelSettled(env: Env, db: Db, r: NifRelationship) {
    r.id in db.relationships && !RelChanged(db.relationships[r.id], MapRel(env, r))
  }

  /** An emitted entity is stored with exactly its mapped properties, a new one exactly as mapped; the rest stay. */
  ghost predicate EntityWritten(env: Env, known: map<Id, Entity>, db: Db, db': Db, e: NifEntity) {
    && EntitySettled(env, db', e)
    && (if EntityMutation(env, known, e) == [] then Lookup(db'.entities, e.id) == Lookup(db.entities, e.id)
        else db'.entities[e.id].properties == MapEntity(env, e).properties)
    && (e.id !in db.entities ==> db'.entities[e.id] == MapEntity(env, e).(version := 1))
  }

  ghost predicate EntitiesApplied(env: Env, known: map<Id, Entity>, db: Db, db': Db, es: seq<NifEntity>) {
    && db'.relationships == db.relationships
    && (forall id :: !InBatch(es, id) ==> Lookup(db'.entities, id) == Lookup(db.entities, id))
    && (forall i :: 0 <= i < |es| ==> EntityWritten(env, known, db, db', es[i]))
  }

  /** An emitted relationship is stored with exactly its mapped properties; one not emitted is left alone. */
  ghost predicate RelWritten(env: Env, known: map<Id, Relationship>, db: Db, db': Db, r: NifRelationship) {
    && RelSettled(env, db', r)
    && (if RelMutation(env, known, r) == [] then Lookup(db'.relationships, r.id) == Lookup(db.relationships, r.id)
        else db'.relationships[r.id].properties == MapRel(env, r).properties)
    && (r.id !in db.relationships ==> db'.relationships[r.id] == MapRel(env, r).(version := 1))
  }

  ghost predicate RelsApplied(env: Env, known: map<Id, Relationship>, db: Db, db': Db, rs: seq<NifRelationship>) {
    && db'.entities == db.entities
    && (forall id :: !RelInBatch(rs, id) ==> Lookup(db'.relationships, id) == Lookup(db.relationships, id))
    && (forall i :: 0 <= i < |rs| ==> RelWritten(env, known, db, db', rs[i]))
  }

  ghost predicate EndsStored(db: Db, r: NifRelationship) {
    r.fromId in db.entities && r.toId in db.entities
  }

  /** Equal for the store is unchanged for the pipeline. */
  lemma SamePropertiesMatch(a: Properties)
    ensures PropertiesMatch(a, a)
  {
  }

  lemma ApplyEntity(schema: Schema, env: Env, db: Db, txn: string, tick: Tick, e: NifEntity, v: int)
    requires ValidEntity(schema, env, e)
    requires e.id in db.entities ==> v == 0 || v == db.entities[e.id].version
    ensures var s := ApplyOne(schema, db, txn, UpsertEntity(Some(MapEntity(env, e).(version := v))), tick);
      && s.Done? && EntitySettled(env, s.db, e) && s.db.relationships == db.relationships
      && s.db.entities[e.id].properties == MapEntity(env, e).properties
      && (e.id !in db.entities && v == 0 ==> s.db.entities[e.id] == MapEntity(env, e).(version := 1))
      && forall id :: id != e.id ==> Lookup(s.db.entities, id) == Lookup(db.entities, id)
  {
    hide EntityProperties, PropertiesMatch;
    var z := MapEntity(env, e).(version := v);
    assert schema.entityOk(z);
    SamePropertiesMatch(z.properties);
  }

  lemma ApplyRel(schema: Schema, env: Env, db: Db, txn: string, tick: Tick, r: NifRelationship, v: int)
    requires ValidRel(schema, env, r)
    requires r.id in db.relationships ==> v == 0 || v == db.relationships[r.id].version
    ensures var s := ApplyOne(schema, db, txn, UpsertRelationship(Some(MapRel(env, r).(version := v))), tick);
      && (s.Done? <==> EndsStored(db, r))
      && (s.Done? ==> RelSettled(env, s.db, r) && s.db.entities == db.entities)
      && (s.Done? ==> s.db.relationships[r.id].properties == MapRel(env, r).properties)
      && (s.Done? && r.id !in db.relationships && v == 0 ==>
            s.db.relationships[r.id] == MapRel(env, r).(version := 1))
      && (s.Done? ==> forall id :: id != r.id ==> Lookup(s.db.relationships, id) == Lookup(db.relationships, id))
  {
    hide SourceProperties, PropertiesMatch, RelKind;
    var z := MapRel(env, r).(version := v);
    assert schema.relOk(z);
    SamePropertiesMatch(z.properties);
  }

  lemma GoesOn(schema: Schema, db: Db, b: Batch, k: nat)
    requires k < |b.mutations| && Prefix(schema, db, b, k).Going?
    ensures var s := ApplyOne(schema, Prefix(schema, db, b, k).db, b.txn, b.mutations[k], b.clock(k));
      var p := Prefix(schema, db, b, k + 1);
      (p.Going? <==> s.Done?) && (s.Done? ==> p.db == s.db)
  {
    hide ApplyOne;
  }

  /** The entity half applies without a conflict and settles every entity of the batch, touching no other row. */
  lemma {:induction false} EntityHalf(schema: Schema, env: Env, db: Db, b: Batch, known: map<Id, Entity>,
                                      es: seq<NifEntity>)
    requires ValidBatch(schema, env, es, [])
    requires forall id :: id in known ==> id in db.entities && known[id] == db.entities[id]
    requires EntityDelta(env, known, es) <= b.mutations
    ensures var p := Prefix(schema, db, b, |EntityDelta(env, known, es)|);
      p.Going? && EntitiesApplied(env, known, db, p.db, es)
  {
    hide ApplyOne, EntitySettled, MapEntity, ValidEntity, EntitiesApplied, Prefix;
    EmptyBatchApplied(schema, env, known, db, b);
    if es != [] {
      var init, e := es[..|es| - 1], es[|es| - 1];
      var k := |EntityDelta(env, known, init)|;
      EntityHalf(schema, env, db, b, known, init);
      var db1 := Prefix(schema, db, b, k).db;
      assert !InBatch(init, e.id);
      OthersUntouched(env, db, db1, init, e, known);
      if EntityMutation(env, known, e) == [] {
        OneMoreEntity(env, known, db, db1, db1, init, e);
      } else {
        var v := if e.id in known then known[e.id].version else 0;
        MappedVersion(env, e);
        assert b.mutations[k] == UpsertEntity(Some(MapEntity(env, e).(version := v)));
        ApplyEntity(schema, env, db1, b.txn, b.clock(k), e, v);
        GoesOn(schema, db, b, k);
        var db2 := ApplyOne(schema, db1, b.txn, b.mutations[k], b.clock(k)).db;
        OneMoreEntity(env, known, db, db1, db2, init, e);
      }
      assert init + [e] == es;
    }
  }

  lemma MappedVersion(env: Env, e: NifEntity)
    ensures MapEntity(env, e).(version := 0) == MapEntity(env, e)
  {
  }

  lemma EmptyBatchApplied(schema: Schema, env: Env, known: map<Id, Entity>, db: Db, b: Batch)
    ensures Prefix(schema, db, b, 0).Going? && EntitiesApplied(env, known, db, Prefix(schema, db, b, 0).db, [])
  {
  }

  /** An entity whose turn has not come is as it was; if known and unchanged, it is settled already. */
  lemma OthersUntouched(env: Env, db: Db, db1: Db, init: seq<NifEntity>, e: NifEntity, known: map<Id, Entity>)
    requires EntitiesApplied(env, known, db, db1, init) && !InBatch(init, e.id)
    requires forall id :: id in known ==> id in db.entities && known[id] == db.entities[id]
    ensures Lookup(db1.entities, e.id) == Lookup(db.entities, e.id)
    ensures EntityMutation(env, known, e) == [] ==> EntityWritten(env, known, db, db1, e)
  {
    hide EntityChanged, MapEntity;
    assert Lookup(db1.entities, e.id) == Lookup(db.entities, e.id);
  }

  lemma InBatchSnoc(init: seq<NifEntity>, e: NifEntity, id: Id)
    ensures InBatch(init + [e], id) <==> InBatch(init, id) || e.id == id
  {
    var all := init + [e];
    if InBatch(init, id) {
      var i :| 0 <= i < |init| && init[i].id == id;
      assert all[i].id == id;
    }
    assert all[|init|] == e;
  }

  lemma OneMoreEntity(env: Env, known: map<Id, Entity>, db: Db, db1: Db, db2: Db, init: seq<NifEntity>, e: NifEntity)
    requires EntitiesApplied(env, known, db, db1, init) && !InBatch(init, e.id)
    requires EntityWritten(env, known, db, db2, e) && db2.relationships == db1.relationships
    requires forall id :: id != e.id ==> Lookup(db2.entities, id) == Lookup(db1.entities, id)
    ensures EntitiesApplied(env, known, db, db2, init + [e])
  {
    hide EntityChanged, EntityMutation, MapEntity;
    var es := init + [e];
    forall id | !InBatch(es, id) ensures Lookup(db2.entities, id) == Lookup(db.entities, id) {
      InBatchSnoc(init, e, id);
    }
    forall i | 0 <= i < |es| ensures EntityWritten(env, known, db, db2, es[i]) {
      if i < |init| {
        assert EntityWritten(env, known, db, db1, init[i]);
        assert InBatch(init, init[i].id);
        assert Lookup(db2.entities, init[i].id) == Lookup(db1.entities, init[i].id);
      }
    }
  }

  /** The relationship half goes through exactly when every end is stored by then. */
  lemma {:induction false} RelHalf(schema: Schema, env: Env, db: Db, base: Db, b: Batch, k0: nat,
                                   known: map<Id, Relationship>, rs: seq<NifRelationship>)
    requires ValidBatch(schema, env, [], rs) && EndpointsExist(base)
    requires forall id :: id in known ==> id in base.relationships && known[id] == base.relationships[id]
    requires k0 + |RelDelta(env, known, rs)| <= |b.mutations|
    requires RelDelta(env, known, rs) <= b.mutations[k0..]
    requires Prefix(schema, db, b, k0).Going? && Prefix(schema, db, b, k0).db == base
    ensures var p := Prefix(schema, db, b, k0 + |RelDelta(env, known, rs)|);
      && (p.Going? <==> forall i :: 0 <= i < |rs| ==> EndsStored(base, rs[i]))
      && (p.Going? ==> RelsApplied(env, known, base, p.db, rs))
  {
    hide ApplyOne, MapRel, ValidRel, ValidBatch, EndpointsExist, EndsStored, RelsApplied, RelMutation, RelDelta, Prefix,
      RelInBatch;
    NoRelsApplied(env, known, base);
    if rs == [] {
      NoRelsNoDelta(env, known);
    } else {
      var init, r := rs[..|rs| - 1], rs[|rs| - 1];
      var k := k0 + |RelDelta(env, known, init)|;
      assert rs == init + [r];
      LastOfBatch(schema, env, init, r);
      LastOfDelta(env, known, b.mutations, k0, init, r);
      RelHalf(schema, env, db, base, b, k0, known, init);
      AllStoredSnoc(base, init, r);
      RelHalfStep(schema, env, db, base, b, k, known, init, r);
    }
  }

  lemma NoRelsNoDelta(env: Env, known: map<Id, Relationship>)
    ensures RelDelta(env, known, []) == []
  {
  }

  /** Without its last relationship a batch is as valid, and the last one's id is new. */
  lemma LastOfBatch(schema: Schema, env: Env, init: seq<NifRelationship>, r: NifRelationship)
    requires ValidBatch(schema, env, [], init + [r])
    ensures ValidBatch(schema, env, [], init) && ValidRel(schema, env, r) && !RelInBatch(init, r.id)
  {
    hide ValidRel;
    var rs := init + [r];
    assert rs[|init|] == r && forall i :: 0 <= i < |init| ==> init[i] == rs[i];
  }

  /** The mutation of the last relationship, if any, comes right after the others. */
  lemma LastOfDelta(env: Env, known: map<Id, Relationship>, ms: seq<Mutation>, k0: nat, init: seq<NifRelationship>,
                    r: NifRelationship)
    requires k0 + |RelDelta(env, known, init + [r])| <= |ms| && RelDelta(env, known, init + [r]) <= ms[k0..]
    ensures |RelDelta(env, known, init + [r])| == |RelDelta(env, known, init)| + |RelMutation(env, known, r)|
    ensures RelDelta(env, known, init) <= ms[k0..]
    ensures RelMutation(env, known, r) != [] ==>
        ms[k0 + |RelDelta(env, known, init)|] == RelMutation(env, known, r)[0]
  {
    hide RelMutation;
    OneAtMost(env, known, r);
    assert (init + [r])[..|init|] == init;
    assert RelDelta(env, known, init + [r]) == RelDelta(env, known, init) + RelMutation(env, known, r);
  }

  /** From one relationship to the next within the transaction. */
  lemma RelHalfStep(schema: Schema, env: Env, db: Db, base: Db, b: Batch, k: nat, known: map<Id, Relationship>,
                    init: seq<NifRelationship>, r: NifRelationship)
    requires ValidRel(schema, env, r) && EndpointsExist(base) && !RelInBatch(init, r.id)
    requires forall id :: id in known ==> id in base.relationships && known[id] == base.relationships[id]
    requires k + |RelMutation(env, known, r)| <= |b.mutations|
    requires RelMutation(env, known, r) != [] ==> b.mutations[k] == RelMutation(env, known, r)[0]
    requires Prefix(schema, db, b, k).Going? ==> RelsApplied(env, known, base, Prefix(schema, db, b, k).db, init)
    ensures var p, q := Prefix(schema, db, b, k), Prefix(schema, db, b, k + |RelMutation(env, known, r)|);
      && (q.Going? <==> p.Going? && EndsStored(base, r))
      && (q.Going? ==> RelsApplied(env, known, base, q.db, init + [r]))
  {
    hide ApplyOne, MapRel, ValidRel, EndpointsExist, EndsStored, RelsApplied, RelMutation, Prefix, RelInBatch;
    OneAtMost(env, known, r);
    var p := Prefix(schema, db, b, k);
    if p.Going? {
      RelStep(schema, env, base, p.db, b, k, known, init, r);
      if RelMutation(env, known, r) != [] {
        GoesOn(schema, db, b, k);
      }
    } else {
      StoppedStays(schema, db, b, k, k + |RelMutation(env, known, r)|);
      if RelMutation(env, known, r) == [] {
        assert k + |RelMutation(env, known, r)| == k;
      }
    }
  }

  lemma NoRelsApplied(env: Env, known: map<Id, Relationship>, db: Db)
    ensures RelsApplied(env, known, db, db, [])
  {
  }

  lemma AllStoredSnoc(db: Db, init: seq<NifRelationship>, r: NifRelationship)
    ensures (forall i :: 0 <= i < |init + [r]| ==> EndsStored(db, (init + [r])[i]))
       <==> (forall i :: 0 <= i < |init| ==> EndsStored(db, init[i])) && EndsStored(db, r)
  {
    hide EndsStored;
    var all := init + [r];
    assert all[|init|] == r;
    assert forall i :: 0 <= i < |init| ==> all[i] == init[i];
    if forall i :: 0 <= i < |all| ==> EndsStored(db, all[i]) {
      assert forall i :: 0 <= i < |init| ==> EndsStored(db, all[i]) && all[i] == init[i];
    }
  }

  lemma OneAtMost(env: Env, known: map<Id, Relationship>, r: NifRelationship)
    ensures |RelMutation(env, known, r)| <= 1
  {
  }

  /** One relationship: skipped when known and unchanged, else upserted. */
  lemma RelStep(schema: Schema, env: Env, base: Db, db1: Db, b: Batch, k: nat, known: map<Id, Relationship>,
                init: seq<NifRelationship>, r: NifRelationship)
    requires ValidRel(schema, env, r) && EndpointsExist(base) && !RelInBatch(init, r.id)
    requires forall id :: id in known ==> id in base.relationships && known[id] == base.relationships[id]
    requires RelsApplied(env, known, base, db1, init)
    requires RelMutation(env, known, r) != [] ==> k < |b.mutations| && b.mutations[k] == RelMutation(env, known, r)[0]
    ensures RelMutation(env, known, r) == [] ==> EndsStored(base, r) && RelsApplied(env, known, base, db1, init + [r])
    ensures RelMutation(env, known, r) != [] ==>
      var s := ApplyOne(schema, db1, b.txn, b.mutations[k], b.clock(k));
      (s.Done? <==> EndsStored(base, r)) && (s.Done? ==> RelsApplied(env, known, base, s.db, init + [r]))
  {
    hide ApplyOne, ValidRel, PropertiesMatch, SourceProperties, RelKind;
    assert Lookup(db1.relationships, r.id) == Lookup(base.relationships, r.id);
    if RelMutation(env, known, r) == [] {
      OneMoreRel(env, known, base, db1, db1, init, r);
    } else {
      var v := if r.id in known then known[r.id].version else 0;
      assert b.mutations[k] == UpsertRelationship(Some(MapRel(env, r).(version := v)));
      ApplyRel(schema, env, db1, b.txn, b.clock(k), r, v);
      var s := ApplyOne(schema, db1, b.txn, b.mutations[k], b.clock(k));
      if s.Done? {
        OneMoreRel(env, known, base, db1, s.db, init, r);
      }
    }
  }

  lemma RelInBatchSnoc(init: seq<NifRelationship>, r: NifRelationship, id: Id)
    ensures RelInBatch(init + [r], id) <==> RelInBatch(init, id) || r.id == id
  {
    var all := init + [r];
    if RelInBatch(init, id) {
      var i :| 0 <= i < |init| && init[i].id == id;
      assert all[i].id == id;
    }
    assert all[|init|] == r;
  }

  lemma OneMoreRel(env: Env, known: map<Id, Relationship>, db: Db, db1: Db, db2: Db, init: seq<NifRelationship>,
                   r: NifRelationship)
    requires RelsApplied(env, known, db, db1, init) && !RelInBatch(init, r.id)
    requires RelWritten(env, known, db, db2, r) && db2.entities == db1.entities
    requires forall id :: id != r.id ==> Lookup(db2.relationships, id) == Lookup(db1.relationships, id)
    ensures RelsApplied(env, known, db, db2, init + [r])
  {
    hide RelChanged, MapRel;
    var rs := init + [r];
    forall id | !RelInBatch(rs, id) ensures Lookup(db2.relationships, id) == Lookup(db.relationships, id) {
      RelInBatchSnoc(init, r, id);
    }
    forall i | 0 <= i < |rs| ensures RelWritten(env, known, db, db2, rs[i]) {
      if i < |init| {
        assert RelWritten(env, known, db, db1, init[i]);
        assert RelInBatch(init, init[i].id);
        assert Lookup(db2.relationships, init[i].id) == Lookup(db1.relationships, init[i].id);
      }
    }
  }

  /** The whole batch is in the store, and every row outside it is as before. */
  ghost predicate BatchApplied(env: Env, knownR: map<Id, Relationship>, db: Db, db': Db, es: seq<NifEntity>,
                               rs: seq<NifRelationship>) {
    && (forall i :: 0 <= i < |es| ==> EntitySettled(env, db', es[i]))
    && (forall i :: 0 <= i < |rs| ==> RelWritten(env, knownR, db, db', rs[i]))
    && (forall id :: !InBatch(es, id) ==> Lookup(db'.entities, id) == Lookup(db.entities, id))
    && (forall id :: !RelInBatch(rs, id) ==> Lookup(db'.relationships, id) == Lookup(db.relationships, id))
  }

  /**
   * In the batch's own fields: the stored row is up to date; with exactly the batch's properties if it was emitted, the
   * row of before if not; and a new row starts at version 1 from the time of observation.
   */
  ghost predicate EntityCommitted(env: Env, known: map<Id, Entity>, db: Db, db': Db, e: NifEntity) {
    && e.id in db'.entities && EntityUpToDate(env, e, db'.entities[e.id])
    && (if e.id in known && EntityUpToDate(env, e, known[e.id])
        then Lookup(db'.entities, e.id) == Lookup(db.entities, e.id)
        else EntityProps(env, e, db'.entities[e.id].properties))
    && (e.id !in db.entities ==>
          var row := db'.entities[e.id];
          row.id == e.id && row.version == 1 && row.validFrom == ObservedFrom(env, e.source) && row.validTo == None)
  }

  ghost predicate RelCommitted(env: Env, known: map<Id, Relationship>, db: Db, db': Db, r: NifRelationship) {
    && r.id in db'.relationships && RelUpToDate(env, r, db'.relationships[r.id])
    && (if r.id in known && RelUpToDate(env, r, known[r.id])
        then Lookup(db'.relationships, r.id) == Lookup(db.relationships, r.id)
        else RelProps(env, r, db'.relationships[r.id].properties))
    && (r.id !in db.relationships ==>
          var row := db'.relationships[r.id];
          row.id == r.id && row.version == 1 && row.validFrom == ObservedFrom(env, r.source) && row.validTo == None)
  }

  lemma EntityInBatchTerms(env: Env, known: map<Id, Entity>, db: Db, db': Db, e: NifEntity)
    requires EntityWritten(env, known, db, db', e)
    ensures EntityCommitted(env, known, db, db', e)
  {
    hide EntityProperties, EntityProps, PropertiesMatch, SameButTiming, EntityMutation;
    EntityMutationIs(env, known, e);
    MappedEntityProps(env, e);
    MappedCarryTimingE(env, e);
    MatchIsSameButTiming(db'.entities[e.id].properties, MapEntity(env, e).properties);
  }

  lemma RelInBatchTerms(env: Env, known: map<Id, Relationship>, db: Db, db': Db, r: NifRelationship)
    requires RelWritten(env, known, db, db', r)
    ensures RelCommitted(env, known, db, db', r)
  {
    hide SourceProperties, RelProps, PropertiesMatch, SameButTiming, RelMutation;
    RelMutationIs(env, known, r);
    MappedRelProps(env, r);
    MappedCarryTimingR(env, r);
    MatchIsSameButTiming(db'.relationships[r.id].properties, MapRel(env, r).properties);
  }

  ghost predicate EndsKnown(db: Db, es: seq<NifEntity>, r: NifRelationship) {
    (r.fromId in db.entities || InBatch(es, r.fromId)) && (r.toId in db.entities || InBatch(es, r.toId))
  }

  /**
   * For a schema-valid batch without repeated ids, the emitted mutations commit exactly when every relationship
   * ends at stored entities or entities of the batch: no version conflict can arise. Once committed, the store
   * agrees with the batch.
   */
  lemma DeltaAppliesIff(schema: Schema, env: Env, db: Db, nss: set<string>, b: Batch, knownE: map<Id, Entity>,
                        knownR: map<Id, Relationship>, es: seq<NifEntity>, rs: seq<NifRelationship>)
    requires ValidBatch(schema, env, es, rs) && EndpointsExist(db) && Sound(db, nss, knownE, knownR)
    requires b.mutations == Delta(env, knownE, knownR, es, rs)
    ensures Prefix(schema, db, b, |b.mutations|).Going? <==> forall i :: 0 <= i < |rs| ==> EndsKnown(db, es, rs[i])
    ensures Prefix(schema, db, b, |b.mutations|).Going? ==>
        && BatchApplied(env, knownR, db, Committed(schema, db, b), es, rs)
        && (forall i :: 0 <= i < |es| ==> EntityCommitted(env, knownE, db, Committed(schema, db, b), es[i]))
        && (forall i :: 0 <= i < |rs| ==> RelCommitted(env, knownR, db, Committed(schema, db, b), rs[i]))
  {
    hide EntitySettled, RelSettled, EntityDelta, RelDelta, Prefix, ValidEntity, ValidRel, RelMutation, MapRel,
      EntityCommitted, RelCommitted, EntityMutation, MapEntity;
    EntityHalf(schema, env, db, b, knownE, es);
    var k0 := |EntityDelta(env, knownE, es)|;
    var base := Prefix(schema, db, b, k0).db;
    EntitiesStay(env, knownE, db, base, es);
    assert b.mutations[k0..] == RelDelta(env, knownR, rs);
    RelHalf(schema, env, db, base, b, k0, knownR, rs);
    forall i | 0 <= i < |rs| ensures EndsStored(base, rs[i]) <==> EndsKnown(db, es, rs[i]) {
    }
    var p := Prefix(schema, db, b, |b.mutations|);
    if p.Going? {
      SettledOverRels(env, knownE, knownR, db, base, p.db, es, rs);
      forall i | 0 <= i < |es| ensures EntityCommitted(env, knownE, db, p.db, es[i]) {
        EntityInBatchTerms(env, knownE, db, p.db, es[i]);
      }
      RelsOverEntities(env, knownR, db, base, p.db, rs);
      forall i | 0 <= i < |rs| ensures RelCommitted(env, knownR, db, p.db, rs[i]) {
        RelInBatchTerms(env, knownR, db, p.db, rs[i]);
      }
    }
  }

  lemma SettledOverRels(env: Env, knownE: map<Id, Entity>, knownR: map<Id, Relationship>, db: Db, base: Db, db': Db,
                        es: seq<NifEntity>, rs: seq<NifRelationship>)
    requires RelsApplied(env, knownR, base, db', rs)
    requires forall i :: 0 <= i < |es| ==> EntityWritten(env, knownE, db, base, es[i])
    ensures forall i :: 0 <= i < |es| ==> EntityWritten(env, knownE, db, db', es[i]) && EntitySettled(env, db', es[i])
  {
    hide EntityChanged, EntityMutation, MapEntity, RelWritten;
    forall i | 0 <= i < |es| ensures EntityWritten(env, knownE, db, db', es[i]) {
      assert EntityWritten(env, knownE, db, base, es[i]);
    }
  }

  lemma RelsOverEntities(env: Env, known: map<Id, Relationship>, db: Db, base: Db, db': Db, rs: seq<NifRelationship>)
    requires RelsApplied(env, known, base, db', rs) && base.relationships == db.relationships
    ensures forall i :: 0 <= i < |rs| ==> RelWritten(env, known, db, db', rs[i])
  {
    hide RelSettled, RelMutation, MapRel;
    forall i | 0 <= i < |rs| ensures RelWritten(env, known, db, db', rs[i]) {
      assert RelWritten(env, known, base, db', rs[i]);
    }
  }

  /** After the entity half, the stored ids are the old ones and the batch's; nothing an edge ends at went away. */
  lemma EntitiesStay(env: Env, known: map<Id, Entity>, db: Db, base: Db, es: seq<NifEntity>)
    requires EntitiesApplied(env, known, db, base, es) && EndpointsExist(db)
    ensures forall id :: id in base.entities <==> id in db.entities || InBatch(es, id)
    ensures EndpointsExist(base)
  {
    hide EntityChanged;
    forall id ensures id in base.entities <==> id in db.entities || InBatch(es, id) {
      if InBatch(es, id) {
        var i :| 0 <= i < |es| && es[i].id == id;
        assert EntityWritten(env, known, db, base, es[i]);
      } else {
        assert Lookup(base.entities, id) == Lookup(db.entities, id);
      }
    }
  }

  // ---------------------------------------------------------------- computing it again

  lemma {:induction false} NoEntityDelta(env: Env, known: map<Id, Entity>, es: seq<NifEntity>)
    ensures EntityDelta(env, known, es) == [] <==> forall i :: 0 <= i < |es| ==> EntityMutation(env, known, es[i]) == []
  {
    hide EntityMutation;
    if es != [] {
      NoEntityDelta(env, known, es[..|es| - 1]);
    }
  }

  lemma {:induction false} NoRelDelta(env: Env, known: map<Id, Relationship>, rs: seq<NifRelationship>)
    ensures RelDelta(env, known, rs) == [] <==> forall i :: 0 <= i < |rs| ==> RelMutation(env, known, rs[i]) == []
  {
    hide RelMutation;
    if rs != [] {
      NoRelDelta(env, known, rs[..|rs| - 1]);
    }
  }

  /** A settled entity in a listed namespace is not emitted, whatever the clock says by then. */
  lemma SettledEntityIsSilent(env: Env, again: Env, db: Db, nss: set<string>, knownE: map<Id, Entity>,
                              knownR: map<Id, Relationship>, e: NifEntity)
    requires EntitySettled(env, db, e) && again.timeText == env.timeText && e.namespace in nss
    requires Sound(db, nss, knownE, knownR) && Complete(db, nss, knownE, knownR)
    ensures EntityMutation(again, knownE, e) == []
  {
    hide PropertiesMatch;
    assert db.entities[e.id].isActive && db.entities[e.id].namespace == e.namespace;
  }

  lemma SettledRelIsSilentIff(env: Env, again: Env, db: Db, nss: set<string>, knownE: map<Id, Entity>,
                              knownR: map<Id, Relationship>, r: NifRelationship)
    requires RelSettled(env, db, r) && again.timeText == env.timeText
    requires Sound(db, nss, knownE, knownR) && Complete(db, nss, knownE, knownR)
    ensures RelMutation(again, knownR, r) == [] <==> Shared(db, nss, r)
  {
    hide PropertiesMatch;
    assert db.relationships[r.id].isActive;
    assert db.relationships[r.id].fromId == r.fromId && db.relationships[r.id].toId == r.toId;
  }

  /** Against a store that agrees with the batch, the delta is empty exactly when every relationship is listed. */
  lemma SettledDeltaIsEmptyIff(env: Env, again: Env, db: Db, nss: set<string>, knownE: map<Id, Entity>,
                               knownR: map<Id, Relationship>,
                               es: seq<NifEntity>, rs: seq<NifRelationship>)
    requires forall i :: 0 <= i < |es| ==> EntitySettled(env, db, es[i]) && es[i].namespace in nss
    requires forall i :: 0 <= i < |rs| ==> RelSettled(env, db, rs[i])
    requires again.timeText == env.timeText
    requires Sound(db, nss, knownE, knownR) && Complete(db, nss, knownE, knownR)
    ensures Delta(again, knownE, knownR, es, rs) == [] <==> forall i :: 0 <= i < |rs| ==> Shared(db, nss, rs[i])
  {
    hide EntityMutation, RelMutation, EntitySettled, RelSettled, Shared, Sound, Complete;
    NoEntityDelta(again, knownE, es);
    NoRelDelta(again, knownR, rs);
    forall i | 0 <= i < |es| ensures EntityMutation(again, knownE, es[i]) == [] {
      SettledEntityIsSilent(env, again, db, nss, knownE, knownR, es[i]);
    }
    forall i | 0 <= i < |rs| ensures RelMutation(again, knownR, rs[i]) == [] <==> Shared(db, nss, rs[i]) {
      SettledRelIsSilentIff(env, again, db, nss, knownE, knownR, rs[i]);
    }
  }

  /** The namespace an id will have once the batch is in: the batch entity's if there is one, else the stored row's. */
  ghost predicate WillLive(db: Db, es: seq<NifEntity>, id: Id, ns: string) {
    if InBatch(es, id) then exists i :: 0 <= i < |es| && es[i].id == id && es[i].namespace == ns
    else id in db.entities && db.entities[id].namespace == ns
  }

  /** Known before the call: both ends will live in one namespace of the batch. */
  ghost predicate WillShare(db: Db, es: seq<NifEntity>, r: NifRelationship) {
    exists ns :: ns in Namespaces(es) && WillLive(db, es, r.fromId, ns) && WillLive(db, es, r.toId, ns)
  }

  lemma LivesAsForeseen(env: Env, knownR: map<Id, Relationship>, db: Db, db': Db, es: seq<NifEntity>,
                        rs: seq<NifRelationship>, id: Id, ns: string)
    requires BatchApplied(env, knownR, db, db', es, rs)
    requires forall i, k :: 0 <= i < k < |es| ==> es[i].id != es[k].id
    ensures WillLive(db, es, id, ns) <==> id in db'.entities && db'.entities[id].namespace == ns
  {
    hide RelWritten, PropertiesMatch, EntityProperties;
    if InBatch(es, id) {
      var i :| 0 <= i < |es| && es[i].id == id;
      assert EntitySettled(env, db', es[i]);
      assert forall k :: 0 <= k < |es| && es[k].id == id ==> k == i;
    } else {
      assert Lookup(db'.entities, id) == Lookup(db.entities, id);
    }
  }

  lemma SharedAsForeseen(env: Env, knownR: map<Id, Relationship>, db: Db, db': Db, es: seq<NifEntity>,
                         rs: seq<NifRelationship>, r: NifRelationship)
    requires BatchApplied(env, knownR, db, db', es, rs)
    requires forall i, k :: 0 <= i < k < |es| ==> es[i].id != es[k].id
    ensures Shared(db', Namespaces(es), r) <==> WillShare(db, es, r)
  {
    hide BatchApplied, WillLive, Namespaces;
    forall ns, id ensures WillLive(db, es, id, ns) <==> id in db'.entities && db'.entities[id].namespace == ns {
      LivesAsForeseen(env, knownR, db, db', es, rs, id, ns);
    }
    if Shared(db', Namespaces(es), r) {
      var ns := db'.entities[r.fromId].namespace;
      assert WillLive(db, es, r.fromId, ns) && WillLive(db, es, r.toId, ns);
    }
  }

  /**
   * Convergence, end to end: a stored run of batches, a delta computed from its listings and committed, and the
   * delta of the same batch computed again from the new listings at any later time. The second delta is empty
   * exactly when the two ends of every relationship will live in one namespace of the batch.
   */
  lemma DeltaConvergesIff(schema: Schema, env: Env, again: Env, db: Db, b: Batch, fetch: string -> Fetch,
                          refetch: string -> Fetch, es: seq<NifEntity>, rs: seq<NifRelationship>, second: seq<Mutation>)
    requires Inv(db) && ValidBatch(schema, env, es, rs) && again.timeText == env.timeText
    requires ListsStore(db, Namespaces(es), fetch) && IsDeltaAgainst(env, fetch, es, rs, b.mutations)
    requires forall i :: 0 <= i < |rs| ==> EndsKnown(db, es, rs[i])
    requires ListsStore(Committed(schema, db, b), Namespaces(es), refetch)
    requires UnderCaps(Committed(schema, db, b), Namespaces(es))
    requires IsDeltaAgainst(again, refetch, es, rs, second)
    ensures second == [] <==> forall i :: 0 <= i < |rs| ==> WillShare(db, es, rs[i])
  {
    hide EntityDelta, RelDelta, Prefix, EntitySettled, RelSettled, Shared, ListsStore, UnderCaps, GatheredEntities,
      GatheredRels, EndsKnown, LogIsTruth, Disciplined, KeysAreIds, EndpointsExist, Sound, Complete, WillShare,
      RelMutation, MapRel;
    var nss, db' := Namespaces(es), Committed(schema, db, b);
    var knownE, knownR :| GatheredEntities(fetch, nss, knownE) && GatheredRels(fetch, nss, knownR)
      && b.mutations == Delta(env, knownE, knownR, es, rs);
    FetchesTellTheStore(db, nss, fetch, knownE, knownR);
    DeltaAppliesIff(schema, env, db, nss, b, knownE, knownR, es, rs);
    PrefixKeepsInv(schema, db, b, |b.mutations|);
    var knownE', knownR' :| GatheredEntities(refetch, nss, knownE') && GatheredRels(refetch, nss, knownR')
      && second == Delta(again, knownE', knownR', es, rs);
    FetchesTellTheStore(db', nss, refetch, knownE', knownR');
    forall i | 0 <= i < |es| ensures es[i].namespace in nss {
      assert ValidEntity(schema, env, es[i]);
    }
    SettledDeltaIsEmptyIff(env, again, db', nss, knownE', knownR', es, rs);
    forall i | 0 <= i < |rs| ensures Shared(db', nss, rs[i]) <==> WillShare(db, es, rs[i]) {
      SharedAsForeseen(env, knownR, db, db', es, rs, rs[i]);
    }
  }

  // ---------------------------------------------------------------- committing it again

  /** Against the row it finds, the recomputed relationship changes nothing. */
  ghost predicate Quiet(env: Env, known: map<Id, Relationship>, db: Db, r: NifRelationship) {
    RelMutation(env, known, r) == []
    || (r.id in db.relationships && db.relationships[r.id].properties == MapRel(env, r).properties)
  }

  ghost predicate AllQuiet(env: Env, known: map<Id, Relationship>, db: Db, rs: seq<NifRelationship>) {
    forall i :: 0 <= i < |rs| ==> Quiet(env, known, db, rs[i])
  }

  /** Re-upserting a settled relationship does nothing or writes one entry, depending on the exact properties. */
  lemma Reupsert(schema: Schema, env: Env, db: Db, txn: string, tick: Tick, r: NifRelationship)
    requires ValidRel(schema, env, r) && RelSettled(env, db, r) && EndsStored(db, r)
    ensures var s := ApplyOne(schema, db, txn, UpsertRelationship(Some(MapRel(env, r))), tick);
      && s.Done?
      && (db.relationships[r.id].properties == MapRel(env, r).properties ==> s.db == db)
      && (db.relationships[r.id].properties != MapRel(env, r).properties ==> |s.db.log| == |db.log| + 1)
  {
    hide SourceProperties, PropertiesMatch, RelKind;
    assert schema.relOk(MapRel(env, r));
  }

  /** Through the recomputed relationships: still the same store while all are quiet, a longer log after that. */
  lemma {:induction false} RecommitHalf(schema: Schema, env: Env, db: Db, b: Batch, known: map<Id, Relationship>,
                                        rs: seq<NifRelationship>)
    requires ValidBatch(schema, env, [], rs) && EndpointsExist(db)
    requires forall id :: id in known ==> id in db.relationships && known[id] == db.relationships[id]
    requires forall i :: 0 <= i < |rs| ==> RelSettled(env, db, rs[i]) && EndsStored(db, rs[i])
    requires RelDelta(env, known, rs) <= b.mutations
    ensures var p := Prefix(schema, db, b, |RelDelta(env, known, rs)|);
      && p.Going?
      && (AllQuiet(env, known, db, rs) ==> p.db == db)
      && (!AllQuiet(env, known, db, rs) ==> |p.db.log| > |db.log|)
  {
    hide ApplyOne, MapRel, ValidRel, EndpointsExist, EndsStored, RelSettled, RelMutation, Prefix, Quiet, RelsApplied;
    NothingYet(schema, db, b);
    if rs != [] {
      var init, r := rs[..|rs| - 1], rs[|rs| - 1];
      var k := |RelDelta(env, known, init)|;
      RecommitHalf(schema, env, db, b, known, init);
      assert rs == init + [r];
      assert b.mutations[..0] == [] && b.mutations[0..] == b.mutations;
      RelHalf(schema, env, db, db, b, 0, known, rs);
      assert RelMutation(env, known, r) != [] ==> b.mutations[k] == RelMutation(env, known, r)[0] by {
        OneAtMost(env, known, r);
      }
      AllQuietSnoc(env, known, db, init, r);
      RecommitStep(schema, env, db, b, k, known, init, r);
    }
  }

  lemma NothingYet(schema: Schema, db: Db, b: Batch)
    ensures Prefix(schema, db, b, 0).Going? && Prefix(schema, db, b, 0).db == db
  {
  }

  lemma AllQuietSnoc(env: Env, known: map<Id, Relationship>, db: Db, init: seq<NifRelationship>, r: NifRelationship)
    ensures AllQuiet(env, known, db, init + [r]) <==> AllQuiet(env, known, db, init) && Quiet(env, known, db, r)
  {
    hide Quiet;
    var all := init + [r];
    assert all[|init|] == r;
    assert forall i :: 0 <= i < |init| ==> all[i] == init[i];
    if AllQuiet(env, known, db, all) {
      forall i | 0 <= i < |init| ensures Quiet(env, known, db, init[i]) {
        assert Quiet(env, known, db, all[i]);
      }
    }
  }

  lemma RecommitStep(schema: Schema, env: Env, db: Db, b: Batch, k: nat, known: map<Id, Relationship>,
                     init: seq<NifRelationship>, r: NifRelationship)
    requires ValidRel(schema, env, r) && RelSettled(env, db, r) && EndsStored(db, r)
    requires forall id :: id in known ==> id in db.relationships && known[id] == db.relationships[id]
    requires k + |RelMutation(env, known, r)| <= |b.mutations|
    requires RelMutation(env, known, r) != [] ==> b.mutations[k] == RelMutation(env, known, r)[0]
    requires var p := Prefix(schema, db, b, k);
      && p.Going?
      && (AllQuiet(env, known, db, init) ==> p.db == db)
      && (!AllQuiet(env, known, db, init) ==> |p.db.log| > |db.log|)
    requires Prefix(schema, db, b, k + |RelMutation(env, known, r)|).Going?
    ensures var q := Prefix(schema, db, b, k + |RelMutation(env, known, r)|);
      && (AllQuiet(env, known, db, init) && Quiet(env, known, db, r) ==> q.db == db)
      && (!(AllQuiet(env, known, db, init) && Quiet(env, known, db, r)) ==> |q.db.log| > |db.log|)
  {
    hide ApplyOne, ValidRel, EndsStored, AllQuiet, Prefix, PropertiesMatch, MapRel;
    OneAtMost(env, known, r);
    if RelMutation(env, known, r) == [] {
      assert k + |RelMutation(env, known, r)| == k;
    } else {
      var p := Prefix(schema, db, b, k);
      MappedRelVersion(env, r);
      assert b.mutations[k] == UpsertRelationship(Some(MapRel(env, r)));
      GoesOn(schema, db, b, k);
      StepExtendsLog(schema, p.db, b.txn, b.mutations[k], b.clock(k));
      if AllQuiet(env, known, db, init) {
        Reupsert(schema, env, db, b.txn, b.clock(k), r);
      }
    }
  }

  lemma MappedRelVersion(env: Env, r: NifRelationship)
    ensures MapRel(env, r).(version := 0) == MapRel(env, r)
  {
  }

  /** Known before the first call: the recomputed relationship will find exactly its own properties. */
  ghost predicate WillBeQuiet(env: Env, knownR: map<Id, Relationship>, db: Db, es: seq<NifEntity>, r: NifRelationship) {
    || WillShare(db, es, r)
    || RelMutation(env, knownR, r) != []
    || (r.id in db.relationships && db.relationships[r.id].properties == MapRel(env, r).properties)
  }

  /**
   * Idempotence of the store: committing the recomputed delta, empty or not, leaves rows and log as they are exactly
   * when every relationship will share a namespace, or was emitted the first time, or already had its very
   * properties. MovedEndIsWrittenAgain is a run where it fails.
   */
  lemma RecommitIsSilentIff(schema: Schema, env: Env, again: Env, db: Db, b: Batch, knownE: map<Id, Entity>,
                            knownR: map<Id, Relationship>, es: seq<NifEntity>, rs: seq<NifRelationship>, b2: Batch,
                            knownE': map<Id, Entity>, knownR': map<Id, Relationship>)
    requires Inv(db) && ValidBatch(schema, env, es, rs) && ValidBatch(schema, again, es, rs)
    requires again.timeText == env.timeText && Sound(db, Namespaces(es), knownE, knownR)
    requires b.mutations == Delta(env, knownE, knownR, es, rs)
    requires forall i :: 0 <= i < |rs| ==> EndsKnown(db, es, rs[i])
    requires Sound(Committed(schema, db, b), Namespaces(es), knownE', knownR')
    requires Complete(Committed(schema, db, b), Namespaces(es), knownE', knownR')
    requires b2.mutations == Delta(again, knownE', knownR', es, rs)
    ensures Committed(schema, Committed(schema, db, b), b2) == Committed(schema, db, b)
       <==> forall i :: 0 <= i < |rs| ==> WillBeQuiet(env, knownR, db, es, rs[i])
  {
    hide EntityDelta, RelDelta, Prefix, EntitySettled, RelSettled, Shared, EndsKnown, LogIsTruth, Disciplined,
      KeysAreIds, EndpointsExist, Sound, Complete, WillShare, RelMutation, MapRel, ValidEntity, ValidRel, EndsStored,
      EntityMutation, WillBeQuiet, Quiet, RelWritten;
    var nss, db' := Namespaces(es), Committed(schema, db, b);
    DeltaAppliesIff(schema, env, db, nss, b, knownE, knownR, es, rs);
    PrefixKeepsInv(schema, db, b, |b.mutations|);
    NoEntitiesAgain(schema, env, again, db', nss, knownE', knownR', es);
    forall i | 0 <= i < |rs|
      ensures RelSettled(again, db', rs[i]) && EndsStored(db', rs[i])
      ensures Quiet(again, knownR', db', rs[i]) <==> WillBeQuiet(env, knownR, db, es, rs[i])
    {
      assert RelWritten(env, knownR, db, db', rs[i]);
      SharedAsForeseen(env, knownR, db, db', es, rs, rs[i]);
      SettledLater(env, again, knownR, db, db', rs[i]);
      StoredEnds(env, db', rs[i]);
      SettledRelIsSilentIff(env, again, db', nss, knownE', knownR', rs[i]);
      QuietAsForeseen(env, again, knownR, db, db', es, rs[i], knownR');
    }
    SoundRels(db', nss, knownE', knownR');
    RecommitHalf(schema, again, db', b2, knownR', rs);
  }

  lemma SoundRels(db: Db, nss: set<string>, knownE: map<Id, Entity>, knownR: map<Id, Relationship>)
    requires Sound(db, nss, knownE, knownR)
    ensures forall id :: id in knownR ==> id in db.relationships && knownR[id] == db.relationships[id]
  {
  }

  lemma NoEntitiesAgain(schema: Schema, env: Env, again: Env, db: Db, nss: set<string>, knownE: map<Id, Entity>,
                        knownR: map<Id, Relationship>, es: seq<NifEntity>)
    requires forall i :: 0 <= i < |es| ==> ValidEntity(schema, env, es[i]) && EntitySettled(env, db, es[i])
    requires again.timeText == env.timeText && nss == Namespaces(es)
    requires Sound(db, nss, knownE, knownR) && Complete(db, nss, knownE, knownR)
    ensures EntityDelta(again, knownE, es) == []
  {
    hide EntityMutation, EntitySettled, Sound, Complete;
    NoEntityDelta(again, knownE, es);
    forall i | 0 <= i < |es| ensures EntityMutation(again, knownE, es[i]) == [] {
      assert es[i].namespace in nss;
      SettledEntityIsSilent(env, again, db, nss, knownE, knownR, es[i]);
    }
  }

  lemma SettledLater(env: Env, again: Env, knownR: map<Id, Relationship>, db: Db, db': Db, r: NifRelationship)
    requires RelWritten(env, knownR, db, db', r) && again.timeText == env.timeText
    ensures RelSettled(env, db', r) && RelSettled(again, db', r)
    ensures MapRel(again, r).properties == MapRel(env, r).properties
  {
    hide PropertiesMatch, RelMutation;
  }

  /** In a store whose edges have stored ends, a settled relationship has them. */
  lemma StoredEnds(env: Env, db: Db, r: NifRelationship)
    requires RelSettled(env, db, r) && EndpointsExist(db)
    ensures EndsStored(db, r)
  {
    hide PropertiesMatch;
  }

  lemma QuietAsForeseen(env: Env, again: Env, knownR: map<Id, Relationship>, db: Db, db': Db, es: seq<NifEntity>,
                        r: NifRelationship, knownR': map<Id, Relationship>)
    requires RelWritten(env, knownR, db, db', r) && MapRel(again, r).properties == MapRel(env, r).properties
    requires RelMutation(again, knownR', r) == [] <==> WillShare(db, es, r)
    ensures Quiet(again, knownR', db', r) <==> WillBeQuiet(env, knownR, db, es, r)
  {
    hide RelMutation, WillShare, MapRel, RelChanged;
    if RelMutation(env, knownR, r) == [] {
      assert Lookup(db'.relationships, r.id) == Lookup(db.relationships, r.id);
    }
  }

  // ---------------------------------------------------------------- the failing inputs

  /** A computation at instant 1. */
  const AT_ONE := Env(1, (t: Time) => "1")
  const PROVENANCE := Source("git", "repo", "main", 1)

  function Service(id: Id, ns: string): NifEntity {
    NifEntity(id, "SERVICE", "", id, "", ns, PROVENANCE, map[], 1.0, false, "run")
  }

  /**
   * A row that lacks a timing key, as a client writing directly to the store may leave it, is emitted although
   * nothing of substance changed.
   */
  lemma RowWithoutTimingIsEmitted(schema: Schema, env: Env, e: NifEntity, txn: string, clock: nat -> Tick)
    requires e.id != ""
    requires schema.entityOk(MapEntity(env, e).(properties := MapEntity(env, e).properties - {RUN_ID}))
    ensures var row := MapEntity(env, e).(properties := MapEntity(env, e).properties - {RUN_ID});
      var db := Run(schema, [Batch(txn, [UpsertEntity(Some(row))], clock)]);
      && e.id in db.entities
      && EntitySubstance(db.entities[e.id]) == EntitySubstance(MapEntity(env, e))
      && EntityMutation(env, db.entities, e) != []
  {
    var z := MapEntity(env, e);
    var row := z.(properties := z.properties - {RUN_ID});
    var b := Batch(txn, [UpsertEntity(Some(row))], clock);
    assert [b][..0] == [];
    assert Run(schema, []) == EMPTY;
    assert Run(schema, [b]) == Committed(schema, EMPTY, b);
    assert Prefix(schema, EMPTY, b, 0) == Going(EMPTY, []);
    var s := ApplyOne(schema, EMPTY, txn, b.mutations[0], clock(0));
    assert s.Done?;
    assert Prefix(schema, EMPTY, b, 1).Going? && Prefix(schema, EMPTY, b, 1).db == s.db;
    var stored := s.db.entities[e.id];
    assert stored.properties - Ignored() == z.properties - Ignored();
    EntityChangedIff(env, stored, e);
    assert RUN_ID !in stored.properties;
  }

  const TWO: seq<NifEntity> := [Service("a", "n1"), Service("b", "n2")]
  const ACROSS: seq<NifRelationship> := [NifRelationship("r", "CALLS", "a", "b", PROVENANCE, map[], 1.0, false, "run")]

  function NothingListed(ns: string): Fetch {
    Found(DeltaCompute.Listing([], []))
  }

  /** What the store lists once the two services are in. */
  function BothListed(a: Entity, b: Entity): string -> Fetch {
    (ns: string) => Found(DeltaCompute.Listing(if ns == "n1" then [a] else if ns == "n2" then [b] else [], []))
  }

  lemma TwoAreValid()
    ensures ValidBatch(PERMISSIVE, AT_ONE, TWO, ACROSS) && Namespaces(TWO) == {"n1", "n2"}
    ensures forall i :: 0 <= i < |ACROSS| ==> EndsKnown(EMPTY, TWO, ACROSS[i])
    ensures |ACROSS| == 1 && !WillShare(EMPTY, TWO, ACROSS[0])
  {
    hide MapEntity, MapRel;
    assert TWO[0].id == "a" && TWO[1].id == "b";
    assert TWO[0] in TWO && TWO[1] in TWO;
    forall ns | ns in Namespaces(TWO) ensures ns == "n1" || ns == "n2" {
    }
    assert InBatch(TWO, "a") && InBatch(TWO, "b");
  }

  lemma NothingIsListed(schema: Schema, nss: set<string>)
    ensures ListsStore(EMPTY, nss, NothingListed)
    ensures GatheredEntities(NothingListed, nss, map[]) && GatheredRels(NothingListed, nss, map[])
    ensures Sound(EMPTY, nss, map[], map[]) && Inv(EMPTY)
  {
    forall ns ensures EntitiesIn(EMPTY, ns) == {} && RelsIn(EMPTY, ns) == {} {
    }
    RunKeepsInv(schema, []);
  }

  /** What the committed store holds. */
  lemma TwoStored(db: Db)
    requires BatchApplied(AT_ONE, map[], EMPTY, db, TWO, ACROSS) && KeysAreIds(db)
    ensures db.entities.Keys == {"a", "b"} && db.relationships.Keys == {"r"}
    ensures EntityListed(db, "n1", "a") && EntityListed(db, "n2", "b")
    ensures db.relationships["r"].fromId == "a" && db.relationships["r"].toId == "b"
    ensures db.entities["a"].id == "a" && db.entities["b"].id == "b"
  {
    hide PropertiesMatch, EntityProperties, SourceProperties, RelMutation;
    assert EntitySettled(AT_ONE, db, TWO[0]) && EntitySettled(AT_ONE, db, TWO[1]);
    assert RelWritten(AT_ONE, map[], EMPTY, db, ACROSS[0]);
    forall id | id in db.entities ensures id in {"a", "b"} {
      assert Lookup(db.entities, id) != Lookup(EMPTY.entities, id);
      assert InBatch(TWO, id);
    }
    forall id | id in db.relationships ensures id == "r" {
      assert Lookup(db.relationships, id) != Lookup(EMPTY.relationships, id);
      assert RelInBatch(ACROSS, id);
    }
  }

  lemma BothAreListed(db: Db)
    requires BatchApplied(AT_ONE, map[], EMPTY, db, TWO, ACROSS) && KeysAreIds(db)
    ensures db.entities.Keys == {"a", "b"}
    ensures var refetch := BothListed(db.entities["a"], db.entities["b"]);
      && ListsStore(db, {"n1", "n2"}, refetch) && UnderCaps(db, {"n1", "n2"})
      && GatheredEntities(refetch, {"n1", "n2"}, db.entities) && GatheredRels(refetch, {"n1", "n2"}, map[])
  {
    hide BatchApplied, ListsStore, UnderCaps, GatheredEntities, GatheredRels, EntityListed, KeysAreIds;
    TwoStored(db);
    ListsBoth(db);
    GathersBoth(db.entities);
  }

  lemma ListsBoth(db: Db)
    requires db.entities.Keys == {"a", "b"} && db.relationships.Keys == {"r"} && KeysAreIds(db)
    requires EntityListed(db, "n1", "a") && EntityListed(db, "n2", "b")
    requires db.relationships["r"].fromId == "a" && db.relationships["r"].toId == "b"
    ensures ListsStore(db, {"n1", "n2"}, BothListed(db.entities["a"], db.entities["b"])) && UnderCaps(db, {"n1", "n2"})
  {
    assert EntitiesIn(db, "n1") == {"a"} && EntitiesIn(db, "n2") == {"b"};
    assert RelsIn(db, "n1") == {} && RelsIn(db, "n2") == {};
    hide EntitiesIn, RelsIn;
  }

  lemma GathersBoth(entities: map<Id, Entity>)
    requires entities.Keys == {"a", "b"} && entities["a"].id == "a" && entities["b"].id == "b"
    ensures var refetch := BothListed(entities["a"], entities["b"]);
      GatheredEntities(refetch, {"n1", "n2"}, entities) && GatheredRels(refetch, {"n1", "n2"}, map[])
  {
    var refetch := BothListed(entities["a"], entities["b"]);
    assert EntityFrom(refetch("n1"), entities["a"]) && EntityFrom(refetch("n2"), entities["b"]);
    assert "n1" in {"n1", "n2"} && "n2" in {"n1", "n2"};
  }

  /**
   * Two services in two namespaces with a call between them: the batch commits, the listings are faithful and small,
   * and the recomputed delta still is not empty.
   */
  lemma TwoNamespacesNeverConverge(clock: nat -> Tick)
    returns (b: Batch, refetch: string -> Fetch, second: seq<Mutation>)
    ensures IsDeltaAgainst(AT_ONE, NothingListed, TWO, ACROSS, b.mutations)
    ensures ListsStore(EMPTY, Namespaces(TWO), NothingListed)
    ensures var db := Committed(PERMISSIVE, EMPTY, b);
      && db.entities.Keys == {"a", "b"}
      && ListsStore(db, Namespaces(TWO), refetch) && UnderCaps(db, Namespaces(TWO))
    ensures IsDeltaAgainst(AT_ONE, refetch, TWO, ACROSS, second) && second != []
  {
    hide *;
    TwoAreValid();
    NothingIsListed(PERMISSIVE, {"n1", "n2"});
    b := Batch("first", Delta(AT_ONE, map[], map[], TWO, ACROSS), clock);
    InvParts(EMPTY);
    DeltaAppliesIff(PERMISSIVE, AT_ONE, EMPTY, {"n1", "n2"}, b, map[], map[], TWO, ACROSS);
    assert Prefix(PERMISSIVE, EMPTY, b, |b.mutations|).Going?;
    var db := Committed(PERMISSIVE, EMPTY, b);
    PrefixKeepsInv(PERMISSIVE, EMPTY, b, |b.mutations|);
    CommittedIs(PERMISSIVE, EMPTY, b);
    InvParts(db);
    BothAreListed(db);
    refetch := BothListed(db.entities["a"], db.entities["b"]);
    second := Delta(AT_ONE, db.entities, map[], TWO, ACROSS);
    DeltaIs(AT_ONE, NothingListed, TWO, ACROSS, map[], map[]);
    DeltaIs(AT_ONE, refetch, TWO, ACROSS, db.entities, map[]);
    DeltaConvergesIff(PERMISSIVE, AT_ONE, AT_ONE, EMPTY, b, NothingListed, refetch, TWO, ACROSS, second);
    assert 0 <= 0 < |ACROSS|;
  }

  lemma CommittedIs(schema: Schema, db: Db, b: Batch)
    requires Prefix(schema, db, b, |b.mutations|).Going?
    ensures Committed(schema, db, b) == Prefix(schema, db, b, |b.mutations|).db
  {
  }

  lemma DeltaIs(env: Env, fetch: string -> Fetch, es: seq<NifEntity>, rs: seq<NifRelationship>,
                knownE: map<Id, Entity>, knownR: map<Id, Relationship>)
    requires GatheredEntities(fetch, Namespaces(es), knownE) && GatheredRels(fetch, Namespaces(es), knownR)
    ensures IsDeltaAgainst(env, fetch, es, rs, Delta(env, knownE, knownR, es, rs))
  {
  }

  // ---------------------------------------------------------------- a recommit that writes

  /** Both services in one namespace, and the same call reported by a later run. */
  const HOME: seq<NifEntity> := [Service("a", "n1"), Service("b", "n1")]
  const LATER: seq<NifRelationship> := [ACROSS[0].(run := "next")]

  /** What the store lists while both live in the first namespace. */
  function HomeListed(a: Entity, b: Entity, r: Relationship): string -> Fetch {
    (ns: string) => Found(if ns == "n1" then DeltaCompute.Listing([a, b], [r]) else DeltaCompute.Listing([], []))
  }

  lemma HomeIsValid()
    ensures ValidBatch(PERMISSIVE, AT_ONE, HOME, ACROSS) && Namespaces(HOME) == {"n1"}
    ensures forall i :: 0 <= i < |ACROSS| ==> EndsKnown(EMPTY, HOME, ACROSS[i])
  {
    hide MapEntity, MapRel;
    assert HOME[0].id == "a" && HOME[1].id == "b";
    assert HOME[0] in HOME && HOME[1] in HOME;
    assert InBatch(HOME, "a") && InBatch(HOME, "b");
  }

  lemma LaterIsValid(db: Db)
    ensures ValidBatch(PERMISSIVE, AT_ONE, TWO, LATER) && Namespaces(TWO) == {"n1", "n2"}
    ensures forall i :: 0 <= i < |LATER| ==> EndsKnown(db, TWO, LATER[i])
    ensures |LATER| == 1 && !WillShare(db, TWO, LATER[0])
  {
    hide MapEntity, MapRel;
    TwoAreValid();
    assert InBatch(TWO, "a") && InBatch(TWO, "b");
    assert TWO[0].id == "a" && TWO[1].id == "b";
  }

  /** What the store holds while both live in the first namespace. */
  ghost predicate AtHome(db: Db) {
    && KeysAreIds(db) && db.entities.Keys == {"a", "b"} && db.relationships.Keys == {"r"}
    && EntityListed(db, "n1", "a") && EntityListed(db, "n1", "b")
    && RelSettled(AT_ONE, db, ACROSS[0])
    && db.relationships["r"].properties == MapRel(AT_ONE, ACROSS[0]).properties
  }

  lemma FirstStored(db: Db)
    requires BatchApplied(AT_ONE, map[], EMPTY, db, HOME, ACROSS) && KeysAreIds(db)
    ensures AtHome(db)
  {
    hide PropertiesMatch, EntityProperties, SourceProperties;
    assert EntitySettled(AT_ONE, db, HOME[0]) && EntitySettled(AT_ONE, db, HOME[1]);
    assert RelWritten(AT_ONE, map[], EMPTY, db, ACROSS[0]);
    forall id | id in db.entities ensures id in {"a", "b"} {
      assert Lookup(db.entities, id) != Lookup(EMPTY.entities, id);
      assert InBatch(HOME, id);
    }
    forall id | id in db.relationships ensures id == "r" {
      assert Lookup(db.relationships, id) != Lookup(EMPTY.relationships, id);
      assert RelInBatch(ACROSS, id);
    }
  }

  lemma HomeIsListed(db: Db)
    requires AtHome(db)
    ensures var fetch := HomeListed(db.entities["a"], db.entities["b"], db.relationships["r"]);
      && ListsStore(db, {"n1", "n2"}, fetch) && UnderCaps(db, {"n1", "n2"})
      && GatheredEntities(fetch, {"n1", "n2"}, db.entities) && GatheredRels(fetch, {"n1", "n2"}, db.relationships)
  {
    hide PropertiesMatch, MapEntity;
    assert db.relationships["r"].fromId == "a" && db.relationships["r"].toId == "b";
    hide RelSettled, MapRel;
    HomeSets(db);
    HomeGathered(db.entities, db.relationships);
  }

  lemma HomeSets(db: Db)
    requires KeysAreIds(db) && db.entities.Keys == {"a", "b"} && db.relationships.Keys == {"r"}
    requires EntityListed(db, "n1", "a") && EntityListed(db, "n1", "b") && db.relationships["r"].isActive
    requires db.relationships["r"].fromId == "a" && db.relationships["r"].toId == "b"
    ensures ListsStore(db, {"n1", "n2"}, HomeListed(db.entities["a"], db.entities["b"], db.relationships["r"]))
    ensures UnderCaps(db, {"n1", "n2"})
  {
    FirstIsListed(db);
    SecondIsEmpty(db);
    hide IsListing, EntitiesIn, RelsIn;
  }

  lemma FirstIsListed(db: Db)
    requires KeysAreIds(db) && db.entities.Keys == {"a", "b"} && db.relationships.Keys == {"r"}
    requires EntityListed(db, "n1", "a") && EntityListed(db, "n1", "b") && db.relationships["r"].isActive
    requires db.relationships["r"].fromId == "a" && db.relationships["r"].toId == "b"
    ensures IsListing(db, "n1", DeltaCompute.Listing([db.entities["a"], db.entities["b"]], [db.relationships["r"]]))
    ensures |EntitiesIn(db, "n1")| == 2 && |RelsIn(db, "n1")| == 1
  {
    assert EntitiesIn(db, "n1") == {"a", "b"};
    assert RelsIn(db, "n1") == {"r"};
    hide EntitiesIn, RelsIn;
  }

  lemma SecondIsEmpty(db: Db)
    requires db.entities.Keys == {"a", "b"} && db.relationships.Keys == {"r"}
    requires EntityListed(db, "n1", "a") && EntityListed(db, "n1", "b")
    requires db.relationships["r"].fromId == "a"
    ensures IsListing(db, "n2", DeltaCompute.Listing([], []))
    ensures EntitiesIn(db, "n2") == {} && RelsIn(db, "n2") == {}
  {
    assert EntitiesIn(db, "n2") == {} && RelsIn(db, "n2") == {};
    hide EntitiesIn, RelsIn;
  }

  lemma HomeGathered(entities: map<Id, Entity>, relationships: map<Id, Relationship>)
    requires entities.Keys == {"a", "b"} && entities["a"].id == "a" && entities["b"].id == "b"
    requires relationships.Keys == {"r"} && relationships["r"].id == "r"
    ensures var fetch := HomeListed(entities["a"], entities["b"], relationships["r"]);
      GatheredEntities(fetch, {"n1", "n2"}, entities) && GatheredRels(fetch, {"n1", "n2"}, relationships)
  {
    var fetch := HomeListed(entities["a"], entities["b"], relationships["r"]);
    assert EntityFrom(fetch("n1"), entities["a"]) && EntityFrom(fetch("n1"), entities["b"]);
    assert RelFrom(fetch("n1"), relationships["r"]);
    assert "n1" in {"n1", "n2"};
  }

  /** The later run brings nothing but its own name, so the call is not emitted, and keeps the old name. */
  lemma OnlyTimingDiffers(db: Db)
    requires AtHome(db)
    ensures RelMutation(AT_ONE, db.relationships, LATER[0]) == []
    ensures db.relationships["r"].properties != MapRel(AT_ONE, LATER[0]).properties
  {
    var row, z, was := db.relationships["r"], MapRel(AT_ONE, LATER[0]), MapRel(AT_ONE, ACROSS[0]);
    assert z.properties - Ignored() == was.properties - Ignored();
    assert Ignored() <= was.properties.Keys;
    assert was.properties[RUN_ID] == Text("run") && z.properties[RUN_ID] == Text("next");
    assert Text("run") != Text("next") by { assert Text("run")[1] == 'r' && Text("next")[1] == 'n'; }
    RelChangedIff(AT_ONE, row, LATER[0]);
    hide PropertiesMatch;
    assert RelSubstance(row) == RelSubstance(z);
  }

  lemma MoveStored(was: Db, db: Db)
    requires AtHome(was) && BatchApplied(AT_ONE, was.relationships, was, db, TWO, LATER) && KeysAreIds(db)
    ensures db.entities.Keys == {"a", "b"} && db.relationships.Keys == {"r"}
    ensures EntityListed(db, "n1", "a") && EntityListed(db, "n2", "b")
    ensures db.relationships["r"].fromId == "a" && db.relationships["r"].toId == "b"
  {
    hide PropertiesMatch, EntityProperties, SourceProperties, RelMutation;
    assert EntitySettled(AT_ONE, db, TWO[0]) && EntitySettled(AT_ONE, db, TWO[1]);
    assert RelWritten(AT_ONE, was.relationships, was, db, LATER[0]);
    forall id | id in db.entities ensures id in {"a", "b"} {
      assert Lookup(db.entities, id) == Lookup(was.entities, id) || InBatch(TWO, id);
    }
    forall id | id in db.relationships ensures id == "r" {
      assert Lookup(db.relationships, id) == Lookup(was.relationships, id) || RelInBatch(LATER, id);
    }
  }

  lemma MoveIsListed(was: Db, db: Db)
    requires AtHome(was) && BatchApplied(AT_ONE, was.relationships, was, db, TWO, LATER) && KeysAreIds(db)
    ensures db.entities.Keys == {"a", "b"}
    ensures var refetch := BothListed(db.entities["a"], db.entities["b"]);
      && ListsStore(db, {"n1", "n2"}, refetch) && UnderCaps(db, {"n1", "n2"})
      && GatheredEntities(refetch, {"n1", "n2"}, db.entities) && GatheredRels(refetch, {"n1", "n2"}, map[])
  {
    hide AtHome, BatchApplied, ListsStore, UnderCaps, GatheredEntities, GatheredRels, EntityListed;
    MoveStored(was, db);
    ListsBoth(db);
    GathersBoth(db.entities);
  }

  /**
   * Two services in one namespace and a call between them are committed. A later run moves one of them to another
   * namespace and repeats the call. All listings are faithful and small; and yet, computed and committed a second
   * time, the delta of that run writes the call again.
   */
  lemma MovedEndIsWrittenAgain(clock: nat -> Tick)
    returns (first: Batch, fetch: string -> Fetch, second: Batch, refetch: string -> Fetch, third: Batch)
    ensures ListsStore(EMPTY, Namespaces(HOME), NothingListed)
    ensures IsDeltaAgainst(AT_ONE, NothingListed, HOME, ACROSS, first.mutations)
    ensures var db := Committed(PERMISSIVE, EMPTY, first);
      && ListsStore(db, Namespaces(TWO), fetch) && UnderCaps(db, Namespaces(TWO))
      && IsDeltaAgainst(AT_ONE, fetch, TWO, LATER, second.mutations)
      && var moved := Committed(PERMISSIVE, db, second);
         && ListsStore(moved, Namespaces(TWO), refetch) && UnderCaps(moved, Namespaces(TWO))
         && IsDeltaAgainst(AT_ONE, refetch, TWO, LATER, third.mutations)
         && Committed(PERMISSIVE, moved, third) != moved
  {
    hide *;
    HomeIsValid();
    NothingIsListed(PERMISSIVE, {"n1"});
    first := Batch("first", Delta(AT_ONE, map[], map[], HOME, ACROSS), clock);
    DeltaIs(AT_ONE, NothingListed, HOME, ACROSS, map[], map[]);
    InvParts(EMPTY);
    DeltaAppliesIff(PERMISSIVE, AT_ONE, EMPTY, {"n1"}, first, map[], map[], HOME, ACROSS);
    CommitKeepsParts(PERMISSIVE, EMPTY, first);
    var db := Committed(PERMISSIVE, EMPTY, first);
    FirstStored(db);
    HomeIsKnown(db);
    fetch := HomeListed(db.entities["a"], db.entities["b"], db.relationships["r"]);
    second := Batch("second", Delta(AT_ONE, db.entities, db.relationships, TWO, LATER), clock);
    LaterIsValid(db);
    DeltaIs(AT_ONE, fetch, TWO, LATER, db.entities, db.relationships);
    DeltaAppliesIff(PERMISSIVE, AT_ONE, db, {"n1", "n2"}, second, db.entities, db.relationships, TWO, LATER);
    CommitKeepsParts(PERMISSIVE, db, second);
    var moved := Committed(PERMISSIVE, db, second);
    MoveIsListed(db, moved);
    refetch := BothListed(moved.entities["a"], moved.entities["b"]);
    third := Batch("third", Delta(AT_ONE, moved.entities, map[], TWO, LATER), clock);
    DeltaIs(AT_ONE, refetch, TWO, LATER, moved.entities, map[]);
    FetchesTellTheStore(moved, {"n1", "n2"}, refetch, moved.entities, map[]);
    RecommitIsSilentIff(PERMISSIVE, AT_ONE, AT_ONE, db, second, db.entities, db.relationships, TWO, LATER, third,
      moved.entities, map[]);
    assert !WillBeQuiet(AT_ONE, db.relationships, db, TWO, LATER[0]) by { CallIsLoud(db); }
    assert 0 <= 0 < |LATER|;
  }

  lemma HomeIsKnown(db: Db)
    requires AtHome(db)
    ensures "a" in db.entities && "b" in db.entities && "r" in db.relationships
    ensures var fetch := HomeListed(db.entities["a"], db.entities["b"], db.relationships["r"]);
      && ListsStore(db, {"n1", "n2"}, fetch) && UnderCaps(db, {"n1", "n2"})
      && GatheredEntities(fetch, {"n1", "n2"}, db.entities) && GatheredRels(fetch, {"n1", "n2"}, db.relationships)
    ensures Sound(db, {"n1", "n2"}, db.entities, db.relationships)
  {
    hide ListsStore, UnderCaps, GatheredEntities, GatheredRels, EntityListed, RelSettled, Sound;
    HomeIsListed(db);
    var fetch := HomeListed(db.entities["a"], db.entities["b"], db.relationships["r"]);
    FetchesTellTheStore(db, {"n1", "n2"}, fetch, db.entities, db.relationships);
  }

  lemma CallIsLoud(db: Db)
    requires AtHome(db)
    ensures !WillBeQuiet(AT_ONE, db.relationships, db, TWO, LATER[0])
  {
    hide AtHome, WillShare, RelMutation, MapRel;
    LaterIsValid(db);
    OnlyTimingDiffers(db);
  }

  lemma CommitKeepsParts(schema: Schema, db: Db, b: Batch)
    requires Inv(db)
    ensures Inv(Committed(schema, db, b))
    ensures Disciplined(Committed(schema, db, b).log) && EndpointsExist(Committed(schema, db, b))
    ensures KeysAreIds(Committed(schema, db, b))
  {
    hide Prefix, LogIsTruth, Disciplined, EndpointsExist, KeysAreIds;
    PrefixKeepsInv(schema, db, b, |b.mutations|);
    InvParts(Committed(schema, db, b));
  }
}
