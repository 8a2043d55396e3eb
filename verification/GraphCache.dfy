/** The read cache over the row tables, and why a cached answer is always the answer a fresh read would give. */
module GraphCache {
  import opened Wrappers
  import opened Records
  import opened EventStore
  import opened Neighborhood

  // ---------------------------------------------------------------- keys

  function DirectionCode(dir: Direction): nat {
    match dir
    case Outbound => 0
    case Inbound => 1
    case Both => 2
  }

  /** The composite key: the origin, then one character each for depth and direction. */
  function NeighborhoodKey(originId: Id, depth: nat, dir: Direction): string
    requires depth <= 5
  {
    originId + "|" + [depth as char] + "|" + [DirectionCode(dir) as char]
  }

  /** No two queries share a key, even if ids contain the separator. */
  lemma KeysAreInjective(o: Id, d: nat, dir: Direction, o': Id, d': nat, dir': Direction)
    requires d <= 5 && d' <= 5
    ensures NeighborhoodKey(o, d, dir) == NeighborhoodKey(o', d', dir') <==> o == o' && d == d' && dir == dir'
  {
    var k, k' := NeighborhoodKey(o, d, dir), NeighborhoodKey(o', d', dir');
    if k == k' {
      assert k[..|k| - 4] == o && k'[..|k'| - 4] == o';
      assert k[|k| - 3] == d as char && k'[|k'| - 3] == d' as char;
      assert k[|k| - 1] == DirectionCode(dir) as char && k'[|k'| - 1] == DirectionCode(dir') as char;
    }
  }

  // ---------------------------------------------------------------- coherence

  /** A cached neighbourhood mentions this entity, as origin or as neighbour. */
  ghost predicate Mentions(h: Hood, id: Id) {
    h.origin.id == id || exists y :: y in h.nodes && h.nodes[y].id == id
  }

  /** A key names this query and holds an answer. */
  ghost predicate Cached(nc: map<string, Hood>, o: Id, d: nat, dir: Direction) {
    d <= 5 && NeighborhoodKey(o, d, dir) in nc
  }

  ghost predicate FreshAt(db: Db, nc: map<string, Hood>, o: Id, d: nat, dir: Direction)
    requires Cached(nc, o, d, dir)
  {
    o in db.entities && nc[NeighborhoodKey(o, d, dir)] == FreshHood(db, o, d, dir)
  }

  /** Every cached value equals what an uncached read would return now. */
  ghost predicate Coherent(db: Db, ec: map<Id, Entity>, nc: map<string, Hood>) {
    && (forall id :: id in ec ==> id in db.entities && ec[id] == db.entities[id])
    && (forall o, d, dir :: Cached(nc, o, d, dir) ==> FreshAt(db, nc, o, d, dir))
  }

  // ---------------------------------------------------------------- locality

  /** Two databases look alike from the nodes xs: the same edges leave them, with the same rows and stored ends. */
  ghost predicate AlikeFrom(db: Db, db': Db, dir: Direction, xs: set<Id>) {
    && (forall r, x :: x in xs && r in db.relationships && Expands(db.relationships[r], dir, x) ==>
          r in db'.relationships && db'.relationships[r] == db.relationships[r])
    && (forall r, x :: x in xs && r in db'.relationships && Expands(db'.relationships[r], dir, x) ==>
          r in db.relationships && db'.relationships[r] == db.relationships[r])
    && (forall r, x :: x in xs && r in db.relationships && Expands(db.relationships[r], dir, x) ==>
          (Other(db.relationships[r], x) in db.entities <==> Other(db.relationships[r], x) in db'.entities))
  }

  lemma AlikeNeighbors(db: Db, db': Db, dir: Direction, xs: set<Id>)
    requires AlikeFrom(db, db', dir, xs)
    ensures Neighbors(db', dir, xs) == Neighbors(db, dir, xs)
    ensures EdgesFrom(db', dir, xs) == EdgesFrom(db, dir, xs)
  {
    hide Expands, Other;
    forall y ensures y in Neighbors(db', dir, xs) <==> y in Neighbors(db, dir, xs) {
      if y in Neighbors(db, dir, xs) {
        var x :| x in xs && StepsTo(db, dir, x, y);
        var r :| StepBy(db, dir, x, y, r);
        assert StepBy(db', dir, x, y, r);
      }
      if y in Neighbors(db', dir, xs) {
        var x :| x in xs && StepsTo(db', dir, x, y);
        var r :| StepBy(db', dir, x, y, r);
        assert StepBy(db, dir, x, y, r);
      }
    }
  }

  lemma {:induction false} WithinGrows(db: Db, dir: Direction, o: Id, j: nat, k: nat)
    requires j <= k
    ensures Within(db, dir, o, j) <= Within(db, dir, o, k)
    decreases k
  {
    hide Neighbors;
    if j < k {
      WithinGrows(db, dir, o, j, k - 1);
    }
  }

  lemma AlikeSubset(db: Db, db': Db, dir: Direction, xs: set<Id>, ys: set<Id>)
    requires AlikeFrom(db, db', dir, xs) && ys <= xs
    ensures AlikeFrom(db, db', dir, ys)
  {
    hide Expands, Other;
  }

  lemma {:induction false} AlikeWithin(db: Db, db': Db, dir: Direction, o: Id, d: nat, k: nat)
    requires k <= d && (d > 0 ==> AlikeFrom(db, db', dir, Within(db, dir, o, d - 1)))
    ensures Within(db', dir, o, k) == Within(db, dir, o, k)
  {
    hide Neighbors, AlikeFrom;
    if k > 0 {
      AlikeWithin(db, db', dir, o, d, k - 1);
      WithinGrows(db, dir, o, k - 1, d - 1);
      AlikeSubset(db, db', dir, Within(db, dir, o, d - 1), Within(db, dir, o, k - 1));
      AlikeNeighbors(db, db', dir, Within(db, dir, o, k - 1));
    }
  }

  /** The locality lemma: a neighbourhood depends only on what its inner nodes and its members' rows look like. */
  lemma Locality(db: Db, db': Db, o: Id, d: nat, dir: Direction)
    requires o in db.entities
    requires d > 0 ==> AlikeFrom(db, db', dir, Within(db, dir, o, d - 1))
    requires forall y :: y in Within(db, dir, o, d) && y in db.entities ==>
        y in db'.entities && db'.entities[y] == db.entities[y]
    ensures o in db'.entities && FreshHood(db', o, d, dir) == FreshHood(db, o, d, dir)
  {
    hide Neighbors, EdgesFrom, AlikeFrom;
    OriginWithin(db, dir, o, d);
    WithinStored(db, dir, o, d);
    AlikeWithin(db, db', dir, o, d, d);
    if d > 0 {
      AlikeWithin(db, db', dir, o, d, d - 1);
      AlikeNeighbors(db, db', dir, Within(db, dir, o, d - 1));
      EdgeRowsAlike(db, db', dir, Within(db, dir, o, d - 1));
    }
  }

  lemma EdgeRowsAlike(db: Db, db': Db, dir: Direction, xs: set<Id>)
    requires AlikeFrom(db, db', dir, xs)
    ensures forall r :: r in EdgesFrom(db, dir, xs) ==>
        r in db'.relationships && db'.relationships[r] == db.relationships[r]
  {
    hide Expands, Other;
  }

  lemma MentionsMembers(db: Db, o: Id, d: nat, dir: Direction, id: Id)
    requires o in db.entities && KeysAreIds(db)
    ensures Mentions(FreshHood(db, o, d, dir), id) <==> id in Within(db, dir, o, d)
  {
    hide Within;
    OriginWithin(db, dir, o, d);
    WithinStored(db, dir, o, d);
    var h := FreshHood(db, o, d, dir);
    if id in Within(db, dir, o, d) && id != o {
      assert id in h.nodes && h.nodes[id].id == id;
    }
  }

  /** Writing an entity leaves every neighbourhood that does not mention it alone. */
  lemma EntityWriteIsLocal(db: Db, db': Db, row: Entity, o: Id, d: nat, dir: Direction)
    requires KeysAreIds(db) && EndpointsExist(db) && o in db.entities
    requires db'.entities == db.entities[row.id := row] && db'.relationships == db.relationships
    requires !Mentions(FreshHood(db, o, d, dir), row.id)
    ensures o in db'.entities && FreshHood(db', o, d, dir) == FreshHood(db, o, d, dir)
  {
    hide Within, FreshHood;
    MentionsMembers(db, o, d, dir, row.id);
    Locality(db, db', o, d, dir);
  }

  lemma RelWriteAlike(db: Db, db': Db, row: Relationship, dir: Direction, xs: set<Id>)
    requires db'.entities == db.entities && db'.relationships == db.relationships[row.id := row]
    requires row.fromId !in xs && row.toId !in xs && row.id !in EdgesFrom(db, dir, xs)
    ensures AlikeFrom(db, db', dir, xs)
  {
    hide Other;
    forall x | x in xs ensures !Expands(row, dir, x) {
    }
    hide Expands;
  }

  /** Writing an edge leaves alone every neighbourhood that mentions neither new endpoint,
      provided the edge was not followed inside it before. */
  lemma RelWriteIsLocal(db: Db, db': Db, row: Relationship, o: Id, d: nat, dir: Direction)
    requires KeysAreIds(db) && EndpointsExist(db) && o in db.entities
    requires db'.entities == db.entities && db'.relationships == db.relationships[row.id := row]
    requires !Mentions(FreshHood(db, o, d, dir), row.fromId) && !Mentions(FreshHood(db, o, d, dir), row.toId)
    requires row.id !in EdgesWithin(db, dir, o, d)
    ensures FreshHood(db', o, d, dir) == FreshHood(db, o, d, dir)
  {
    hide FreshHood, Mentions, Within, EdgesFrom, AlikeFrom;
    MentionsMembers(db, o, d, dir, row.fromId);
    MentionsMembers(db, o, d, dir, row.toId);
    if d > 0 {
      WithinGrows(db, dir, o, d - 1, d);
      RelWriteAlike(db, db', row, dir, Within(db, dir, o, d - 1));
    }
    Locality(db, db', o, d, dir);
  }

  // ---------------------------------------------------------------- exactly which edge updates are safe

  /** A node together with what it leads to in one step. */
  ghost function Ball(db: Db, dir: Direction, x: Id): set<Id> {
    {x} + Neighbors(db, dir, {x})
  }

  /** The old endpoints' surroundings both meet the new endpoints, the only ids that are invalidated. */
  ghost predicate UpdateSafe(db: Db, old_: Relationship, row: Relationship) {
    old_.isActive ==>
      && (row.fromId in Ball(db, Outbound, old_.fromId) || row.toId in Ball(db, Outbound, old_.fromId))
      && (row.fromId in Ball(db, Inbound, old_.toId) || row.toId in Ball(db, Inbound, old_.toId))
  }

  /** Every answer that survives the invalidation of the row's endpoints is still the fresh one. */
  ghost predicate SurvivorsFresh(db: Db, db': Db, row: Relationship) {
    forall o, d, dir :: Survivor(db, row, o, d, dir) ==>
      o in db'.entities && FreshHood(db', o, d, dir) == FreshHood(db, o, d, dir)
  }

  ghost predicate Survivor(db: Db, row: Relationship, o: Id, d: nat, dir: Direction) {
    d <= 5 && o in db.entities && !Mentions(FreshHood(db, o, d, dir), row.fromId)
      && !Mentions(FreshHood(db, o, d, dir), row.toId)
  }

  lemma BallInside(db: Db, o: Id, d: nat, dir: Direction, x: Id, side: Direction)
    requires d > 0 && x in Within(db, dir, o, d - 1)
    requires side == dir || dir == Both
    ensures Ball(db, side, x) <= Within(db, dir, o, d)
  {
    forall y | y in Neighbors(db, side, {x}) ensures y in Within(db, dir, o, d) {
      assert StepsTo(db, side, x, y);
      var r :| StepBy(db, side, x, y, r);
      assert StepBy(db, dir, x, y, r);
    }
  }

  /** A safe update was not followed inside any surviving neighbourhood. */
  lemma SafeUpdateWasOutside(db: Db, row: Relationship, o: Id, d: nat, dir: Direction)
    requires KeysAreIds(db) && EndpointsExist(db) && o in db.entities
    requires row.id in db.relationships ==> UpdateSafe(db, db.relationships[row.id], row)
    requires !Mentions(FreshHood(db, o, d, dir), row.fromId) && !Mentions(FreshHood(db, o, d, dir), row.toId)
    ensures row.id !in EdgesWithin(db, dir, o, d)
  {
    hide FreshHood, Mentions, Within, Ball;
    MentionsMembers(db, o, d, dir, row.fromId);
    MentionsMembers(db, o, d, dir, row.toId);
    if row.id in EdgesWithin(db, dir, o, d) {
      var e := db.relationships[row.id];
      var x :| x in Within(db, dir, o, d - 1) && Expands(e, dir, x);
      if x == e.fromId && dir != Inbound {
        BallInside(db, o, d, dir, x, Outbound);
      } else {
        BallInside(db, o, d, dir, x, Inbound);
      }
      assert false;
    }
  }

  /** Just the old endpoint and its one-step surroundings: the smallest answer holding the moved edge. */
  lemma UnsafeUpdateLeavesStale(db: Db, db': Db, row: Relationship, side: Direction, x: Id)
    requires KeysAreIds(db) && EndpointsExist(db) && row.id in db.relationships
    requires db'.entities == db.entities && db'.relationships == db.relationships[row.id := row]
    requires side != Both && Expands(db.relationships[row.id], side, x)
    requires row.fromId !in Ball(db, side, x) && row.toId !in Ball(db, side, x)
    ensures Survivor(db, row, x, 1, side)
    ensures x in db'.entities && FreshHood(db', x, 1, side) != FreshHood(db, x, 1, side)
  {
    hide Mentions;
    assert x in db.entities;
    assert Within(db, side, x, 0) == {x} && Within(db, side, x, 1) == Ball(db, side, x);
    MentionsMembers(db, x, 1, side, row.fromId);
    MentionsMembers(db, x, 1, side, row.toId);
    assert row.id in EdgesWithin(db, side, x, 1);
    assert row.id in FreshHood(db, x, 1, side).edges;
    assert row.id !in EdgesWithin(db', side, x, 1);
    assert row.id !in FreshHood(db', x, 1, side).edges;
  }

  /** Invalidating only the new endpoints keeps every surviving answer fresh exactly when the update is safe. */
  lemma UpdateSafeIff(db: Db, db': Db, row: Relationship)
    requires KeysAreIds(db) && EndpointsExist(db) && row.id in db.relationships
    requires db'.entities == db.entities && db'.relationships == db.relationships[row.id := row]
    ensures UpdateSafe(db, db.relationships[row.id], row) <==> SurvivorsFresh(db, db', row)
  {
    hide FreshHood, Mentions, Within, Ball, EdgesWithin;
    if UpdateSafe(db, db.relationships[row.id], row) {
      forall o, d, dir | Survivor(db, row, o, d, dir)
        ensures o in db'.entities && FreshHood(db', o, d, dir) == FreshHood(db, o, d, dir)
      {
        SafeUpdateWasOutside(db, row, o, d, dir);
        RelWriteIsLocal(db, db', row, o, d, dir);
      }
    } else {
      var e := db.relationships[row.id];
      if row.fromId !in Ball(db, Outbound, e.fromId) && row.toId !in Ball(db, Outbound, e.fromId) {
        UnsafeUpdateLeavesStale(db, db', row, Outbound, e.fromId);
      } else {
        UnsafeUpdateLeavesStale(db, db', row, Inbound, e.toId);
      }
    }
  }

  /** The usual case: an id that keeps one of its endpoints. */
  lemma SharedEndpointIsSafe(db: Db, row: Relationship)
    requires EndpointsExist(db) && row.id in db.relationships
    requires var e := db.relationships[row.id];
             row.fromId in {e.fromId, e.toId} || row.toId in {e.fromId, e.toId}
    ensures UpdateSafe(db, db.relationships[row.id], row)
  {
    var e := db.relationships[row.id];
    if e.isActive {
      assert StepBy(db, Outbound, e.fromId, Other(e, e.fromId), row.id);
      assert StepBy(db, Inbound, e.toId, Other(e, e.toId), row.id);
    }
  }

  // ---------------------------------------------------------------- batches

  /** The mutation, if it moves a stored edge, does so safely. */
  ghost predicate MovesSafely(schema: Schema, db: Db, m: Mutation) {
    m.UpsertRelationship? && m.relationship.Some? ==>
      var row := RelRow(schema, m.relationship.value);
      row.id in db.relationships ==> UpdateSafe(db, db.relationships[row.id], row)
  }

  ghost predicate BatchMovesSafely(schema: Schema, db: Db, b: Batch) {
    forall k: nat :: k < |b.mutations| && Prefix(schema, db, b, k).Going? ==>
      MovesSafely(schema, Prefix(schema, db, b, k).db, b.mutations[k])
  }

  /** The post-commit hooks leave this answer in the cache. */
  ghost predicate Spared(h: Hood, result: Result) {
    EntitySpared(h, result) && EdgeSpared(h, result)
  }

  ghost predicate EntitySpared(h: Hood, result: Result) {
    result.operation != OpNoChange && result.entityId.Some? ==> !Mentions(h, result.entityId.value)
  }

  ghost predicate EdgeSpared(h: Hood, result: Result) {
    result.stale.Some? ==> !Mentions(h, result.stale.value.0) && !Mentions(h, result.stale.value.1)
  }

  ghost predicate SparedByAll(h: Hood, results: seq<Result>) {
    forall i :: 0 <= i < |results| ==> Spared(h, results[i])
  }

  lemma OneMutationIsLocal(schema: Schema, db: Db, txn: string, m: Mutation, tick: Tick, o: Id, d: nat, dir: Direction)
    requires Inv(db) && ApplyOne(schema, db, txn, m, tick).Done? && MovesSafely(schema, db, m)
    requires o in db.entities && Spared(FreshHood(db, o, d, dir), ApplyOne(schema, db, txn, m, tick).result)
    ensures var db' := ApplyOne(schema, db, txn, m, tick).db;
            o in db'.entities && FreshHood(db', o, d, dir) == FreshHood(db, o, d, dir)
  {
    hide LogIsTruth, Disciplined, FreshHood, Mentions, EdgesWithin, UpdateSafe, EndpointsExist, Logged;
    var db' := ApplyOne(schema, db, txn, m, tick).db;
    if db' != db {
      match m
      case UpsertEntity(e) =>
        var id := EntityRow(schema, e.value).id;
        EntityWriteIsLocal(db, db', db'.entities[id], o, d, dir);
      case SoftDeleteEntity(id) =>
        EntityWriteIsLocal(db, db', db'.entities[id], o, d, dir);
      case UpsertRelationship(r) =>
        var id := RelRow(schema, r.value).id;
        var row := db'.relationships[id];
        if id in db.relationships {
          SafeIgnoresVersion(db, db.relationships[id], RelRow(schema, r.value), row);
        }
        SafeUpdateWasOutside(db, row, o, d, dir);
        RelWriteIsLocal(db, db', row, o, d, dir);
      case DeleteRelationship(id) =>
        var row := db'.relationships[id];
        SharedEndpointIsSafe(db, row);
        SafeUpdateWasOutside(db, row, o, d, dir);
        RelWriteIsLocal(db, db', row, o, d, dir);
    }
  }

  lemma SafeIgnoresVersion(db: Db, e: Relationship, a: Relationship, b: Relationship)
    requires UpdateSafe(db, e, a) && a.fromId == b.fromId && a.toId == b.toId
    ensures UpdateSafe(db, e, b)
  {
  }

  /** Through a whole transaction, an answer spared by every hook stays the fresh one. */
  lemma {:induction false} PrefixIsLocal(schema: Schema, db: Db, b: Batch, k: nat, o: Id, d: nat, dir: Direction)
    requires Inv(db) && BatchMovesSafely(schema, db, b) && k <= |b.mutations| && Prefix(schema, db, b, k).Going?
    requires o in db.entities && SparedByAll(FreshHood(db, o, d, dir), Prefix(schema, db, b, k).results)
    ensures var db' := Prefix(schema, db, b, k).db;
            o in db'.entities && FreshHood(db', o, d, dir) == FreshHood(db, o, d, dir)
  {
    hide Inv, FreshHood, Spared, ApplyOne, MovesSafely;
    if k > 0 {
      var p, q := Prefix(schema, db, b, k - 1), Prefix(schema, db, b, k);
      PrefixStep(schema, db, b, k);
      hide Prefix;
      PrefixIsLocal(schema, db, b, k - 1, o, d, dir);
      PrefixKeepsInv(schema, db, b, k - 1);
      assert Spared(FreshHood(db, o, d, dir), q.results[|p.results|]);
      OneMutationIsLocal(schema, p.db, b.txn, b.mutations[k - 1], b.clock(k - 1), o, d, dir);
    }
  }

  // ---------------------------------------------------------------- the cache and the cached store

  /** The two live layers of the cache. An entry may expire at any moment. */
  class Cache {
    var entityCache: map<Id, Entity>
    var neighborCache: map<string, Hood>

    constructor ()
      ensures entityCache == map[] && neighborCache == map[]
    {
      entityCache, neighborCache := map[], map[];
    }

    method GetEntity(id: Id) returns (r: Option<Entity>)
      ensures r.Some? ==> id in entityCache && r.value == entityCache[id]
    {
      var expired: bool := *;
      r := if id !in entityCache || expired then None else Some(entityCache[id]);
    }

    method SetEntity(id: Id, e: Entity)
      modifies this`entityCache
      ensures entityCache == old(entityCache)[id := e]
    {
      entityCache := entityCache[id := e];
    }

    method GetNeighborhood(key: string) returns (r: Option<Hood>)
      ensures r.Some? ==> key in neighborCache && r.value == neighborCache[key]
    {
      var expired: bool := *;
      r := if key !in neighborCache || expired then None else Some(neighborCache[key]);
    }

    method SetNeighborhood(key: string, h: Hood)
      modifies this`neighborCache
      ensures neighborCache == old(neighborCache)[key := h]
    {
      neighborCache := neighborCache[key := h];
    }

    /** The "contains this id" scan over one cached answer. */
    method Scan(h: Hood, id: Id) returns (found: bool)
      ensures found <==> Mentions(h, id)
    {
      if h.origin.id == id {
        return true;
      }
      var todo := h.nodes.Keys;
      while todo != {}
        invariant todo <= h.nodes.Keys
        invariant forall y :: y in h.nodes && y !in todo ==> h.nodes[y].id != id
        decreases |todo|
      {
        var y :| y in todo;
        if h.nodes[y].id == id {
          return true;
        }
        todo := todo - {y};
      }
      return false;
    }

    method InvalidateEntity(id: Id)
      modifies this
      ensures entityCache == old(entityCache) - {id}
      ensures neighborCache ==
        map k | k in old(neighborCache) && !Mentions(old(neighborCache)[k], id) :: old(neighborCache)[k]
    {
      entityCache := entityCache - {id};
      var todo := neighborCache.Keys;
      while todo != {}
        invariant todo <= neighborCache.Keys <= old(neighborCache).Keys && entityCache == old(entityCache) - {id}
        invariant forall k :: k in neighborCache ==> neighborCache[k] == old(neighborCache)[k]
        invariant forall k :: k in old(neighborCache) && k !in todo ==>
            (k in neighborCache <==> !Mentions(old(neighborCache)[k], id))
        decreases |todo|
      {
        var k :| k in todo;
        var hit := Scan(neighborCache[k], id);
        todo := todo - {k};
        if hit {
          neighborCache := neighborCache - {k};
        }
      }
    }

    method InvalidateRelationship(fromId: Id, toId: Id)
      modifies this`neighborCache
      ensures neighborCache == map k | k in old(neighborCache) && !Mentions(old(neighborCache)[k], fromId)
                                       && !Mentions(old(neighborCache)[k], toId) :: old(neighborCache)[k]
    {
      var todo := neighborCache.Keys;
      while todo != {}
        invariant todo <= neighborCache.Keys <= old(neighborCache).Keys
        invariant forall k :: k in neighborCache ==> neighborCache[k] == old(neighborCache)[k]
        invariant forall k :: k in old(neighborCache) && k !in todo ==>
                    (k in neighborCache <==>
                       !Mentions(old(neighborCache)[k], fromId) && !Mentions(old(neighborCache)[k], toId))
        decreases |todo|
      {
        var k :| k in todo;
        var hitFrom := Scan(neighborCache[k], fromId);
        var hitTo := Scan(neighborCache[k], toId);
        todo := todo - {k};
        if hitFrom || hitTo {
          neighborCache := neighborCache - {k};
        }
      }
    }
  }

  /** Some hook named this entity. */
  ghost predicate NamedIn(results: seq<Result>, id: Id) {
    exists i :: 0 <= i < |results| && Names(results[i], id)
  }

  /** What the hooks leave: entries of before, none of them named or mentioned by a result. */
  ghost predicate Purged(ec0: map<Id, Entity>, nc0: map<string, Hood>, ec: map<Id, Entity>, nc: map<string, Hood>,
                         results: seq<Result>) {
    && (forall id :: id in ec ==> id in ec0 && ec[id] == ec0[id] && !NamedIn(results, id))
    && (forall k :: k in nc ==> k in nc0 && nc[k] == nc0[k] && SparedByAll(nc[k], results))
  }

  /** Committing a batch and then running its hooks keeps the cache coherent. */
  lemma CommitKeepsCoherent(schema: Schema, db: Db, b: Batch, ec0: map<Id, Entity>, nc0: map<string, Hood>,
                            ec: map<Id, Entity>, nc: map<string, Hood>)
    requires Inv(db) && BatchMovesSafely(schema, db, b) && Coherent(db, ec0, nc0)
    requires Prefix(schema, db, b, |b.mutations|).Going?
    requires Purged(ec0, nc0, ec, nc, Prefix(schema, db, b, |b.mutations|).results)
    ensures Coherent(Prefix(schema, db, b, |b.mutations|).db, ec, nc)
  {
    hide Inv, FreshHood, Prefix, BatchMovesSafely, SparedByAll, Names;
    var n := |b.mutations|;
    var results := Prefix(schema, db, b, n).results;
    forall id | id in ec
      ensures id in Prefix(schema, db, b, n).db.entities && ec[id] == Prefix(schema, db, b, n).db.entities[id]
    {
      UnnamedRowStays(schema, db, b, n, id);
      assert Lookup(Prefix(schema, db, b, n).db.entities, id) == Lookup(db.entities, id);
    }
    forall o, d, dir | Cached(nc, o, d, dir) ensures FreshAt(Prefix(schema, db, b, n).db, nc, o, d, dir) {
      assert Cached(nc0, o, d, dir) && FreshAt(db, nc0, o, d, dir);
      PrefixIsLocal(schema, db, b, n, o, d, dir);
    }
  }
}
