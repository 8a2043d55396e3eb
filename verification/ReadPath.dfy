/** Cached reads over the storage tables, and the commit hooks that keep them honest. */
module ReadPath {
  import opened Wrappers
  import opened Records
  import opened EventStore
  import opened Neighborhood
  import opened MutationApi
  import opened GraphCache

  lemma FillEntityKeepsCoherent(db: Db, ec: map<Id, Entity>, nc: map<string, Hood>, id: Id)
    requires Coherent(db, ec, nc) && id in db.entities
    ensures Coherent(db, ec[id := db.entities[id]], nc)
  {
    hide FreshHood;
    forall o, d, dir | Cached(nc, o, d, dir) ensures FreshAt(db, nc, o, d, dir) {
    }
  }

  lemma FillHoodKeepsCoherent(db: Db, ec: map<Id, Entity>, nc: map<string, Hood>, o: Id, d: nat, dir: Direction)
    requires Coherent(db, ec, nc) && o in db.entities && d <= 5
    ensures Coherent(db, ec, nc[NeighborhoodKey(o, d, dir) := FreshHood(db, o, d, dir)])
  {
    hide FreshHood, NeighborhoodKey;
    var nc' := nc[NeighborhoodKey(o, d, dir) := FreshHood(db, o, d, dir)];
    forall o', d', dir' | Cached(nc', o', d', dir') ensures FreshAt(db, nc', o', d', dir') {
      KeysAreInjective(o, d, dir, o', d', dir');
      if !(o' == o && d' == d && dir' == dir) {
        assert Cached(nc, o', d', dir');
      }
    }
  }

  // ---------------------------------------------------------------- all runs of reads and batches

  datatype Op =
    | Commit(batch: Batch)
    | ReadEntity(id: Id)
    | ReadHood(originId: Id, depth: int, dir: Direction)
    | ExpireEntity(id: Id)
    | ExpireHood(key: string)

  datatype World = World(db: Db, ec: map<Id, Entity>, nc: map<string, Hood>)

  ghost function PurgeEntities(ec: map<Id, Entity>, results: seq<Result>): map<Id, Entity> {
    map id | id in ec && !NamedIn(results, id) :: ec[id]
  }

  ghost function PurgeHoods(nc: map<string, Hood>, results: seq<Result>): map<string, Hood> {
    map k | k in nc && SparedByAll(nc[k], results) :: nc[k]
  }

  ghost function Next(schema: Schema, w: World, op: Op): World {
    match op
    case Commit(b) =>
      var p := Prefix(schema, w.db, b, |b.mutations|);
      if p.Going? then World(p.db, PurgeEntities(w.ec, p.results), PurgeHoods(w.nc, p.results)) else w
    case ReadEntity(id) =>
      if id in w.db.entities then w.(ec := w.ec[id := w.db.entities[id]]) else w
    case ReadHood(o, depth, dir) =>
      var d := ClampDepth(depth);
      if o in w.db.entities then w.(nc := w.nc[NeighborhoodKey(o, d, dir) := FreshHood(w.db, o, d, dir)]) else w
    case ExpireEntity(id) => w.(ec := w.ec - {id})
    case ExpireHood(key) => w.(nc := w.nc - {key})
  }

  ghost function Worlds(schema: Schema, ops: seq<Op>): World {
    if ops == [] then World(EMPTY, map[], map[]) else Next(schema, Worlds(schema, ops[..|ops| - 1]), ops[|ops| - 1])
  }

  /** Every edge update of the run is safe where it happens, for instance because it keeps an endpoint. */
  ghost predicate RunMovesSafely(schema: Schema, ops: seq<Op>) {
    ops != [] ==>
      RunMovesSafely(schema, ops[..|ops| - 1]) &&
      (ops[|ops| - 1].Commit? ==> BatchMovesSafely(schema, Worlds(schema, ops[..|ops| - 1]).db, ops[|ops| - 1].batch))
  }

  /** Any cached entry may vanish, and nothing else with it. */
  lemma EntriesMayVanish(schema: Schema, w: World, id: Id, key: string)
    ensures Next(schema, w, ExpireEntity(id)) == World(w.db, w.ec - {id}, w.nc)
    ensures Next(schema, w, ExpireHood(key)) == World(w.db, w.ec, w.nc - {key})
  {
  }

  lemma NextKeepsCoherent(schema: Schema, w: World, op: Op)
    requires Inv(w.db) && Coherent(w.db, w.ec, w.nc)
    requires op.Commit? ==> BatchMovesSafely(schema, w.db, op.batch)
    ensures Inv(Next(schema, w, op).db)
        && Coherent(Next(schema, w, op).db, Next(schema, w, op).ec, Next(schema, w, op).nc)
  {
    hide Inv, FreshHood, BatchMovesSafely, SparedByAll, NamedIn, NeighborhoodKey;
    match op
    case Commit(b) =>
      hide Coherent;
      var p := Prefix(schema, w.db, b, |b.mutations|);
      if p.Going? {
        PrefixKeepsInv(schema, w.db, b, |b.mutations|);
        CommitKeepsCoherent(schema, w.db, b, w.ec, w.nc, PurgeEntities(w.ec, p.results), PurgeHoods(w.nc, p.results));
      }
    case ReadEntity(id) =>
      hide Coherent;
      if id in w.db.entities {
        FillEntityKeepsCoherent(w.db, w.ec, w.nc, id);
      }
    case ReadHood(o, depth, dir) =>
      hide Coherent;
      if o in w.db.entities {
        FillHoodKeepsCoherent(w.db, w.ec, w.nc, o, ClampDepth(depth), dir);
      }
    case ExpireEntity(id) =>
      FewerIsCoherent(w, Next(schema, w, op));
    case ExpireHood(key) =>
      FewerIsCoherent(w, Next(schema, w, op));
  }

  lemma FewerIsCoherent(w: World, w': World)
    requires Coherent(w.db, w.ec, w.nc) && w'.db == w.db
    requires forall id :: id in w'.ec ==> id in w.ec && w'.ec[id] == w.ec[id]
    requires forall k :: k in w'.nc ==> k in w.nc && w'.nc[k] == w.nc[k]
    ensures Coherent(w'.db, w'.ec, w'.nc)
  {
    hide FreshHood, NeighborhoodKey;
    forall o, d, dir | Cached(w'.nc, o, d, dir) ensures FreshAt(w'.db, w'.nc, o, d, dir) {
      assert Cached(w.nc, o, d, dir) && FreshAt(w.db, w.nc, o, d, dir);
    }
  }

  /** Cache coherence over all runs of reads, expiries and batches. */
  lemma {:induction false} RunKeepsCoherent(schema: Schema, ops: seq<Op>)
    requires RunMovesSafely(schema, ops)
    ensures var w := Worlds(schema, ops); Inv(w.db) && Coherent(w.db, w.ec, w.nc)
  {
    if ops == [] {
      RunKeepsInv(schema, []);
    } else {
      hide Inv, Coherent, Next, BatchMovesSafely;
      RunKeepsCoherent(schema, ops[..|ops| - 1]);
      NextKeepsCoherent(schema, Worlds(schema, ops[..|ops| - 1]), ops[|ops| - 1]);
    }
  }

  // ---------------------------------------------------------------- the service

  /** The cached entities that no result so far names, and no others. */
  ghost predicate KeepsEntities(ec0: map<Id, Entity>, ec: map<Id, Entity>, results: seq<Result>, n: nat)
    requires n <= |results|
  {
    && (forall id :: id in ec <==> id in ec0 && forall j :: 0 <= j < n ==> !Names(results[j], id))
    && (forall id :: id in ec ==> ec[id] == ec0[id])
  }

  /** The cached answers that the first n relationship hooks and the first m entity hooks spare, and no others. */
  ghost predicate KeepsHoods(nc0: map<string, Hood>, nc: map<string, Hood>, results: seq<Result>, n: nat, m: nat)
    requires n <= |results| && m <= |results|
  {
    && (forall k :: k in nc <==> k in nc0 && (forall j :: 0 <= j < n ==> EdgeSpared(nc0[k], results[j]))
                                          && (forall j :: 0 <= j < m ==> EntitySpared(nc0[k], results[j])))
    && (forall k :: k in nc ==> nc[k] == nc0[k])
  }

  /** The relationship hook of one result. */
  lemma EdgeHookKeeps(nc0: map<string, Hood>, nc: map<string, Hood>, nc': map<string, Hood>, results: seq<Result>,
                      i: nat)
    requires i < |results| && KeepsHoods(nc0, nc, results, i, 0)
    requires nc' == map k | k in nc && EdgeSpared(nc[k], results[i]) :: nc[k]
    ensures KeepsHoods(nc0, nc', results, i + 1, 0)
  {
    hide EdgeSpared, EntitySpared;
  }

  /** The entity hook of one result. */
  lemma EntityHookKeeps(nc0: map<string, Hood>, nc: map<string, Hood>, nc': map<string, Hood>, results: seq<Result>,
                        i: nat)
    requires i < |results| && KeepsHoods(nc0, nc, results, |results|, i)
    requires nc' == map k | k in nc && EntitySpared(nc[k], results[i]) :: nc[k]
    ensures KeepsHoods(nc0, nc', results, |results|, i + 1)
  {
    hide EdgeSpared, EntitySpared;
  }

  lemma EntityHookDrops(ec0: map<Id, Entity>, ec: map<Id, Entity>, ec': map<Id, Entity>, results: seq<Result>, i: nat)
    requires i < |results| && KeepsEntities(ec0, ec, results, i)
    requires ec' == map id | id in ec && !Names(results[i], id) :: ec[id]
    ensures KeepsEntities(ec0, ec', results, i + 1)
  {
    hide Names;
  }

  lemma NothingPurged(ec: map<Id, Entity>, nc: map<string, Hood>, results: seq<Result>)
    ensures KeepsEntities(ec, ec, results, 0) && KeepsHoods(nc, nc, results, 0, 0)
  {
  }

  lemma KeptIsPurged(ec0: map<Id, Entity>, nc0: map<string, Hood>, ec: map<Id, Entity>, nc: map<string, Hood>,
                     results: seq<Result>)
    requires KeepsEntities(ec0, ec, results, |results|) && KeepsHoods(nc0, nc, results, |results|, |results|)
    ensures ec == PurgeEntities(ec0, results) && nc == PurgeHoods(nc0, results)
    ensures Purged(ec0, nc0, ec, nc, results)
  {
    hide EdgeSpared, EntitySpared, Names;
    forall id ensures id in ec <==> id in PurgeEntities(ec0, results) {
    }
    forall k | k in nc0 ensures k in nc <==> SparedByAll(nc0[k], results) {
      if SparedByAll(nc0[k], results) {
        assert forall j :: 0 <= j < |results| ==> Spared(nc0[k], results[j]);
      }
    }
  }

  lemma EntityIsFresh(db: Db, ec: map<Id, Entity>, nc: map<string, Hood>, id: Id)
    requires Coherent(db, ec, nc) && id in ec
    ensures id in db.entities && ec[id] == db.entities[id]
  {
  }

  lemma HoodIsFresh(db: Db, ec: map<Id, Entity>, nc: map<string, Hood>, o: Id, d: nat, dir: Direction)
    requires Coherent(db, ec, nc) && d <= 5 && NeighborhoodKey(o, d, dir) in nc
    ensures o in db.entities && nc[NeighborhoodKey(o, d, dir)] == FreshHood(db, o, d, dir)
  {
    hide FreshHood, NeighborhoodKey;
    assert Cached(nc, o, d, dir) && FreshAt(db, nc, o, d, dir);
  }

  class Service {
    const api: Api
    const cache: Cache

    ghost predicate Valid()
      reads this, api.store, cache
    {
      Inv(api.store.State()) && Coherent(api.store.State(), cache.entityCache, cache.neighborCache)
    }

    /** The service as a state of the runs above. */
    ghost function Seen(): World
      reads this, api.store, cache
    {
      World(api.store.State(), cache.entityCache, cache.neighborCache)
    }

    constructor (schema: Schema)
      ensures Valid() && fresh(api) && fresh(api.store) && fresh(cache)
      ensures api.schema == schema && api.store.State() == EMPTY
    {
      var store := new Store();
      api := new Api(store, schema);
      cache := new Cache();
      new;
      RunKeepsInv(schema, []);
    }

    /** Commit, then the post-commit invalidations; the cache stays coherent when no edge moves away unsafely. */
    method ApplyBatch(b: Batch) returns (outcome: Progress)
      requires Valid()
      modifies api.store, cache
      ensures Inv(api.store.State())
      ensures old(BatchMovesSafely(api.schema, api.store.State(), b)) ==> Valid()
      ensures outcome.Going? ==>
        && cache.entityCache == PurgeEntities(old(cache.entityCache), outcome.results)
        && cache.neighborCache == PurgeHoods(old(cache.neighborCache), outcome.results)
      ensures outcome.Stopped? ==> unchanged(cache)
      ensures Seen() == Next(api.schema, old(Seen()), Commit(b))
      ensures outcome == Prefix(api.schema, old(api.store.State()), b, |b.mutations|)
      ensures api.store.State() == Committed(api.schema, old(api.store.State()), b)
    {
      hide Inv, Coherent, BatchMovesSafely, Prefix, Mentions, KeepsHoods, KeepsEntities, PurgeHoods, PurgeEntities;
      ghost var db, ec0, nc0 := api.store.State(), cache.entityCache, cache.neighborCache;
      outcome := api.ApplyBatch(b);
      if outcome.Stopped? {
        return;
      }
      var results := outcome.results;
      NothingPurged(ec0, nc0, results);
      for i := 0 to |results|
        invariant api.store.State() == outcome.db && cache.entityCache == ec0
        invariant KeepsHoods(nc0, cache.neighborCache, results, i, 0)
      {
        ghost var nc := cache.neighborCache;
        if results[i].stale.Some? {
          cache.InvalidateRelationship(results[i].stale.value.0, results[i].stale.value.1);
        }
        assert cache.neighborCache == map k | k in nc && EdgeSpared(nc[k], results[i]) :: nc[k];
        EdgeHookKeeps(nc0, nc, cache.neighborCache, results, i);
      }
      for i := 0 to |results|
        invariant api.store.State() == outcome.db
        invariant KeepsEntities(ec0, cache.entityCache, results, i)
        invariant KeepsHoods(nc0, cache.neighborCache, results, |results|, i)
      {
        ghost var ec, nc := cache.entityCache, cache.neighborCache;
        if results[i].operation != OpNoChange && results[i].entityId.Some? {
          cache.InvalidateEntity(results[i].entityId.value);
        }
        assert cache.neighborCache == map k | k in nc && EntitySpared(nc[k], results[i]) :: nc[k];
        EntityHookKeeps(nc0, nc, cache.neighborCache, results, i);
        assert cache.entityCache == map id | id in ec && !Names(results[i], id) :: ec[id];
        EntityHookDrops(ec0, ec, cache.entityCache, results, i);
      }
      KeptIsPurged(ec0, nc0, cache.entityCache, cache.neighborCache, results);
      if BatchMovesSafely(api.schema, db, b) {
        CommitKeepsCoherent(api.schema, db, b, ec0, nc0, cache.entityCache, cache.neighborCache);
      }
    }

    method GetEntity(id: Id) returns (r: Option<Entity>)
      requires Valid()
      modifies cache`entityCache
      ensures Valid()
      ensures r == Lookup(api.store.entities, id)
      ensures cache.entityCache ==
        if id in api.store.entities then old(cache.entityCache)[id := api.store.entities[id]]
        else old(cache.entityCache)
      ensures Seen() == Next(api.schema, old(Seen()), ReadEntity(id))
    {
      hide Inv, Coherent;
      var hit := cache.GetEntity(id);
      if hit.Some? {
        EntityIsFresh(api.store.State(), cache.entityCache, cache.neighborCache, id);
        return hit;
      }
      if id !in api.store.entities {
        return None;
      }
      var e := api.store.entities[id];
      InvParts(api.store.State());
      FillEntityKeepsCoherent(api.store.State(), cache.entityCache, cache.neighborCache, id);
      cache.SetEntity(e.id, e);
      return Some(e);
    }

    /** One edge seen from one frontier node: recorded unless seen, its far end loaded unless seen. */
    method ExpandEdge(nid: Id, r: Id, nodes0: map<Id, Entity>, edges0: map<Id, Relationship>, next0: seq<Id>)
      returns (nodes: map<Id, Entity>, edges: map<Id, Relationship>, next: seq<Id>)
      requires Valid() && r in api.store.relationships
      requires Rows(api.store.State(), nodes0, edges0)
      requires r in edges0 ==> WithEnd(api.store.State(), nodes0.Keys, nid, r) == nodes0.Keys
      modifies cache`entityCache
      ensures Valid()
      ensures Rows(api.store.State(), nodes, edges)
      ensures nodes0.Keys <= nodes.Keys
      ensures nodes.Keys == WithEnd(api.store.State(), nodes0.Keys, nid, r) && edges.Keys == edges0.Keys + {r}
      ensures forall y :: y in next <==> y in next0 || (y in nodes && y !in nodes0)
    {
      hide Valid, Other;
      nodes, edges, next := nodes0, edges0, next0;
      if r in edges {
        return;
      }
      var e := api.store.relationships[r];
      edges := edges[r := e];
      var other := Other(e, nid);
      if other in nodes {
        return;
      }
      var node := GetEntity(other);
      if node.Some? {
        nodes := nodes[other := node.value];
        next := next + [other];
      }
    }

    /** The edge loop for one frontier node. */
    method ExpandNode(nid: Id, dir: Direction, nodes0: map<Id, Entity>, edges0: map<Id, Relationship>, next0: seq<Id>)
      returns (nodes: map<Id, Entity>, edges: map<Id, Relationship>, next: seq<Id>)
      requires Valid() && nid in nodes0
      requires Rows(api.store.State(), nodes0, edges0)
      requires EndsSeen(api.store.State(), dir, nodes0.Keys, edges0.Keys)
          && Rooted(api.store.State(), dir, nodes0.Keys, edges0.Keys)
      modifies cache`entityCache
      ensures Valid()
      ensures Rows(api.store.State(), nodes, edges)
      ensures EndsSeen(api.store.State(), dir, nodes.Keys, edges.Keys)
          && Rooted(api.store.State(), dir, nodes.Keys, edges.Keys)
      ensures nodes.Keys == nodes0.Keys + Neighbors(api.store.State(), dir, {nid})
      ensures edges.Keys == edges0.Keys + EdgesFrom(api.store.State(), dir, {nid})
      ensures forall y :: y in next <==> y in next0 || (y in nodes && y !in nodes0)
    {
      hide Valid, EndsSeen, Rooted, Neighbors, EdgesFrom, Expands, Rows, Other, Ends, SeqSet, WithEnd;
      nodes, edges, next := nodes0, edges0, next0;
      ghost var db := api.store.State();
      var rows := EdgesForNode(api.store.State(), nid, dir);
      EndsAll(db, dir, nid, rows);
      for i := 0 to |rows|
        invariant Valid() && Rows(db, nodes, edges) && nid in nodes
        invariant EndsSeen(db, dir, nodes.Keys, edges.Keys) && Rooted(db, dir, nodes.Keys, edges.Keys)
        invariant nodes.Keys == nodes0.Keys + Ends(db, rows[..i], nid)
        invariant edges.Keys == edges0.Keys + SeqSet(rows[..i])
        invariant forall y :: y in next <==> y in next0 || (y in nodes && y !in nodes0)
      {
        var r := rows[i];
        assert r in rows;
        EndsSnoc(db, rows, i, nid);
        AddEdge(db, dir, nodes.Keys, edges.Keys, nid, r);
        nodes, edges, next := ExpandEdge(nid, r, nodes, edges, next);
      }
      assert rows[..|rows|] == rows;
    }

    /** One level of the search: every frontier node in turn. */
    method ExpandLevel(frontier: seq<Id>, dir: Direction, nodes0: map<Id, Entity>, edges0: map<Id, Relationship>)
      returns (nodes: map<Id, Entity>, edges: map<Id, Relationship>, next: seq<Id>)
      requires Valid() && forall x :: x in frontier ==> x in nodes0
      requires Rows(api.store.State(), nodes0, edges0)
      requires EndsSeen(api.store.State(), dir, nodes0.Keys, edges0.Keys)
          && Rooted(api.store.State(), dir, nodes0.Keys, edges0.Keys)
      modifies cache`entityCache
      ensures Valid()
      ensures Rows(api.store.State(), nodes, edges)
      ensures nodes.Keys == nodes0.Keys + Neighbors(api.store.State(), dir, SeqSet(frontier))
      ensures edges.Keys == edges0.Keys + EdgesFrom(api.store.State(), dir, SeqSet(frontier))
      ensures forall y :: y in next <==> y in nodes && y !in nodes0
    {
      hide Valid, EndsSeen, Rooted, Neighbors, EdgesFrom, Expands, Rows, SeqSet;
      nodes, edges, next := nodes0, edges0, [];
      ghost var db := api.store.State();
      NoneFromNone(db, dir);
      SeqSetSnoc(frontier);
      for i := 0 to |frontier|
        invariant Valid() && Rows(db, nodes, edges)
        invariant EndsSeen(db, dir, nodes.Keys, edges.Keys) && Rooted(db, dir, nodes.Keys, edges.Keys)
        invariant nodes.Keys == nodes0.Keys + Neighbors(db, dir, SeqSet(frontier[..i]))
        invariant edges.Keys == edges0.Keys + EdgesFrom(db, dir, SeqSet(frontier[..i]))
        invariant forall y :: y in next <==> y in nodes && y !in nodes0
      {
        assert frontier[i] in frontier;
        NeighborsUnion(db, dir, SeqSet(frontier[..i]), {frontier[i]});
        nodes, edges, next := ExpandNode(frontier[i], dir, nodes, edges, next);
      }
      assert frontier[..|frontier|] == frontier;
    }

    /** The neighbourhood read: cached if possible, otherwise searched breadth first and cached. */
    method Neighborhood(originId: Id, maxDepth: int, dir: Direction) returns (result: Option<Hood>)
      requires Valid()
      modifies cache
      ensures Valid()
      ensures result == if originId in api.store.entities
                        then Some(FreshHood(api.store.State(), originId, ClampDepth(maxDepth), dir)) else None
      ensures result.Some? ==>
        IsAnswer(api.store.State(), originId, if maxDepth < 0 then 0 else if maxDepth > 5 then 5 else maxDepth, dir,
          result.value)
      ensures cache.neighborCache ==
        if result.Some?
        then old(cache.neighborCache)[NeighborhoodKey(originId, ClampDepth(maxDepth), dir) := result.value]
        else old(cache.neighborCache)
      ensures cache.neighborCache == Next(api.schema, old(Seen()), ReadHood(originId, maxDepth, dir)).nc
    {
      hide Inv, Coherent, EndsSeen, Rooted, Neighbors, EdgesFrom, Within, EdgesWithin, NeighborhoodKey, IsFrontier,
        SeqSet, Rows, FreshHood, IsAnswer;
      var d := ClampDepth(maxDepth);
      ghost var db := api.store.State();
      if originId in db.entities {
        FreshIsAnswer(db, originId, d, dir);
      }
      var key := NeighborhoodKey(originId, d, dir);
      var hit := cache.GetNeighborhood(key);
      if hit.Some? {
        HoodIsFresh(db, cache.entityCache, cache.neighborCache, originId, d, dir);
        return hit;
      }
      var found := GetEntity(originId);
      if found == None {
        return None;
      }
      var origin := found.value;
      InvParts(db);
      var nodes, edges := map[origin.id := origin], map[];
      var frontier := [origin.id];
      var depth := 0;
      SearchStarts(db, dir, originId);
      while depth < d && |frontier| > 0
        invariant depth <= d && Valid() && cache.neighborCache == old(cache.neighborCache)
        invariant Rows(db, nodes, edges)
        invariant nodes.Keys == Within(db, dir, originId, depth) && edges.Keys == EdgesWithin(db, dir, originId, depth)
        invariant IsFrontier(db, dir, originId, depth, SeqSet(frontier))
        invariant forall x :: x in frontier ==> x in nodes
      {
        EndsSeenWithin(db, dir, originId, depth);
        RootedWithin(db, dir, originId, depth);
        LevelDone(db, dir, originId, depth, SeqSet(frontier));
        nodes, edges, frontier := ExpandLevel(frontier, dir, nodes, edges);
        NextFrontier(db, dir, originId, depth, frontier);
        depth := depth + 1;
      }
      if depth < d {
        SeqSetSnoc(frontier);
        assert frontier == frontier[..0];
        SearchEnds(db, dir, originId, depth, d);
      }
      var hood := Hood(origin, nodes - {originId}, edges, d);
      IsFresh(db, originId, d, dir, nodes, edges);
      FillHoodKeepsCoherent(db, cache.entityCache, cache.neighborCache, originId, d, dir);
      cache.SetNeighborhood(key, hood);
      result := Some(hood);
    }
  }

  ghost function SeqSet(s: seq<Id>): set<Id> {
    set x | x in s
  }

  lemma SeqSetSnoc(s: seq<Id>)
    ensures SeqSet(s[..0]) == {}
    ensures forall i :: 0 <= i < |s| ==> SeqSet(s[..i + 1]) == SeqSet(s[..i]) + {s[i]}
  {
    forall i | 0 <= i < |s| ensures SeqSet(s[..i + 1]) == SeqSet(s[..i]) + {s[i]} {
      assert s[..i + 1] == s[..i] + [s[i]];
    }
  }

  /** The stored far ends of a list of edges, seen from n. */
  ghost function Ends(db: Db, rows: seq<Id>, n: Id): set<Id>
    requires forall r :: r in rows ==> r in db.relationships
  {
    set r | r in rows && Other(db.relationships[r], n) in db.entities :: Other(db.relationships[r], n)
  }

  lemma EndsSnoc(db: Db, rows: seq<Id>, i: nat, n: Id)
    requires i < |rows| && forall r :: r in rows ==> r in db.relationships
    ensures forall xs :: xs + Ends(db, rows[..i + 1], n) == WithEnd(db, xs + Ends(db, rows[..i], n), n, rows[i])
    ensures SeqSet(rows[..i + 1]) == SeqSet(rows[..i]) + {rows[i]}
  {
    hide Other;
    assert rows[..i + 1] == rows[..i] + [rows[i]];
  }

  lemma EndsAll(db: Db, dir: Direction, n: Id, rows: seq<Id>)
    requires forall r :: r in rows <==> r in db.relationships && Expands(db.relationships[r], dir, n)
    ensures Ends(db, rows, n) == Neighbors(db, dir, {n}) && SeqSet(rows) == EdgesFrom(db, dir, {n})
    ensures Ends(db, rows[..0], n) == {} == SeqSet(rows[..0])
  {
    hide Neighbors, EdgesFrom, Expands, Other;
    NodeExpanded(db, dir, n, rows);
  }

  lemma SearchStarts(db: Db, dir: Direction, o: Id)
    ensures Within(db, dir, o, 0) == {o} && EdgesWithin(db, dir, o, 0) == {}
    ensures IsFrontier(db, dir, o, 0, SeqSet([o]))
    ensures o in db.entities ==> Rows(db, map[o := db.entities[o]], map[])
  {
  }

  lemma RootedWithin(db: Db, dir: Direction, o: Id, k: nat)
    ensures Rooted(db, dir, Within(db, dir, o, k), EdgesWithin(db, dir, o, k))
  {
    if k > 0 {
      forall r | r in EdgesWithin(db, dir, o, k) ensures RootedEdge(db.relationships[r], dir, Within(db, dir, o, k)) {
        var x :| x in Within(db, dir, o, k - 1) && Expands(db.relationships[r], dir, x);
        assert x in Within(db, dir, o, k);
      }
    }
  }

  lemma NextFrontier(db: Db, dir: Direction, o: Id, k: nat, next: seq<Id>)
    requires forall y :: y in next <==> y in Within(db, dir, o, k + 1) && y !in Within(db, dir, o, k)
    ensures IsFrontier(db, dir, o, k + 1, SeqSet(next))
  {
    WithinGrows(db, dir, o, k, k + 1);
    hide Within;
  }

  lemma IsFresh(db: Db, o: Id, d: nat, dir: Direction, nodes: map<Id, Entity>, edges: map<Id, Relationship>)
    requires o in db.entities && Rows(db, nodes, edges)
    requires nodes.Keys == Within(db, dir, o, d) && edges.Keys == EdgesWithin(db, dir, o, d)
    ensures Hood(db.entities[o], nodes - {o}, edges, d) == FreshHood(db, o, d, dir)
  {
    hide Within, EdgesWithin;
    var h := FreshHood(db, o, d, dir);
    assert (nodes - {o}) == h.nodes;
    assert edges == h.edges;
  }
}
