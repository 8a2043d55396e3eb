/** When moving an edge leaves a wrong answer in the cache, and a run that gets there. */
module StaleCache {
  import opened Wrappers
  import opened Records
  import opened EventStore
  import opened Neighborhood
  import opened GraphCache
  import opened ReadPath

  /** One update of a stored relationship, and nothing else. */
  ghost predicate IsMove(schema: Schema, db: Db, b: Batch, r: Relationship) {
    && b.mutations == [UpsertRelationship(Some(r))] && RelRow(schema, r).id in db.relationships
    && Prefix(schema, db, b, 1).Going?
  }

  /** The update writes the row and names only its new endpoints to the hooks. */
  lemma MoveWrites(schema: Schema, db: Db, b: Batch, r: Relationship)
    requires IsMove(schema, db, b, r) && !RelEqualForUpdate(db.relationships[RelRow(schema, r).id], RelRow(schema, r))
    ensures var row, p := RelRow(schema, r), Prefix(schema, db, b, 1);
      && p.results == [Result(OpUpdated, None, Some((row.fromId, row.toId)))]
      && p.db.entities == db.entities
      && p.db.relationships == db.relationships[row.id := row.(version := db.relationships[row.id].version + 1)]
  {
    hide Logged;
    assert Prefix(schema, db, b, 0) == Going(db, []);
  }

  /**
   * The failure, in the cache: after the old end's one-step neighbourhood was read, moving the edge to ends outside
   * it leaves that entry cached and different from what an uncached read returns.
   */
  lemma MoveLeavesStaleEntry(schema: Schema, w: World, b: Batch, r: Relationship, side: Direction, x: Id)
    requires Inv(w.db) && IsMove(schema, w.db, b, r) && side != Both
    requires var row := RelRow(schema, r);
      && Expands(w.db.relationships[row.id], side, x)
      && row.fromId !in Ball(w.db, side, x) && row.toId !in Ball(w.db, side, x)
    ensures var w' := Next(schema, Next(schema, w, ReadHood(x, 1, side)), Commit(b));
      && NeighborhoodKey(x, 1, side) in w'.nc && x in w'.db.entities
      && w'.nc[NeighborhoodKey(x, 1, side)] != FreshHood(w'.db, x, 1, side)
      && !Coherent(w'.db, w'.ec, w'.nc)
  {
    var row, p := RelRow(schema, r), Prefix(schema, w.db, b, 1);
    assert row.id in w.db.relationships;
    MoveDiffers(w.db, w.db.relationships[row.id], row, side, x);
    MoveWrites(schema, w.db, b, r);
    var written := row.(version := w.db.relationships[row.id].version + 1);
    InvParts(w.db);
    hide *;
    UnsafeUpdateLeavesStale(w.db, p.db, written, side, x);
    var h, key := FreshHood(w.db, x, 1, side), NeighborhoodKey(x, 1, side);
    assert SparedByAll(h, p.results) by { SurvivesHooks(w.db, written, x, side, p.results); }
    ReadThenCommit(schema, w, b, x, side);
    var w' := Next(schema, Next(schema, w, ReadHood(x, 1, side)), Commit(b));
    StaleIsIncoherent(w', x, side);
  }

  /** An edge moved away from the surroundings of its old end is not the same edge. */
  lemma MoveDiffers(db: Db, e: Relationship, row: Relationship, side: Direction, x: Id)
    requires side != Both && Expands(e, side, x) && row.fromId !in Ball(db, side, x) && row.toId !in Ball(db, side, x)
    ensures !RelEqualForUpdate(e, row)
  {
    hide Neighbors;
    assert x in Ball(db, side, x);
  }

  /** An answer without the new ends outlives the hooks of the update. */
  lemma SurvivesHooks(db: Db, row: Relationship, x: Id, side: Direction, results: seq<Result>)
    requires Survivor(db, row, x, 1, side) && results == [Result(OpUpdated, None, Some((row.fromId, row.toId)))]
    ensures SparedByAll(FreshHood(db, x, 1, side), results)
  {
    hide FreshHood, Mentions;
  }

  /** The entry that was read is still there after the commit, with the answer of before. */
  lemma ReadThenCommit(schema: Schema, w: World, b: Batch, x: Id, side: Direction)
    requires x in w.db.entities && |b.mutations| == 1 && Prefix(schema, w.db, b, 1).Going?
    requires SparedByAll(FreshHood(w.db, x, 1, side), Prefix(schema, w.db, b, 1).results)
    ensures var w' := Next(schema, Next(schema, w, ReadHood(x, 1, side)), Commit(b));
      && w'.db == Prefix(schema, w.db, b, 1).db && NeighborhoodKey(x, 1, side) in w'.nc
      && w'.nc[NeighborhoodKey(x, 1, side)] == FreshHood(w.db, x, 1, side)
  {
    hide Prefix, FreshHood, NeighborhoodKey, SparedByAll, NamedIn;
  }

  lemma StaleIsIncoherent(w: World, x: Id, side: Direction)
    requires NeighborhoodKey(x, 1, side) in w.nc && x in w.db.entities
    requires w.nc[NeighborhoodKey(x, 1, side)] != FreshHood(w.db, x, 1, side)
    ensures !Coherent(w.db, w.ec, w.nc)
  {
    hide FreshHood, NeighborhoodKey;
    assert Cached(w.nc, x, 1, side) && !FreshAt(w.db, w.nc, x, 1, side);
  }

  /** Whatever was cached honestly before, the commit and its hooks leave the cache honest. */
  ghost predicate SafeForEveryCache(schema: Schema, db: Db, b: Batch) {
    forall ec, nc :: Coherent(db, ec, nc) ==> StaysCoherent(schema, World(db, ec, nc), b)
  }

  ghost predicate StaysCoherent(schema: Schema, w: World, b: Batch) {
    var w' := Next(schema, w, Commit(b)); Coherent(w'.db, w'.ec, w'.nc)
  }

  /** Committing an update keeps every coherent cache coherent if and only if the update is safe. */
  lemma MoveSafeForCacheIff(schema: Schema, db: Db, b: Batch, r: Relationship)
    requires Inv(db) && IsMove(schema, db, b, r)
    ensures UpdateSafe(db, db.relationships[RelRow(schema, r).id], RelRow(schema, r))
        <==> SafeForEveryCache(schema, db, b)
  {
    hide Inv, Next, Coherent, Prefix, UpdateSafe, Ball;
    var row := RelRow(schema, r);
    var e := db.relationships[row.id];
    if UpdateSafe(db, e, row) {
      assert BatchMovesSafely(schema, db, b) by { OnlyMove(schema, db, b, r); }
      forall ec, nc | Coherent(db, ec, nc) ensures StaysCoherent(schema, World(db, ec, nc), b) {
        NextKeepsCoherent(schema, World(db, ec, nc), Commit(b));
      }
    } else {
      var side, x := UnsafeSide(db, e, row);
      var empty := World(db, map[], map[]);
      assert Coherent(db, map[], map[]) by { EmptyIsCoherent(db); }
      var w1 := Next(schema, empty, ReadHood(x, 1, side));
      NextKeepsCoherent(schema, empty, ReadHood(x, 1, side));
      assert w1.db == db by { ReadKeepsStore(schema, empty, x, side); }
      MoveLeavesStaleEntry(schema, empty, b, r, side, x);
      assert !StaysCoherent(schema, World(db, w1.ec, w1.nc), b);
    }
  }

  lemma OnlyMove(schema: Schema, db: Db, b: Batch, r: Relationship)
    requires IsMove(schema, db, b, r)
    requires UpdateSafe(db, db.relationships[RelRow(schema, r).id], RelRow(schema, r))
    ensures BatchMovesSafely(schema, db, b)
  {
    hide UpdateSafe, ApplyOne;
    assert Prefix(schema, db, b, 0) == Going(db, []);
  }

  lemma UnsafeSide(db: Db, e: Relationship, row: Relationship) returns (side: Direction, x: Id)
    requires !UpdateSafe(db, e, row)
    ensures side != Both && Expands(e, side, x) && row.fromId !in Ball(db, side, x) && row.toId !in Ball(db, side, x)
  {
    hide Ball;
    if row.fromId !in Ball(db, Outbound, e.fromId) && row.toId !in Ball(db, Outbound, e.fromId) {
      side, x := Outbound, e.fromId;
    } else {
      side, x := Inbound, e.toId;
    }
  }

  lemma EmptyIsCoherent(db: Db)
    ensures Coherent(db, map[], map[])
  {
    hide FreshHood;
  }

  lemma ReadKeepsStore(schema: Schema, w: World, x: Id, side: Direction)
    ensures Next(schema, w, ReadHood(x, 1, side)).db == w.db
  {
    hide FreshHood, NeighborhoodKey;
  }

  // ---------------------------------------------------------------- a run that reaches it

  function Thing(id: Id): Mutation {
    UpsertEntity(Some(Entity(id, "SERVICE", "", id, "n", 1.0, true, ACTIVE, 1, None, 0, map[])))
  }

  function Link(from: Id, to: Id): Relationship {
    Relationship("r", "CALLS", from, to, 1.0, true, 1, None, 0, map[])
  }

  const SETUP := Batch("t1",
    [Thing("a"), Thing("b"), Thing("c"), Thing("d"), UpsertRelationship(Some(Link("a", "b")))], Clock)
  const MOVE := Batch("t2", [UpsertRelationship(Some(Link("c", "d")))], Clock)

  const IDS: seq<Id> := ["a", "b", "c", "d"]

  lemma ThingCreated(db: Db, txn: string, id: Id, tick: Tick)
    requires id != "" && id !in db.entities
    ensures var s := ApplyOne(PERMISSIVE, db, txn, Thing(id), tick);
      s.Done? && s.db.entities.Keys == db.entities.Keys + {id} && s.db.relationships == db.relationships
  {
  }

  lemma {:induction false} SetupPrefix(k: nat)
    requires k <= 4
    ensures var p := Prefix(PERMISSIVE, EMPTY, SETUP, k);
      && p.Going? && p.db.relationships == map[]
      && p.db.entities.Keys == set i | 0 <= i < k :: IDS[i]
  {
    if k > 0 {
      SetupPrefix(k - 1);
      var p := Prefix(PERMISSIVE, EMPTY, SETUP, k - 1);
      SetupStep(k - 1);
      hide ApplyOne, Thing;
      ThingCreated(p.db, "t1", IDS[k - 1], Clock(k - 1));
    }
  }

  lemma SetupStep(i: nat)
    requires i < 4
    ensures SETUP.mutations[i] == Thing(IDS[i]) && IDS[i] != ""
    ensures forall j :: 0 <= j < i ==> IDS[j] != IDS[i]
  {
    hide Thing;
  }

  lemma LinkCreated(db: Db)
    requires db.relationships == map[] && "a" in db.entities && "b" in db.entities
    ensures var s := ApplyOne(PERMISSIVE, db, "t1", UpsertRelationship(Some(Link("a", "b"))), Clock(4));
      && s.Done? && s.db.entities == db.entities && s.db.relationships.Keys == {"r"}
      && s.db.relationships["r"] == Link("a", "b").(version := 1)
  {
  }

  /** After the set-up: four entities, one edge from the first to the second. */
  lemma SetupDone()
    ensures var db := Run(PERMISSIVE, [SETUP]);
      && db == Committed(PERMISSIVE, EMPTY, SETUP) && Prefix(PERMISSIVE, EMPTY, SETUP, 5).Going?
      && db.entities.Keys == {"a", "b", "c", "d"} && db.relationships.Keys == {"r"}
      && db.relationships["r"] == Link("a", "b").(version := 1)
  {
    SetupPrefix(4);
    var p := Prefix(PERMISSIVE, EMPTY, SETUP, 4);
    assert IDS[0] == "a" && IDS[1] == "b" && IDS[2] == "c" && IDS[3] == "d";
    assert (set i | 0 <= i < 4 :: IDS[i]) == {"a", "b", "c", "d"};
    LinkCreated(p.db);
    assert SETUP.mutations[4] == UpsertRelationship(Some(Link("a", "b")));
    assert [SETUP][..0] == [];
    assert Run(PERMISSIVE, []) == EMPTY;
    hide ApplyOne;
  }

  /** The update names stored ends, so it goes through. */
  lemma MoveApplies(db: Db)
    requires db.entities.Keys == {"a", "b", "c", "d"} && "r" in db.relationships
    ensures IsMove(PERMISSIVE, db, MOVE, Link("c", "d")) && RelRow(PERMISSIVE, Link("c", "d")) == Link("c", "d")
  {
    assert Prefix(PERMISSIVE, db, MOVE, 0) == Going(db, []);
    assert ApplyOne(PERMISSIVE, db, "t2", MOVE.mutations[0], Clock(0)).Done?;
  }

  lemma FarFromA(db: Db)
    requires db.relationships.Keys == {"r"} && db.relationships["r"] == Link("a", "b").(version := 1)
    ensures "c" !in Ball(db, Outbound, "a") && "d" !in Ball(db, Outbound, "a")
    ensures Expands(db.relationships["r"], Outbound, "a")
  {
    assert "a" != "c" && "a" != "d" && "b" != "c" && "b" != "d";
  }

  /** From the empty store: create four entities and an edge, read, move the edge; the cache now answers wrongly. */
  lemma StaleRun()
    ensures var ops := [Commit(SETUP), ReadHood("a", 1, Outbound), Commit(MOVE)];
      var w := Worlds(PERMISSIVE, ops);
      Inv(w.db) && !Coherent(w.db, w.ec, w.nc)
  {
    var s, ops := PERMISSIVE, [Commit(SETUP), ReadHood("a", 1, Outbound), Commit(MOVE)];
    assert ops[0] == Commit(SETUP) && ops[1] == ReadHood("a", 1, Outbound) && ops[2] == Commit(MOVE);
    UnrollWorlds(s, ops);
    var start := Worlds(s, [Commit(SETUP)]);
    SetupDone();
    hide Worlds, Next, Prefix, ApplyOne, Inv, Coherent, Ball, FreshHood, IsMove, NeighborhoodKey, Run, Committed;
    RunKeepsInv(s, [SETUP]);
    MoveApplies(start.db);
    FarFromA(start.db);
    MoveLeavesStaleEntry(s, start, MOVE, Link("c", "d"), Outbound, "a");
    CommitKeepsInv(s, Next(s, start, ReadHood("a", 1, Outbound)), MOVE);
    ReadKeepsStore(s, start, "a", Outbound);
  }

  lemma CommitKeepsInv(schema: Schema, w: World, b: Batch)
    requires Inv(w.db)
    ensures Inv(Next(schema, w, Commit(b)).db)
  {
    hide Inv, Prefix;
    PrefixKeepsInv(schema, w.db, b, |b.mutations|);
  }

  lemma UnrollWorlds(schema: Schema, ops: seq<Op>)
    requires |ops| == 3 && ops[0].Commit?
    ensures Worlds(schema, ops) == Next(schema, Next(schema, Worlds(schema, [ops[0]]), ops[1]), ops[2])
    ensures Worlds(schema, [ops[0]]).db == Committed(schema, EMPTY, ops[0].batch)
  {
    hide Prefix, NeighborhoodKey, FreshHood;
    assert ops[..2][..1] == [ops[0]] && [ops[0]][..0] == [];
    assert Worlds(schema, []) == World(EMPTY, map[], map[]);
  }
}
