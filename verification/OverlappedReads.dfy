/**
 * Reads that overlap commits: a search, the fill of the cache and each hook of a commit are steps of their own, in any
 * order. Exactly when the cache stays honest.
 */
module OverlappedReads {
  import opened Wrappers
  import opened Records
  import opened EventStore
  import opened Neighborhood
  import opened GraphCache

  /** One invalidation that a commit has still to run. */
  datatype Hook = DropEntity(id: Id) | DropEdge(fromId: Id, toId: Id)

  datatype Race = Race(db: Db, ec: map<Id, Entity>, nc: map<string, Hood>, hooks: multiset<Hook>)

  /** A fill brings whatever answer its search came up with, however long ago and whatever committed meanwhile. */
  datatype Op =
    | Commit(batch: Batch)
    | RunHook(hook: Hook)
    | FillEntity(id: Id, row: Entity)
    | FillHood(originId: Id, depth: nat, dir: Direction, answer: Hood)
    | ExpireEntity(id: Id)
    | ExpireHood(key: string)

  function HooksOf(r: Result): multiset<Hook> {
    (if r.stale.Some? then multiset{DropEdge(r.stale.value.0, r.stale.value.1)} else multiset{})
    + (if r.operation != OpNoChange && r.entityId.Some? then multiset{DropEntity(r.entityId.value)} else multiset{})
  }

  function AllHooks(results: seq<Result>): multiset<Hook> {
    if results == [] then multiset{} else AllHooks(results[..|results| - 1]) + HooksOf(results[|results| - 1])
  }

  ghost predicate Drops(hook: Hook, h: Hood) {
    match hook
    case DropEntity(id) => Mentions(h, id)
    case DropEdge(from, to) => Mentions(h, from) || Mentions(h, to)
  }

  ghost predicate Enabled(w: Race, op: Op) {
    match op
    case RunHook(hook) => hook in w.hooks
    case FillHood(_, d, _, _) => d <= 5
    case _ => true
  }

  ghost function Next(schema: Schema, w: Race, op: Op): Race
    requires Enabled(w, op)
  {
    match op
    case Commit(b) =>
      var p := Prefix(schema, w.db, b, |b.mutations|);
      if p.Going? then w.(db := p.db, hooks := w.hooks + AllHooks(p.results)) else w
    case RunHook(hook) =>
      w.(ec := if hook.DropEntity? then w.ec - {hook.id} else w.ec,
         nc := map k | k in w.nc && !Drops(hook, w.nc[k]) :: w.nc[k],
         hooks := w.hooks - multiset{hook})
    case FillEntity(id, row) => w.(ec := w.ec[id := row])
    case FillHood(o, d, dir, h) => w.(nc := w.nc[NeighborhoodKey(o, d, dir) := h])
    case ExpireEntity(id) => w.(ec := w.ec - {id})
    case ExpireHood(key) => w.(nc := w.nc - {key})
  }

  // ---------------------------------------------------------------- right, or about to be dropped

  ghost predicate EntityCovered(w: Race, id: Id, row: Entity) {
    Lookup(w.db.entities, id) == Some(row) || DropEntity(id) in w.hooks
  }

  ghost predicate IsFreshAnswer(db: Db, o: Id, d: nat, dir: Direction, h: Hood) {
    o in db.entities && h == FreshHood(db, o, d, dir)
  }

  ghost predicate HoodCovered(w: Race, o: Id, d: nat, dir: Direction, h: Hood) {
    IsFreshAnswer(w.db, o, d, dir, h) || exists hook :: hook in w.hooks && Drops(hook, h)
  }

  ghost predicate CachedCovered(w: Race, o: Id, d: nat, dir: Direction) {
    Cached(w.nc, o, d, dir) ==> HoodCovered(w, o, d, dir, w.nc[NeighborhoodKey(o, d, dir)])
  }

  /** Every cached value is right, or some hook still to run will drop it. */
  ghost predicate Covered(w: Race) {
    && (forall id :: id in w.ec ==> EntityCovered(w, id, w.ec[id]))
    && (forall o, d, dir :: CachedCovered(w, o, d, dir))
  }

  /** A fill comes in time: what it brings is right, or a hook still to run will drop it. */
  ghost predicate Timely(w: Race, op: Op) {
    match op
    case FillEntity(id, row) => EntityCovered(w, id, row)
    case FillHood(o, d, dir, h) => HoodCovered(w, o, d, dir, h)
    case _ => true
  }

  ghost predicate Safely(schema: Schema, w: Race, op: Op) {
    op.Commit? ==> BatchMovesSafely(schema, w.db, op.batch)
  }

  lemma {:induction false} HookOfResult(results: seq<Result>, i: nat, hook: Hook)
    requires i < |results| && hook in HooksOf(results[i])
    ensures hook in AllHooks(results)
  {
    hide HooksOf;
    if i < |results| - 1 {
      HookOfResult(results[..|results| - 1], i, hook);
    }
  }

  /** An answer that some result does not spare is dropped by one of that result's hooks. */
  lemma NotSparedIsDropped(h: Hood, results: seq<Result>)
    requires !SparedByAll(h, results)
    ensures exists hook :: hook in AllHooks(results) && Drops(hook, h)
  {
    hide Mentions, AllHooks;
    var i :| 0 <= i < |results| && !Spared(h, results[i]);
    var r := results[i];
    var hook := if r.stale.Some? && (Mentions(h, r.stale.value.0) || Mentions(h, r.stale.value.1))
      then DropEdge(r.stale.value.0, r.stale.value.1) else DropEntity(r.entityId.value);
    assert hook in HooksOf(r) && Drops(hook, h);
    HookOfResult(results, i, hook);
  }

  /** Any answer, cached or on its way to the cache, stays covered until a hook that drops it has run. */
  lemma AnswerStaysCovered(schema: Schema, w: Race, op: Op, o: Id, d: nat, dir: Direction, h: Hood)
    requires Inv(w.db) && Enabled(w, op) && Safely(schema, w, op) && HoodCovered(w, o, d, dir, h)
    requires op.RunHook? ==> !Drops(op.hook, h)
    ensures HoodCovered(Next(schema, w, op), o, d, dir, h)
  {
    hide Inv, FreshHood, Drops, BatchMovesSafely, SparedByAll, NeighborhoodKey, Prefix, AllHooks;
    var w' := Next(schema, w, op);
    if hook :| hook in w.hooks && Drops(hook, h) {
      assert hook in w'.hooks;
    } else if op.Commit? {
      var p := Prefix(schema, w.db, op.batch, |op.batch.mutations|);
      if p.Going? {
        if SparedByAll(h, p.results) {
          PrefixIsLocal(schema, w.db, op.batch, |op.batch.mutations|, o, d, dir);
        } else {
          NotSparedIsDropped(h, p.results);
          var hook :| hook in AllHooks(p.results) && Drops(hook, h);
          assert hook in w'.hooks;
        }
      }
    }
  }

  lemma RowStaysCovered(schema: Schema, w: Race, op: Op, id: Id, row: Entity)
    requires Enabled(w, op) && EntityCovered(w, id, row) && op != RunHook(DropEntity(id))
    ensures EntityCovered(Next(schema, w, op), id, row)
  {
    hide Drops, Prefix, AllHooks, NeighborhoodKey;
    if op.Commit? {
      var n := |op.batch.mutations|;
      var p := Prefix(schema, w.db, op.batch, n);
      if p.Going? {
        if i :| 0 <= i < |p.results| && Names(p.results[i], id) {
          HookOfResult(p.results, i, DropEntity(id));
        } else {
          UnnamedRowStays(schema, w.db, op.batch, n, id);
        }
      }
    }
  }

  // ---------------------------------------------------------------- one entry, step by step

  /** The cached answer is wrong, and no hook will drop it. */
  ghost predicate Wrong(w: Race, o: Id, d: nat, dir: Direction) {
    !CachedCovered(w, o, d, dir)
  }

  /** A fill that comes too late. */
  ghost predicate Spoils(w: Race, op: Op, o: Id, d: nat, dir: Direction) {
    op.FillHood? && op.originId == o && op.depth == d && op.dir == dir && !HoodCovered(w, o, d, dir, op.answer)
  }

  /** The entry expires, is filled again, or a commit names it to a hook or makes it right again. */
  ghost predicate Repairs(schema: Schema, w: Race, op: Op, o: Id, d: nat, dir: Direction)
    requires Enabled(w, op) && Cached(w.nc, o, d, dir)
  {
    match op
    case ExpireHood(key) => key == NeighborhoodKey(o, d, dir)
    case FillHood(o', d', dir', _) => o' == o && d' == d && dir' == dir
    case Commit(_) => HoodCovered(Next(schema, w, op), o, d, dir, w.nc[NeighborhoodKey(o, d, dir)])
    case _ => false
  }

  /** An entry is wrong after a step exactly when the step spoils it, or it was wrong and is not repaired. */
  lemma WrongAfterStepIff(schema: Schema, w: Race, op: Op, o: Id, d: nat, dir: Direction)
    requires Inv(w.db) && Enabled(w, op) && Safely(schema, w, op) && d <= 5
    ensures Wrong(Next(schema, w, op), o, d, dir) <==>
            Spoils(w, op, o, d, dir) || (Wrong(w, o, d, dir) && !Repairs(schema, w, op, o, d, dir))
  {
    hide Inv, IsFreshAnswer, Drops, BatchMovesSafely, NeighborhoodKey, Prefix, AllHooks;
    var key, w' := NeighborhoodKey(o, d, dir), Next(schema, w, op);
    if op.FillHood? {
      KeysAreInjective(op.originId, op.depth, op.dir, o, d, dir);
    }
    if key in w.nc && key in w'.nc && w'.nc[key] == w.nc[key] {
      var h := w.nc[key];
      if HoodCovered(w, o, d, dir, h) {
        if op.RunHook? {
          assert !Drops(op.hook, h);
        }
        AnswerStaysCovered(schema, w, op, o, d, dir, h);
      } else if !op.Commit? {
        UncoveredUnlessCommit(schema, w, op, o, d, dir, h);
      }
    }
  }

  /** Nothing but a commit covers an answer that was not covered. */
  lemma UncoveredUnlessCommit(schema: Schema, w: Race, op: Op, o: Id, d: nat, dir: Direction, h: Hood)
    requires Enabled(w, op) && !op.Commit? && !HoodCovered(w, o, d, dir, h)
    ensures !HoodCovered(Next(schema, w, op), o, d, dir, h)
  {
    hide IsFreshAnswer, Drops, NeighborhoodKey;
    forall hook | hook in Next(schema, w, op).hooks ensures !Drops(hook, h) {
      assert hook in w.hooks;
    }
  }

  lemma RowAfterStep(schema: Schema, w: Race, op: Op, id: Id)
    requires Enabled(w, op) && (id in w.ec ==> EntityCovered(w, id, w.ec[id]))
    requires op.FillEntity? && op.id == id ==> EntityCovered(w, id, op.row)
    ensures var w' := Next(schema, w, op); id in w'.ec ==> EntityCovered(w', id, w'.ec[id])
  {
    hide Drops, Prefix, AllHooks, NeighborhoodKey, EntityCovered;
    var w' := Next(schema, w, op);
    if id in w'.ec {
      RowStaysCovered(schema, w, op, id, w'.ec[id]);
    }
  }

  /** A step keeps every cached value right or about to be dropped exactly when it is no late fill. */
  lemma StepKeepsCoveredIff(schema: Schema, w: Race, op: Op)
    requires Inv(w.db) && Covered(w) && Enabled(w, op) && Safely(schema, w, op)
    ensures Covered(Next(schema, w, op)) <==> Timely(w, op)
  {
    hide Inv, BatchMovesSafely, CachedCovered, HoodCovered, Repairs, NeighborhoodKey;
    var w' := Next(schema, w, op);
    if Timely(w, op) {
      hide Next;
      forall id | id in w'.ec ensures EntityCovered(w', id, w'.ec[id]) {
        RowAfterStep(schema, w, op, id);
      }
      forall o, d, dir ensures CachedCovered(w', o, d, dir) {
        if d <= 5 {
          WrongAfterStepIff(schema, w, op, o, d, dir);
        } else {
          TooDeepIsCovered(w', o, d, dir);
        }
      }
    } else if op.FillHood? {
      WrongAfterStepIff(schema, w, op, op.originId, op.depth, op.dir);
    } else {
      assert op.id in w'.ec && w'.ec[op.id] == op.row;
    }
  }

  lemma TooDeepIsCovered(w: Race, o: Id, d: nat, dir: Direction)
    requires d > 5
    ensures CachedCovered(w, o, d, dir)
  {
  }

  /** Any cached entity may vanish, and nothing else with it. */
  lemma EntitiesMayVanish(schema: Schema, w: Race, id: Id)
    ensures Next(schema, w, ExpireEntity(id)) == Race(w.db, w.ec - {id}, w.nc, w.hooks)
  {
  }

  lemma NextKeepsInv(schema: Schema, w: Race, op: Op)
    requires Inv(w.db) && Enabled(w, op)
    ensures Inv(Next(schema, w, op).db)
  {
    hide Inv, Prefix, AllHooks, Drops, NeighborhoodKey;
    if op.Commit? {
      PrefixKeepsInv(schema, w.db, op.batch, |op.batch.mutations|);
    }
  }

  // ---------------------------------------------------------------- whole runs

  const START := Race(EMPTY, map[], map[], multiset{})

  /** ws are the states of the run: each step can happen where it does, and moves edges safely. */
  ghost predicate IsRun(schema: Schema, ws: seq<Race>, ops: seq<Op>) {
    && |ws| == |ops| + 1 && ws[0] == START
    && forall i :: 0 <= i < |ops| ==> IsStep(schema, ws[i], ops[i], ws[i + 1])
  }

  ghost predicate IsStep(schema: Schema, w: Race, op: Op, w': Race) {
    Enabled(w, op) && Safely(schema, w, op) && w' == Next(schema, w, op)
  }

  lemma RunPrefix(schema: Schema, ws: seq<Race>, ops: seq<Op>)
    requires IsRun(schema, ws, ops) && ops != []
    ensures IsRun(schema, ws[..|ops|], ops[..|ops| - 1]) && IsStep(schema, ws[|ops| - 1], ops[|ops| - 1], ws[|ops|])
  {
    hide IsStep;
    forall i | 0 <= i < |ops| - 1 ensures IsStep(schema, ws[..|ops|][i], ops[..|ops| - 1][i], ws[..|ops|][i + 1]) {
      assert IsStep(schema, ws[i], ops[i], ws[i + 1]);
    }
  }

  lemma {:induction false} InvHolds(schema: Schema, ws: seq<Race>, ops: seq<Op>)
    requires IsRun(schema, ws, ops)
    ensures forall i :: 0 <= i < |ws| ==> Inv(ws[i].db)
    decreases |ops|
  {
    hide Inv, IsStep, IsRun;
    if ops == [] {
      assert |ws| == 1 && ws[0] == START by { OnlyStart(schema, ws); }
      RunKeepsInv(schema, []);
      assert Run(schema, []) == EMPTY;
    } else {
      var n := |ops|;
      assert |ws| == n + 1 by { RunLength(schema, ws, ops); }
      RunPrefix(schema, ws, ops);
      InvHolds(schema, ws[..n], ops[..n - 1]);
      assert Inv(ws[..n][n - 1].db);
      StepKeepsInv(schema, ws[n - 1], ops[n - 1], ws[n]);
      forall i | 0 <= i < |ws| ensures Inv(ws[i].db) {
        assert i < n ==> ws[..n][i] == ws[i];
      }
    }
  }

  lemma OnlyStart(schema: Schema, ws: seq<Race>)
    requires IsRun(schema, ws, [])
    ensures |ws| == 1 && ws[0] == START
  {
  }

  lemma RunLength(schema: Schema, ws: seq<Race>, ops: seq<Op>)
    requires IsRun(schema, ws, ops)
    ensures |ws| == |ops| + 1
  {
  }

  lemma StepKeepsInv(schema: Schema, w: Race, op: Op, w': Race)
    requires IsStep(schema, w, op, w') && Inv(w.db)
    ensures Inv(w'.db)
  {
    hide Inv, Next;
    NextKeepsInv(schema, w, op);
  }

  /** Some step of the run spoiled this entry, and no later one repaired it. */
  ghost predicate SpoiledFrom(schema: Schema, ws: seq<Race>, ops: seq<Op>, i: nat, o: Id, d: nat, dir: Direction) {
    && i < |ops| < |ws| && Spoils(ws[i], ops[i], o, d, dir)
    && forall k :: i < k < |ops| ==> Unrepaired(schema, ws[k], ops[k], o, d, dir)
  }

  ghost predicate Unrepaired(schema: Schema, w: Race, op: Op, o: Id, d: nat, dir: Direction) {
    Enabled(w, op) && Cached(w.nc, o, d, dir) && !Repairs(schema, w, op, o, d, dir)
  }

  ghost predicate Spoiled(schema: Schema, ws: seq<Race>, ops: seq<Op>, o: Id, d: nat, dir: Direction) {
    exists i: nat :: SpoiledFrom(schema, ws, ops, i, o, d, dir)
  }

  /** Appending one step spoils, keeps spoiled, or repairs. */
  lemma SpoiledSnoc(schema: Schema, ws: seq<Race>, ops: seq<Op>, o: Id, d: nat, dir: Direction)
    requires ops != [] && |ws| == |ops| + 1
    ensures var n := |ops|;
      Spoiled(schema, ws, ops, o, d, dir) <==>
        || Spoils(ws[n - 1], ops[n - 1], o, d, dir)
        || (Spoiled(schema, ws[..n], ops[..n - 1], o, d, dir) && Unrepaired(schema, ws[n - 1], ops[n - 1], o, d, dir))
  {
    hide Spoils, Unrepaired;
    var n := |ops|;
    var ws0, ops0 := ws[..n], ops[..n - 1];
    assert forall k :: 0 <= k < n - 1 ==> ws0[k] == ws[k] && ops0[k] == ops[k];
    if Spoiled(schema, ws, ops, o, d, dir) && !Spoils(ws[n - 1], ops[n - 1], o, d, dir) {
      var i: nat :| SpoiledFrom(schema, ws, ops, i, o, d, dir);
      assert SpoiledFrom(schema, ws0, ops0, i, o, d, dir);
    }
    if Spoils(ws[n - 1], ops[n - 1], o, d, dir) {
      assert SpoiledFrom(schema, ws, ops, n - 1, o, d, dir);
    } else if Spoiled(schema, ws0, ops0, o, d, dir) && Unrepaired(schema, ws[n - 1], ops[n - 1], o, d, dir) {
      var i: nat :| SpoiledFrom(schema, ws0, ops0, i, o, d, dir);
      assert SpoiledFrom(schema, ws, ops, i, o, d, dir);
    }
  }

  /** At the end of any run an entry is wrong for good exactly when it was spoiled and not repaired since. */
  lemma {:induction false} WrongIffSpoiled(schema: Schema, ws: seq<Race>, ops: seq<Op>, o: Id, d: nat, dir: Direction)
    requires IsRun(schema, ws, ops) && d <= 5
    ensures Wrong(ws[|ops|], o, d, dir) <==> Spoiled(schema, ws, ops, o, d, dir)
    decreases |ops|
  {
    hide Wrong, Spoils, Unrepaired, IsStep;
    if ops == [] {
      NothingWrongYet(o, d, dir);
    } else {
      var n := |ops|;
      RunPrefix(schema, ws, ops);
      WrongIffSpoiled(schema, ws[..n], ops[..n - 1], o, d, dir);
      SpoiledSnoc(schema, ws, ops, o, d, dir);
      InvHolds(schema, ws, ops);
      WrongAtStep(schema, ws[n - 1], ops[n - 1], ws[n], o, d, dir);
    }
  }

  lemma NothingWrongYet(o: Id, d: nat, dir: Direction)
    ensures !Wrong(START, o, d, dir)
  {
  }

  lemma WrongAtStep(schema: Schema, w: Race, op: Op, w': Race, o: Id, d: nat, dir: Direction)
    requires IsStep(schema, w, op, w') && Inv(w.db) && d <= 5
    ensures Wrong(w', o, d, dir) <==>
            Spoils(w, op, o, d, dir) || (Wrong(w, o, d, dir) && Unrepaired(schema, w, op, o, d, dir))
  {
    hide Inv, Next, Safely, Spoils, Repairs, HoodCovered;
    WrongAfterStepIff(schema, w, op, o, d, dir);
  }

  /**
   * Once no hook is left to run: a cached neighbourhood differs from an uncached read if and only if some search filled
   * it too late, after the hooks that would have dropped its answer, and it was not repaired since.
   */
  lemma WrongWhenQuietIff(schema: Schema, ws: seq<Race>, ops: seq<Op>, o: Id, d: nat, dir: Direction)
    requires IsRun(schema, ws, ops) && d <= 5 && ws[|ops|].hooks == multiset{}
    ensures var w := ws[|ops|];
      (Cached(w.nc, o, d, dir) && !FreshAt(w.db, w.nc, o, d, dir)) <==> Spoiled(schema, ws, ops, o, d, dir)
  {
    hide IsRun, Spoiled, FreshHood, Drops, NeighborhoodKey;
    assert |ws| == |ops| + 1 by { RunLength(schema, ws, ops); }
    WrongIffSpoiled(schema, ws, ops, o, d, dir);
  }

  /** When every fill comes in time, everything cached is right or about to be dropped, and right once all is quiet. */
  lemma {:induction false} TimelyRunIsHonest(schema: Schema, ws: seq<Race>, ops: seq<Op>)
    requires IsRun(schema, ws, ops) && forall i :: 0 <= i < |ops| ==> Timely(ws[i], ops[i])
    ensures Covered(ws[|ops|])
    ensures var w := ws[|ops|]; w.hooks == multiset{} ==> Coherent(w.db, w.ec, w.nc)
    decreases |ops|
  {
    hide Covered, Timely, Coherent, IsStep;
    var n := |ops|;
    if ops == [] {
      StartIsCovered();
    } else {
      RunPrefix(schema, ws, ops);
      forall i | 0 <= i < n - 1 ensures Timely(ws[..n][i], ops[..n - 1][i]) {
        assert Timely(ws[i], ops[i]);
      }
      TimelyRunIsHonest(schema, ws[..n], ops[..n - 1]);
      InvHolds(schema, ws, ops);
      TimelyStep(schema, ws[n - 1], ops[n - 1], ws[n]);
    }
    if ws[n].hooks == multiset{} {
      QuietIsCoherent(ws[n]);
    }
  }

  lemma StartIsCovered()
    ensures Covered(START)
  {
  }

  lemma TimelyStep(schema: Schema, w: Race, op: Op, w': Race)
    requires IsStep(schema, w, op, w') && Inv(w.db) && Covered(w) && Timely(w, op)
    ensures Covered(w')
  {
    hide Inv, Next, Covered, Timely, Safely;
    StepKeepsCoveredIff(schema, w, op);
  }

  lemma QuietIsCoherent(w: Race)
    requires Covered(w) && w.hooks == multiset{}
    ensures Coherent(w.db, w.ec, w.nc)
  {
    hide FreshHood, Drops, NeighborhoodKey;
    forall o, d, dir | Cached(w.nc, o, d, dir) ensures FreshAt(w.db, w.nc, o, d, dir) {
      assert CachedCovered(w, o, d, dir);
    }
  }

  // ---------------------------------------------------------------- which searches come in time

  /**
   * An answer that was right when it was found comes in time, whatever committed since, as long as no hook that
   * mentions it has run between the search and the fill.
   */
  lemma {:induction false} FoundThenFilled(schema: Schema, ws: seq<Race>, ops: seq<Op>, i: nat, k: nat, h: Hood)
    requires IsRun(schema, ws, ops) && i <= k < |ops|
    requires ops[k].FillHood? && ops[k].answer == h
    requires IsFreshAnswer(ws[i].db, ops[k].originId, ops[k].depth, ops[k].dir, h)
    requires forall j :: i <= j < k && ops[j].RunHook? ==> !Drops(ops[j].hook, h)
    ensures Timely(ws[k], ops[k])
  {
    hide IsFreshAnswer, Drops, IsStep;
    StillCovered(schema, ws, ops, i, k, ops[k].originId, ops[k].depth, ops[k].dir, h);
  }

  lemma {:induction false} StillCovered(schema: Schema, ws: seq<Race>, ops: seq<Op>, i: nat, k: nat, o: Id, d: nat,
                                        dir: Direction, h: Hood)
    requires IsRun(schema, ws, ops) && i <= k < |ops| && IsFreshAnswer(ws[i].db, o, d, dir, h)
    requires forall j :: i <= j < k && ops[j].RunHook? ==> !Drops(ops[j].hook, h)
    ensures HoodCovered(ws[k], o, d, dir, h)
    decreases k
  {
    hide IsFreshAnswer, Drops, Safely, Next, Inv, Enabled;
    if i < k {
      StillCovered(schema, ws, ops, i, k - 1, o, d, dir, h);
      InvHolds(schema, ws, ops);
      assert IsStep(schema, ws[k - 1], ops[k - 1], ws[k]);
      AnswerStaysCovered(schema, ws[k - 1], ops[k - 1], o, d, dir, h);
    }
  }

  // ---------------------------------------------------------------- a run that goes wrong

  const ROW := Entity("a", "SERVICE", "", "a", "n", 1.0, true, ACTIVE, 1, None, 1, map[])
  const CREATE := Batch("t1", [UpsertEntity(Some(ROW))], Clock)
  const DELETE := Batch("t2", [SoftDeleteEntity("a")], Clock)

  /** A batch of one mutation commits what that mutation does, and leaves its hooks to run. */
  lemma CommitOne(schema: Schema, w: Race, b: Batch)
    requires |b.mutations| == 1 && ApplyOne(schema, w.db, b.txn, b.mutations[0], b.clock(0)).Done?
    ensures var s := ApplyOne(schema, w.db, b.txn, b.mutations[0], b.clock(0));
      Next(schema, w, Commit(b)) == w.(db := s.db, hooks := w.hooks + HooksOf(s.result))
  {
    hide ApplyOne, HooksOf, Drops;
    var s := ApplyOne(schema, w.db, b.txn, b.mutations[0], b.clock(0));
    assert Prefix(schema, w.db, b, 0) == Going(w.db, []);
    assert Prefix(schema, w.db, b, 1) == Going(s.db, [s.result]);
    assert AllHooks([s.result][..0]) == multiset{};
    assert AllHooks([s.result]) == HooksOf(s.result);
  }

  lemma CreateAndDelete()
    ensures var s := ApplyOne(PERMISSIVE, EMPTY, "t1", CREATE.mutations[0], Clock(0));
      && s.Done? && s.db.entities == map["a" := ROW] && HooksOf(s.result) == multiset{DropEntity("a")}
      && var t := ApplyOne(PERMISSIVE, s.db, "t2", DELETE.mutations[0], Clock(0));
         && t.Done? && "a" in t.db.entities && t.db.entities["a"] != ROW
         && HooksOf(t.result) == multiset{DropEntity("a")}
    ensures MovesSafely(PERMISSIVE, EMPTY, CREATE.mutations[0])
    ensures forall db :: MovesSafely(PERMISSIVE, db, DELETE.mutations[0])
  {
  }

  lemma OneMovesSafely(schema: Schema, db: Db, b: Batch)
    requires |b.mutations| == 1 && MovesSafely(schema, db, b.mutations[0])
    ensures BatchMovesSafely(schema, db, b)
  {
    assert Prefix(schema, db, b, 0) == Going(db, []);
    hide ApplyOne;
  }

  lemma RunAway(schema: Schema, w: Race, hook: Hook)
    requires w.ec == map[] && w.nc == map[] && w.hooks == multiset{hook}
    ensures Next(schema, w, RunHook(hook)) == w.(hooks := multiset{})
  {
    var w' := Next(schema, w, RunHook(hook));
    assert w'.ec == map[] && w'.nc == map[] && w'.hooks == multiset{};
  }

  /**
   * From the empty store: create an entity, search its neighbourhood, delete the entity, let all hooks run, then fill
   * the cache with what the search had found. All is quiet and the cache answers wrongly, at any depth and direction.
   */
  lemma LateFillRun(d: nat, dir: Direction) returns (ws: seq<Race>, ops: seq<Op>)
    requires d <= 5
    ensures IsRun(PERMISSIVE, ws, ops) && |ops| == 5 && ops[4].FillHood?
    ensures IsFreshAnswer(ws[2].db, "a", d, dir, ops[4].answer)
    ensures ws[5].hooks == multiset{} && !Coherent(ws[5].db, ws[5].ec, ws[5].nc)
  {
    hide ApplyOne, FreshHood, NeighborhoodKey, BatchMovesSafely, MovesSafely, Coherent, IsRun, HooksOf, Next;
    CreateAndDelete();
    var s := PERMISSIVE;
    var hook := DropEntity("a");
    var first := ApplyOne(s, EMPTY, "t1", CREATE.mutations[0], Clock(0));
    var db1 := first.db;
    var db2 := ApplyOne(s, db1, "t2", DELETE.mutations[0], Clock(0)).db;
    assert "a" in db1.entities;
    var h := FreshHood(db1, "a", d, dir);
    var w1, w2 := Race(db1, map[], map[], multiset{hook}), Race(db1, map[], map[], multiset{});
    var w3, w4 := Race(db2, map[], map[], multiset{hook}), Race(db2, map[], map[], multiset{});
    var w5 := Race(db2, map[], map[NeighborhoodKey("a", d, dir) := h], multiset{});
    ops := [Commit(CREATE), RunHook(hook), Commit(DELETE), RunHook(hook), FillHood("a", d, dir, h)];
    ws := [START, w1, w2, w3, w4, w5];
    CommitOne(s, START, CREATE);
    OneMovesSafely(s, EMPTY, CREATE);
    RunAway(s, w1, hook);
    CommitOne(s, w2, DELETE);
    OneMovesSafely(s, db1, DELETE);
    RunAway(s, w3, hook);
    FillOnce(s, w4, d, dir, h);
    FiveSteps(s, ws, ops);
    LateAnswerIsWrong(db1, w5, d, dir, h);
  }

  lemma FillOnce(schema: Schema, w: Race, d: nat, dir: Direction, h: Hood)
    requires d <= 5 && w.nc == map[]
    ensures Next(schema, w, FillHood("a", d, dir, h)) == w.(nc := map[NeighborhoodKey("a", d, dir) := h])
  {
    hide NeighborhoodKey;
  }

  lemma FiveSteps(schema: Schema, ws: seq<Race>, ops: seq<Op>)
    requires |ops| == 5 && |ws| == 6 && ws[0] == START
    requires IsStep(schema, ws[0], ops[0], ws[1]) && IsStep(schema, ws[1], ops[1], ws[2])
    requires IsStep(schema, ws[2], ops[2], ws[3]) && IsStep(schema, ws[3], ops[3], ws[4])
    requires IsStep(schema, ws[4], ops[4], ws[5])
    ensures IsRun(schema, ws, ops)
  {
    hide IsStep;
    forall i | 0 <= i < 5 ensures IsStep(schema, ws[i], ops[i], ws[i + 1]) {
      assert i == 0 || i == 1 || i == 2 || i == 3 || i == 4;
    }
  }

  lemma LateAnswerIsWrong(db: Db, w: Race, d: nat, dir: Direction, h: Hood)
    requires d <= 5 && "a" in db.entities && h == FreshHood(db, "a", d, dir)
    requires "a" in w.db.entities && w.db.entities["a"] != db.entities["a"]
    requires w.nc == map[NeighborhoodKey("a", d, dir) := h]
    ensures !Coherent(w.db, w.ec, w.nc)
  {
    hide NeighborhoodKey;
    assert Cached(w.nc, "a", d, dir) && !FreshAt(w.db, w.nc, "a", d, dir);
  }
}
