/** The state of the graph as of an instant, said of the log entries themselves. */
module StateAt {
  import opened Wrappers
  import opened Records
  import opened EventStore
  import opened Replay

  /** The last entry on this entity that is no later than asOf. */
  ghost predicate LastEntityBy(log: seq<Entry>, asOf: Time, id: Id, i: int) {
    && 0 <= i < |log| && log[i].change.EntityChange? && log[i].change.id == id && log[i].occurredAt <= asOf
    && forall k :: i < k < |log| && log[k].change.EntityChange? && log[k].change.id == id ==> log[k].occurredAt > asOf
  }

  ghost predicate LastRelBy(log: seq<Entry>, asOf: Time, id: Id, i: int) {
    && 0 <= i < |log| && log[i].change.RelChange? && log[i].change.id == id && log[i].occurredAt <= asOf
    && forall k :: i < k < |log| && log[k].change.RelChange? && log[k].change.id == id ==> log[k].occurredAt > asOf
  }

  /** The logged state, but that a deleted row and its entry bear different stamps. */
  ghost predicate EntityLike(row: Entity, logged: Entity) {
    row == logged.(validTo := row.validTo) && (row.isActive ==> row.validTo == logged.validTo)
  }

  ghost predicate RelLike(row: Relationship, logged: Relationship) {
    row == logged.(validTo := row.validTo) && (row.isActive ==> row.validTo == logged.validTo)
  }

  ghost predicate EntityIsLast(log: seq<Entry>, asOf: Time, e: Entity) {
    exists i :: LastEntityBy(log, asOf, e.id, i) && EntityLike(e, log[i].change.after)
  }

  ghost predicate RelIsLast(log: seq<Entry>, asOf: Time, x: Relationship) {
    exists i :: LastRelBy(log, asOf, x.id, i) && RelLike(x, log[i].change.afterRel)
  }

  /**
   * No id twice; an entity or relationship is there exactly when some entry on it is no later than asOf, and then as
   * the last such entry left it.
   */
  ghost predicate IsStateAt(r: GraphState, log: seq<Entry>, asOf: Time) {
    && (forall i, j :: 0 <= i < j < |r.entities| ==> r.entities[i].id != r.entities[j].id)
    && (forall i, j :: 0 <= i < j < |r.relationships| ==> r.relationships[i].id != r.relationships[j].id)
    && (forall e :: e in r.entities ==> EntityIsLast(log, asOf, e))
    && (forall x :: x in r.relationships ==> RelIsLast(log, asOf, x))
    && (forall id, i :: LastEntityBy(log, asOf, id, i) ==> exists e :: e in r.entities && e.id == id)
    && (forall id, i :: LastRelBy(log, asOf, id, i) ==> exists x :: x in r.relationships && x.id == id)
  }

  lemma {:induction false} LastKept(log: seq<Entry>, asOf: Time, id: Id)
    ensures forall i :: LastEntityBy(log, asOf, id, i) ==> LastEntity(UpTo(log, asOf), id) == Some(log[i].change.after)
    ensures forall i :: LastRelBy(log, asOf, id, i) ==> LastRel(UpTo(log, asOf), id) == Some(log[i].change.afterRel)
    ensures LastEntity(UpTo(log, asOf), id).Some? ==> exists i :: LastEntityBy(log, asOf, id, i)
    ensures LastRel(UpTo(log, asOf), id).Some? ==> exists i :: LastRelBy(log, asOf, id, i)
  {
    if log != [] {
      var n := |log| - 1;
      var init, e := log[..n], log[n];
      LastKept(init, asOf, id);
      UpToSnoc(init, e, asOf);
      LastSnoc(UpTo(init, asOf), e);
      assert init + [e] == log;
      hide UpTo, LastEntity, LastRel;
      assert forall i :: 0 <= i < n ==> init[i] == log[i];
      LastBySnoc(log, asOf, id);
    }
  }

  lemma LastBySnoc(log: seq<Entry>, asOf: Time, id: Id)
    requires log != []
    ensures var n := |log| - 1;
      if OnEntity(log[n], id) && log[n].occurredAt <= asOf
      then LastEntityBy(log, asOf, id, n) && forall i :: LastEntityBy(log, asOf, id, i) ==> i == n
      else forall i :: LastEntityBy(log, asOf, id, i) <==> LastEntityBy(log[..n], asOf, id, i)
    ensures var n := |log| - 1;
      if OnRel(log[n], id) && log[n].occurredAt <= asOf
      then LastRelBy(log, asOf, id, n) && forall i :: LastRelBy(log, asOf, id, i) ==> i == n
      else forall i :: LastRelBy(log, asOf, id, i) <==> LastRelBy(log[..n], asOf, id, i)
  {
    var init := log[..|log| - 1];
    assert forall i :: 0 <= i < |init| ==> init[i] == log[i];
  }

  lemma FoundIsListed(r: GraphState, id: Id)
    ensures FindEntity(r, id).Some? ==> FindEntity(r, id).value in r.entities && FindEntity(r, id).value.id == id
    ensures FindRel(r, id).Some? ==> FindRel(r, id).value in r.relationships && FindRel(r, id).value.id == id
    ensures UniqueIds(r) ==> forall e :: e in r.entities && e.id == id ==> FindEntity(r, id) == Some(e)
    ensures UniqueIds(r) ==> forall x :: x in r.relationships && x.id == id ==> FindRel(r, id) == Some(x)
  {
  }

  lemma IdAsOf(r: GraphState, log: seq<Entry>, asOf: Time, id: Id)
    requires Disciplined(log) && IsAsOf(r, log, asOf)
    ensures forall e :: e in r.entities && e.id == id ==> EntityIsLast(log, asOf, e)
    ensures forall x :: x in r.relationships && x.id == id ==> RelIsLast(log, asOf, x)
    ensures (exists i :: LastEntityBy(log, asOf, id, i)) ==> exists e :: e in r.entities && e.id == id
    ensures (exists i :: LastRelBy(log, asOf, id, i)) ==> exists x :: x in r.relationships && x.id == id
  {
    hide Disciplined, UpTo, LastEntity, LastRel, FindEntity, FindRel, AsOf, LastEntityBy, LastRelBy, UniqueIds;
    FindsAsOf(log, asOf);
    LastKept(log, asOf, id);
    FoundIsListed(r, id);
    assert EntityMatches(FindEntity(r, id), FindEntity(AsOf(log, asOf), id));
    assert RelMatches(FindRel(r, id), FindRel(AsOf(log, asOf), id));
  }

  /** What time travel promises, said of the entries themselves. */
  lemma AsOfIsStateAt(r: GraphState, log: seq<Entry>, asOf: Time)
    requires Disciplined(log) && IsAsOf(r, log, asOf)
    ensures IsStateAt(r, log, asOf)
  {
    hide Disciplined, UpTo, FindEntity, FindRel, AsOf, LastEntityBy, LastRelBy, UniqueIds, EntityIsLast, RelIsLast;
    UniqueMeans(r);
    forall e | e in r.entities ensures EntityIsLast(log, asOf, e) {
      IdAsOf(r, log, asOf, e.id);
    }
    forall x | x in r.relationships ensures RelIsLast(log, asOf, x) {
      IdAsOf(r, log, asOf, x.id);
    }
    forall id, i | LastEntityBy(log, asOf, id, i) ensures exists e :: e in r.entities && e.id == id {
      IdAsOf(r, log, asOf, id);
    }
    forall id, i | LastRelBy(log, asOf, id, i) ensures exists x :: x in r.relationships && x.id == id {
      IdAsOf(r, log, asOf, id);
    }
  }

  lemma UniqueMeans(r: GraphState)
    requires UniqueIds(r)
    ensures forall i, j :: 0 <= i < j < |r.entities| ==> r.entities[i].id != r.entities[j].id
    ensures forall i, j :: 0 <= i < j < |r.relationships| ==> r.relationships[i].id != r.relationships[j].id
  {
  }

  lemma FindsAsOf(log: seq<Entry>, asOf: Time)
    requires Disciplined(log)
    ensures forall id :: FindEntity(AsOf(log, asOf), id) == LastEntity(UpTo(log, asOf), id)
    ensures forall id :: FindRel(AsOf(log, asOf), id) == LastRel(UpTo(log, asOf), id)
  {
    hide LastEntity, LastRel, FindEntity, FindRel, Replayable, ReplayFrom, Disciplined, UpTo;
    assert log[..0] == [] && log[0..] == log;
    NothingHolds();
    SuffixFits(NOTHING, log, 0, asOf);
    ReplayIsLast(NOTHING, UpTo(log, asOf));
    FindNothing();
  }
}
