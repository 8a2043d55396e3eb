/**
 * A snapshot reads the log's cut, the entities and the relationships in three queries; batches may commit in between.
 * Exactly which commits it tolerates.
 */
module SnapshotReads {
  import opened Records
  import opened EventStore
  import opened Replay

  ghost predicate HoldsEntities(s: GraphState, log: seq<Entry>) {
    UniqueEntities(s.entities) && forall id :: EntityMatches(FindEntity(s, id), LastEntity(log, id))
  }

  ghost predicate HoldsRels(s: GraphState, log: seq<Entry>) {
    UniqueRels(s.relationships) && forall id :: RelMatches(FindRel(s, id), LastRel(log, id))
  }

  predicate CreatesEntity(e: Entry) {
    e.change.EntityChange? && e.change.op == Created
  }

  predicate CreatesRel(e: Entry) {
    e.change.RelChange? && e.change.op == Created
  }

  /** The rows read hold no id whose creation the replay will repeat: n entries were in when entities were read. */
  ghost predicate NothingCreated(log: seq<Entry>, cut: nat, n: nat)
    requires n <= |log|
  {
    && (forall i :: cut <= i < n ==> !CreatesEntity(log[i]))
    && (forall i :: cut <= i < |log| ==> !CreatesRel(log[i]))
  }

  /** Past the cut, an entry of this id no later than `at`: the replay overwrites it at every instant from there. */
  ghost predicate EntityOverwritten(log: seq<Entry>, cut: nat, at: Time, id: Id) {
    exists i :: cut <= i < |log| && OnEntity(log[i], id) && log[i].occurredAt <= at
  }

  ghost predicate RelOverwritten(log: seq<Entry>, cut: nat, at: Time, id: Id) {
    exists i :: cut <= i < |log| && OnRel(log[i], id) && log[i].occurredAt <= at
  }

  /**
   * What a snapshot of instant `at` may have seen: the cut, entities after n entries, relationships after the whole
   * log. Nothing it holds was created past the cut, and what it holds is no newer than its instant unless overwritten.
   */
  ghost predicate Tolerates(log: seq<Entry>, at: Time, cut: nat, n: nat)
    requires n <= |log|
  {
    && NothingCreated(log, cut, n)
    && (forall id :: NoLaterThan(EntityStamp(log[..n], id), at) || EntityOverwritten(log, cut, at, id))
    && (forall id :: NoLaterThan(RelStamp(log, id), at) || RelOverwritten(log, cut, at, id))
  }

  /** From the last read on, every restore that picks the snapshot, after any further history, is right. */
  ghost predicate RestoresAlways(s: GraphState, cut: nat, log: seq<Entry>, at: Time) {
    forall later, asOf :: at <= asOf && Disciplined(log + later) ==>
      IsAsOf(ReplayFrom(s, AfterCut(log + later, cut, asOf)), log + later, asOf)
  }

  // ---------------------------------------------------------------- what a filtered log still says

  lemma {:induction false} KeptIff(log: seq<Entry>, t: Time, id: Id)
    ensures LastEntity(UpTo(log, t), id).Some? <==> EntityOverwritten(log, 0, t, id)
    ensures LastRel(UpTo(log, t), id).Some? <==> RelOverwritten(log, 0, t, id)
  {
    if log != [] {
      var init, e := log[..|log| - 1], log[|log| - 1];
      assert forall i :: 0 <= i < |init| ==> init[i] == log[i];
      KeptIff(init, t, id);
      LastSnoc(UpTo(init, t), e);
      assert UpTo(init, t) + [] == UpTo(init, t);
      hide UpTo, LastEntity, LastRel;
      assert EntityOverwritten(log, 0, t, id) <==>
             EntityOverwritten(init, 0, t, id) || (OnEntity(e, id) && e.occurredAt <= t);
      assert RelOverwritten(log, 0, t, id) <==>
             RelOverwritten(init, 0, t, id) || (OnRel(e, id) && e.occurredAt <= t);
    }
  }

  /** The part of the log that a restore replays says something of an id exactly when it is overwritten. */
  lemma SuffixKeptIff(log: seq<Entry>, cut: nat, t: Time, id: Id)
    requires cut <= |log|
    ensures LastEntity(UpTo(log[cut..], t), id).Some? <==> EntityOverwritten(log, cut, t, id)
    ensures LastRel(UpTo(log[cut..], t), id).Some? <==> RelOverwritten(log, cut, t, id)
  {
    hide UpTo, LastEntity, LastRel, OnEntity, OnRel;
    var rest := log[cut..];
    KeptIff(rest, t, id);
    if EntityOverwritten(log, cut, t, id) {
      var i :| cut <= i < |log| && OnEntity(log[i], id) && log[i].occurredAt <= t;
      assert OnEntity(rest[i - cut], id) && rest[i - cut].occurredAt <= t;
    }
    if EntityOverwritten(rest, 0, t, id) {
      var i :| 0 <= i < |rest| && OnEntity(rest[i], id) && rest[i].occurredAt <= t;
      assert OnEntity(log[cut + i], id) && log[cut + i].occurredAt <= t;
    }
    if RelOverwritten(log, cut, t, id) {
      var i :| cut <= i < |log| && OnRel(log[i], id) && log[i].occurredAt <= t;
      assert OnRel(rest[i - cut], id) && rest[i - cut].occurredAt <= t;
    }
    if RelOverwritten(rest, 0, t, id) {
      var i :| 0 <= i < |rest| && OnRel(rest[i], id) && rest[i].occurredAt <= t;
      assert OnRel(log[cut + i], id) && log[cut + i].occurredAt <= t;
    }
  }

  lemma UpToSplit(log: seq<Entry>, cut: nat, t: Time)
    requires cut <= |log|
    ensures UpTo(log, t) == UpTo(log[..cut], t) + UpTo(log[cut..], t)
    ensures forall id :: LastEntity(UpTo(log, t), id) ==
              if LastEntity(UpTo(log[cut..], t), id).Some? then LastEntity(UpTo(log[cut..], t), id)
              else LastEntity(UpTo(log[..cut], t), id)
    ensures forall id :: LastRel(UpTo(log, t), id) ==
              if LastRel(UpTo(log[cut..], t), id).Some? then LastRel(UpTo(log[cut..], t), id)
              else LastRel(UpTo(log[..cut], t), id)
  {
    hide UpTo, LastEntity, LastRel;
    assert log == log[..cut] + log[cut..];
    UpToConcat(log[..cut], log[cut..], t);
    LastConcat(UpTo(log[..cut], t), UpTo(log[cut..], t));
  }

  // ---------------------------------------------------------------- a creation in between is replayed twice

  /** Replay never takes an id away from a slot. */
  ghost predicate GrowsFrom(s: GraphState, s': GraphState) {
    && |s.entities| <= |s'.entities| && |s.relationships| <= |s'.relationships|
    && (forall i :: 0 <= i < |s.entities| ==> s'.entities[i].id == s.entities[i].id)
    && (forall i :: 0 <= i < |s.relationships| ==> s'.relationships[i].id == s.relationships[i].id)
  }

  lemma {:induction false} ReplayGrows(s: GraphState, log: seq<Entry>)
    ensures GrowsFrom(s, ReplayFrom(s, log))
  {
    hide EntitySlot, RelSlot;
    if log != [] {
      ReplayGrows(s, log[..|log| - 1]);
    }
  }

  lemma {:induction false} ReplayConcat(s: GraphState, a: seq<Entry>, b: seq<Entry>)
    ensures ReplayFrom(s, a + b) == ReplayFrom(ReplayFrom(s, a), b)
  {
    hide ReplayEntry;
    if b == [] {
      assert a + b == a;
    } else {
      assert (a + b)[..|a + b| - 1] == a + b[..|b| - 1];
      ReplayConcat(s, a, b[..|b| - 1]);
    }
  }

  lemma ReplaySplit(s: GraphState, a: seq<Entry>, e: Entry, b: seq<Entry>)
    ensures ReplayFrom(s, a + [e] + b) == ReplayFrom(ReplayEntry(ReplayFrom(s, a), e.change), b)
  {
    hide ReplayEntry;
    ReplayConcat(s, a + [e], b);
    assert (a + [e])[..|a|] == a;
  }

  /** Replaying the creation of an id that is there already leaves it twice. */
  lemma CreatedTwice(s: GraphState, a: seq<Entry>, e: Entry, b: seq<Entry>)
    requires CreatesEntity(e) ==> FindEntity(s, e.change.after.id).Some?
    requires CreatesRel(e) ==> FindRel(s, e.change.afterRel.id).Some?
    requires CreatesEntity(e) || CreatesRel(e)
    ensures !UniqueIds(ReplayFrom(s, a + [e] + b))
  {
    hide ReplayFrom, EntitySlot, RelSlot;
    ReplaySplit(s, a, e, b);
    var s1 := ReplayFrom(s, a);
    var s2 := ReplayEntry(s1, e.change);
    var s3 := ReplayFrom(s2, b);
    ReplayGrows(s, a);
    ReplayGrows(s2, b);
    if CreatesEntity(e) {
      var i, j := EntitySlot(s.entities, e.change.after.id), |s1.entities|;
      assert s3.entities[i].id == s3.entities[j].id && i < j;
    } else {
      var i, j := RelSlot(s.relationships, e.change.afterRel.id), |s1.relationships|;
      assert s3.relationships[i].id == s3.relationships[j].id && i < j;
    }
  }

  lemma UpToAround(log: seq<Entry>, cut: nat, i: nat, t: Time)
    requires cut <= i < |log| && log[i].occurredAt <= t
    ensures UpTo(log[cut..], t) == UpTo(log[cut..i], t) + [log[i]] + UpTo(log[i + 1..], t)
  {
    hide UpTo;
    assert log[cut..] == log[cut..i + 1] + log[i + 1..] && log[cut..i + 1] == log[cut..i] + [log[i]];
    UpToConcat(log[cut..i + 1], log[i + 1..], t);
    UpToSnoc(log[cut..i], log[i], t);
  }

  lemma LoggedIsLast(log: seq<Entry>, n: nat, i: nat)
    requires i < n <= |log|
    ensures log[i].change.EntityChange? ==> LastEntity(log[..n], log[i].change.id).Some?
    ensures log[i].change.RelChange? ==> LastRel(log[..n], log[i].change.id).Some?
  {
    hide LastEntity, LastRel;
    assert log[..n] == log[..i + 1] + log[i + 1..n] && log[..i + 1] == log[..i] + [log[i]];
    LastSnoc(log[..i], log[i]);
    LastConcat(log[..i + 1], log[i + 1..n]);
  }

  /** So a snapshot that holds an id created past its cut fails as soon as that creation is replayed. */
  lemma CreationFails(s: GraphState, log: seq<Entry>, cut: nat, n: nat, at: Time)
    requires Disciplined(log) && cut <= n <= |log| && HoldsEntities(s, log[..n]) && HoldsRels(s, log)
    requires !NothingCreated(log, cut, n)
    ensures !RestoresAlways(s, cut, log, at)
  {
    hide LastEntity, LastRel, UniqueIds, FindEntity, FindRel, Disciplined, AfterCut, ReplayFrom, AsOf, UpTo;
    var i: nat :| cut <= i < |log| && ((CreatesEntity(log[i]) && i < n) || CreatesRel(log[i]));
    var e := log[i];
    EachContinues(log, i);
    LoggedIsLast(log, |log|, i);
    if i < n {
      LoggedIsLast(log, n, i);
    }
    assert log[..|log|] == log;
    assert CreatesEntity(e) ==> EntityMatches(FindEntity(s, e.change.id), LastEntity(log[..n], e.change.id));
    assert CreatesRel(e) ==> RelMatches(FindRel(s, e.change.id), LastRel(log, e.change.id));
    var asOf := if e.occurredAt <= at then at else e.occurredAt;
    UpToAround(log, cut, i, asOf);
    CreatedTwice(s, UpTo(log[cut..i], asOf), e, UpTo(log[i + 1..], asOf));
    AfterCutIsSuffix(log, cut, asOf);
    assert log + [] == log;
    assert !IsAsOf(ReplayFrom(s, AfterCut(log + [], cut, asOf)), log + [], asOf);
  }

  // ---------------------------------------------------------------- without one, every id is as replayed or as read

  /** No entry past the cut creates what the rows hold, so they all fit over the rows. */
  lemma {:induction false} TornFits(s: GraphState, log: seq<Entry>, cut: nat, n: nat, all: nat, m: nat, asOf: Time)
    requires Disciplined(log) && cut <= n <= all <= |log| && cut <= m <= |log|
    requires HoldsEntities(s, log[..n]) && HoldsRels(s, log[..all]) && NothingCreated(log[..all], cut, n)
    ensures Replayable(s, UpTo(log[cut..m], asOf))
    decreases m
  {
    hide HoldsEntities, HoldsRels, Disciplined, UpTo, FitsAfter, NothingCreated;
    if cut < m {
      TornFits(s, log, cut, n, all, m - 1, asOf);
      assert log[cut..m] == log[cut..m - 1] + [log[m - 1]];
      UpToSnoc(log[cut..m - 1], log[m - 1], asOf);
      TornEntryFits(s, log, cut, n, all, m - 1, asOf);
      ReplayableSnoc(s, UpTo(log[cut..m - 1], asOf), log[m - 1]);
    } else {
      assert log[cut..m] == [];
      UpToNone(asOf);
    }
  }

  lemma TornEntryFits(s: GraphState, log: seq<Entry>, cut: nat, n: nat, all: nat, i: nat, asOf: Time)
    requires Disciplined(log) && cut <= n <= all <= |log| && cut <= i < |log|
    requires HoldsEntities(s, log[..n]) && HoldsRels(s, log[..all]) && NothingCreated(log[..all], cut, n)
    ensures FitsAfter(s, UpTo(log[cut..i], asOf), log[i].change)
  {
    hide LastEntity, LastRel, FindEntity, FindRel, UniqueEntities, UniqueRels, Disciplined, UpTo;
    var e := log[i];
    assert i < all ==> log[..all][i] == e;
    EachContinues(log, i);
    assert log[..i] == log[..cut] + log[cut..i];
    LastConcat(log[..cut], log[cut..i]);
    FilterForgetsNoId(log[cut..i], asOf);
    if CreatesEntity(e) {
      assert log[..i] == log[..n] + log[n..i];
      LastConcat(log[..n], log[n..i]);
      assert EntityMatches(FindEntity(s, e.change.id), LastEntity(log[..n], e.change.id));
    } else if CreatesRel(e) {
      assert log[..i] == log[..all] + log[all..i];
      LastConcat(log[..all], log[all..i]);
      assert RelMatches(FindRel(s, e.change.id), LastRel(log[..all], e.change.id));
    }
  }

  /** What a restore finds, by id: the last replayed entry, or else the row as it was read. */
  lemma TornRestore(s: GraphState, log: seq<Entry>, cut: nat, n: nat, all: nat, asOf: Time)
    requires Disciplined(log) && cut <= n <= all <= |log|
    requires HoldsEntities(s, log[..n]) && HoldsRels(s, log[..all]) && NothingCreated(log[..all], cut, n)
    ensures var r, rest := ReplayFrom(s, AfterCut(log, cut, asOf)), UpTo(log[cut..], asOf);
      && UniqueIds(r) && UniqueIds(AsOf(log, asOf))
      && (forall id :: FindEntity(r, id) ==
            if LastEntity(rest, id).Some? then LastEntity(rest, id) else FindEntity(s, id))
      && (forall id :: FindRel(r, id) == if LastRel(rest, id).Some? then LastRel(rest, id) else FindRel(s, id))
      && (forall id :: FindEntity(AsOf(log, asOf), id) == LastEntity(UpTo(log, asOf), id))
      && (forall id :: FindRel(AsOf(log, asOf), id) == LastRel(UpTo(log, asOf), id))
  {
    hide LastEntity, LastRel, FindEntity, FindRel, Replayable, ReplayFrom, Disciplined, UpTo, AfterCut, NothingCreated;
    TornFits(s, log, cut, n, all, |log|, asOf);
    assert log[cut..|log|] == log[cut..];
    hide UniqueEntities, UniqueRels, EntityMatches, RelMatches;
    ReplayIsLast(s, UpTo(log[cut..], asOf));
    AfterCutIsSuffix(log, cut, asOf);
    assert log[..0] == [] && log[0..] == log;
    NothingHolds();
    SuffixFits(NOTHING, log, 0, asOf);
    ReplayIsLast(NOTHING, UpTo(log, asOf));
    FindNothing();
  }

  /** Read before the cut or at it, and no newer than the instant: the row is what the restore should find. */
  lemma ReadIsRight(log: seq<Entry>, cut: nat, n: nat, at: Time, asOf: Time, id: Id)
    requires cut <= n <= |log| && at <= asOf
    ensures NoLaterThan(EntityStamp(log[..n], id), at) && !EntityOverwritten(log, cut, asOf, id) ==>
              LastEntity(UpTo(log[..cut], asOf), id) == LastEntity(log[..n], id)
    ensures NoLaterThan(RelStamp(log[..n], id), at) && !RelOverwritten(log, cut, asOf, id) ==>
              LastRel(UpTo(log[..cut], asOf), id) == LastRel(log[..n], id)
  {
    hide LastEntity, LastRel, UpTo, EntityStamp, RelStamp;
    SettledKept(log[..n], at, asOf, id);
    OverwrittenInPrefix(log, cut, n, asOf, id);
    SuffixKeptIff(log[..n], cut, asOf, id);
    UpToSplit(log[..n], cut, asOf);
    assert log[..n][..cut] == log[..cut];
  }

  lemma OverwrittenInPrefix(log: seq<Entry>, cut: nat, n: nat, t: Time, id: Id)
    requires n <= |log|
    ensures EntityOverwritten(log[..n], cut, t, id) ==> EntityOverwritten(log, cut, t, id)
    ensures RelOverwritten(log[..n], cut, t, id) ==> RelOverwritten(log, cut, t, id)
  {
    hide OnEntity, OnRel;
    assert forall i :: 0 <= i < n ==> log[..n][i] == log[i];
  }

  lemma OverwrittenLater(log: seq<Entry>, later: seq<Entry>, cut: nat, at: Time, asOf: Time, id: Id)
    requires at <= asOf
    ensures EntityOverwritten(log, cut, at, id) ==> EntityOverwritten(log + later, cut, asOf, id)
    ensures RelOverwritten(log, cut, at, id) ==> RelOverwritten(log + later, cut, asOf, id)
  {
    hide OnEntity, OnRel;
    assert forall i :: 0 <= i < |log| ==> (log + later)[i] == log[i];
  }

  /** Newer than the instant and not overwritten: at the instant itself the restore finds the wrong version. */
  lemma ReadIsWrong(log: seq<Entry>, cut: nat, n: nat, at: Time, id: Id)
    requires Disciplined(log) && cut <= n <= |log|
    ensures !NoLaterThan(EntityStamp(log[..n], id), at) && !EntityOverwritten(log, cut, at, id) ==>
              var kept, last := LastEntity(UpTo(log[..cut], at), id), LastEntity(log[..n], id);
              last.Some? && (kept.Some? ==> kept.value.version < last.value.version)
    ensures !NoLaterThan(RelStamp(log[..n], id), at) && !RelOverwritten(log, cut, at, id) ==>
              var kept, last := LastRel(UpTo(log[..cut], at), id), LastRel(log[..n], id);
              last.Some? && (kept.Some? ==> kept.value.version < last.value.version)
  {
    hide LastEntity, LastRel, UpTo, EntityStamp, RelStamp, Disciplined;
    DisciplinedPrefix(log, n);
    FilteredVersion(log[..n], at, id);
    FilteredRelVersion(log[..n], at, id);
    StampedIsLogged(log[..n], id);
    OverwrittenInPrefix(log, cut, n, at, id);
    SuffixKeptIff(log[..n], cut, at, id);
    UpToSplit(log[..n], cut, at);
    assert log[..n][..cut] == log[..cut];
  }

  // ---------------------------------------------------------------- exactly when

  lemma ToleratedRestores(s: GraphState, log: seq<Entry>, cut: nat, n: nat, at: Time, later: seq<Entry>, asOf: Time)
    requires Disciplined(log + later) && cut <= n <= |log| && at <= asOf
    requires HoldsEntities(s, log[..n]) && HoldsRels(s, log) && Tolerates(log, at, cut, n)
    ensures IsAsOf(ReplayFrom(s, AfterCut(log + later, cut, asOf)), log + later, asOf)
  {
    hide LastEntity, LastRel, UpTo, EntityStamp, RelStamp, Disciplined, FindEntity, FindRel, UniqueIds, AsOf,
      ReplayFrom, AfterCut, NothingCreated, EntityOverwritten, RelOverwritten, UniqueEntities, UniqueRels;
    var all := log + later;
    assert all[..|log|] == log && all[..n] == log[..n];
    TornRestore(s, all, cut, n, |log|, asOf);
    UpToSplit(all, cut, asOf);
    var r := ReplayFrom(s, AfterCut(all, cut, asOf));
    forall id
      ensures EntityMatches(FindEntity(r, id), FindEntity(AsOf(all, asOf), id))
      ensures RelMatches(FindRel(r, id), FindRel(AsOf(all, asOf), id))
    {
      SuffixKeptIff(all, cut, asOf, id);
      OverwrittenLater(log, later, cut, at, asOf, id);
      ReadIsRight(all, cut, n, at, asOf, id);
      ReadIsRight(all, cut, |log|, at, asOf, id);
      assert EntityMatches(FindEntity(s, id), LastEntity(log[..n], id));
      assert RelMatches(FindRel(s, id), LastRel(log, id));
      assert NoLaterThan(EntityStamp(log[..n], id), at) || EntityOverwritten(log, cut, at, id);
      assert NoLaterThan(RelStamp(log, id), at) || RelOverwritten(log, cut, at, id);
    }
  }

  /** An id read too new, with no creation to repeat, is wrong in the restore at the snapshot's own instant. */
  lemma TooNewFails(s: GraphState, log: seq<Entry>, cut: nat, n: nat, at: Time, id: Id)
    requires Disciplined(log) && cut <= n <= |log|
    requires HoldsEntities(s, log[..n]) && HoldsRels(s, log) && NothingCreated(log, cut, n)
    requires (!NoLaterThan(EntityStamp(log[..n], id), at) && !EntityOverwritten(log, cut, at, id))
          || (!NoLaterThan(RelStamp(log, id), at) && !RelOverwritten(log, cut, at, id))
    ensures !RestoresAlways(s, cut, log, at)
  {
    hide LastEntity, LastRel, UpTo, EntityStamp, RelStamp, Disciplined, FindEntity, FindRel, UniqueIds, AsOf,
      ReplayFrom, AfterCut, NothingCreated, EntityOverwritten, RelOverwritten, UniqueEntities, UniqueRels;
    assert log[..|log|] == log && log + [] == log;
    TornRestore(s, log, cut, n, |log|, at);
    UpToSplit(log, cut, at);
    SuffixKeptIff(log, cut, at, id);
    ReadIsWrong(log, cut, n, at, id);
    ReadIsWrong(log, cut, |log|, at, id);
    assert EntityMatches(FindEntity(s, id), LastEntity(log[..n], id));
    assert RelMatches(FindRel(s, id), LastRel(log, id));
    assert !IsAsOf(ReplayFrom(s, AfterCut(log + [], cut, at)), log + [], at);
  }

  /**
   * A snapshot whose three reads saw the log at three lengths is right in every later restore if and only if what it
   * saw is tolerable.
   */
  lemma ToleratedIff(s: GraphState, log: seq<Entry>, cut: nat, n: nat, at: Time)
    requires Disciplined(log) && cut <= n <= |log| && HoldsEntities(s, log[..n]) && HoldsRels(s, log)
    ensures Tolerates(log, at, cut, n) <==> RestoresAlways(s, cut, log, at)
  {
    hide Disciplined, HoldsEntities, HoldsRels, IsAsOf, NothingCreated, ReplayFrom, AfterCut, NoLaterThan,
      EntityOverwritten, RelOverwritten, RestoresAlways;
    if !NothingCreated(log, cut, n) {
      CreationFails(s, log, cut, n, at);
    } else if !Tolerates(log, at, cut, n) {
      var id :| !((NoLaterThan(EntityStamp(log[..n], id), at) || EntityOverwritten(log, cut, at, id))
                && (NoLaterThan(RelStamp(log, id), at) || RelOverwritten(log, cut, at, id)));
      TooNewFails(s, log, cut, n, at, id);
    } else {
      ToleratedAlways(s, log, cut, n, at);
    }
  }

  lemma ToleratedAlways(s: GraphState, log: seq<Entry>, cut: nat, n: nat, at: Time)
    requires cut <= n <= |log| && HoldsEntities(s, log[..n]) && HoldsRels(s, log) && Tolerates(log, at, cut, n)
    ensures RestoresAlways(s, cut, log, at)
  {
    hide Disciplined, HoldsEntities, HoldsRels, IsAsOf, Tolerates, ReplayFrom, AfterCut;
    forall later, asOf | at <= asOf && Disciplined(log + later)
      ensures IsAsOf(ReplayFrom(s, AfterCut(log + later, cut, asOf)), log + later, asOf)
    {
      ToleratedRestores(s, log, cut, n, at, later, asOf);
    }
  }

  /** Between the reads, no entity changes before the entities are read, and no relationship at all. */
  ghost predicate OnlyHarmless(log: seq<Entry>, start: nat, n: nat)
    requires n <= |log|
  {
    && (forall i :: start <= i < n ==> !log[i].change.EntityChange?)
    && (forall i :: start <= i < |log| ==> !log[i].change.RelChange?)
  }

  /**
   * The usual clock: everything logged before the first read is no later than the instant, everything after is. Then
   * exactly these commits in between do harm: any change of an entity before the entities are read, and any change of
   * a relationship before the relationships are read.
   */
  lemma HarmfulCommits(log: seq<Entry>, start: nat, n: nat, at: Time)
    requires Disciplined(log) && start <= n <= |log|
    requires forall i :: 0 <= i < |log| ==> (log[i].occurredAt <= at <==> i < start)
    ensures CutAt(log[..start], at) == start
    ensures Tolerates(log, at, start, n) <==> OnlyHarmless(log, start, n)
  {
    hide Disciplined, EntityStamp, RelStamp;
    TakenAfterEverything(log[..start], at);
    DisciplinedPrefix(log, start);
    SettledCut(log[..start], at);
    forall id ensures !EntityOverwritten(log, start, at, id) && !RelOverwritten(log, start, at, id) {
    }
    forall id ensures NoLaterThan(EntityStamp(log[..n], id), at)
                 <==> forall i :: start <= i < n ==> !OnEntity(log[i], id) {
      StampIn(log, start, n, at, id);
    }
    assert log[..|log|] == log;
    forall id ensures NoLaterThan(RelStamp(log, id), at)
                 <==> forall i :: start <= i < |log| ==> !OnRel(log[i], id) {
      StampIn(log, start, |log|, at, id);
    }
    if Tolerates(log, at, start, n) {
      forall i | start <= i < n ensures !log[i].change.EntityChange? {
        assert NoLaterThan(EntityStamp(log[..n], log[i].change.id), at);
      }
      forall i | start <= i < |log| ensures !log[i].change.RelChange? {
        assert NoLaterThan(RelStamp(log, log[i].change.id), at);
      }
    }
  }

  lemma {:induction false} StampIn(log: seq<Entry>, start: nat, n: nat, at: Time, id: Id)
    requires start <= n <= |log| && forall i :: 0 <= i < n ==> (log[i].occurredAt <= at <==> i < start)
    ensures NoLaterThan(EntityStamp(log[..n], id), at) <==> forall i :: start <= i < n ==> !OnEntity(log[i], id)
    ensures NoLaterThan(RelStamp(log[..n], id), at) <==> forall i :: start <= i < n ==> !OnRel(log[i], id)
    decreases n
  {
    if n > 0 {
      assert log[..n][..n - 1] == log[..n - 1] && log[..n][n - 1] == log[n - 1];
      if start < n {
        StampIn(log, start, n - 1, at, id);
      } else {
        StampIn(log, start - 1, n - 1, at, id);
      }
    }
  }

  /** Reads in one piece: tolerable exactly when no id's last entry is newer than the instant. */
  lemma AtOnceIff(log: seq<Entry>, at: Time)
    requires Disciplined(log)
    ensures Tolerates(log, at, CutAt(log, at), |log|) <==> SettledBy(log, at)
  {
    hide Disciplined, EntityStamp, RelStamp;
    assert log[..|log|] == log;
    forall id ensures !EntityOverwritten(log, CutAt(log, at), at, id) && !RelOverwritten(log, CutAt(log, at), at, id) {
      NothingPastCutAt(log, at, id);
    }
    if SettledBy(log, at) {
      SettledCut(log, at);
    }
  }

  lemma NothingPastCutAt(log: seq<Entry>, at: Time, id: Id)
    requires Disciplined(log)
    ensures !EntityOverwritten(log, CutAt(log, at), at, id) && !RelOverwritten(log, CutAt(log, at), at, id)
  {
    hide Disciplined, CutAt;
    CutIsGreatest(log, at);
    forall i: nat | i < |log| ensures log[i].entryId == i + 1 {
      EntryIds(log, i);
    }
  }

  /**
   * So a snapshot read in one piece is safe for every later restore exactly when no id's last entry is newer than
   * its instant.
   */
  lemma SnapshotSafeIff(s: GraphState, log: seq<Entry>, at: Time)
    requires Disciplined(log) && Holds(s, log)
    ensures SettledBy(log, at) <==> RestoresAlways(s, CutAt(log, at), log, at)
  {
    hide Disciplined, Tolerates, RestoresAlways, SettledBy, FindEntity, FindRel, UniqueEntities, UniqueRels;
    assert log[..|log|] == log;
    assert HoldsEntities(s, log) && HoldsRels(s, log);
    CutBounded(log, at);
    AtOnceIff(log, at);
    ToleratedIff(s, log, CutAt(log, at), |log|, at);
  }
}
