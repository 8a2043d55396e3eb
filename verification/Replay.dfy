/** Rebuilding graph state from the log: replay, snapshots, and time travel. */
module Replay {
  import opened Wrappers
  import opened Records
  import opened EventStore

  datatype GraphState = GraphState(entities: seq<Entity>, relationships: seq<Relationship>)

  const NOTHING := GraphState([], [])

  /** The slot of the first entity with this id, or the length. */
  function EntitySlot(es: seq<Entity>, id: Id): (k: nat)
    ensures k <= |es| && (k < |es| ==> es[k].id == id)
    ensures forall i :: 0 <= i < k ==> es[i].id != id
  {
    if es == [] || es[0].id == id then 0 else 1 + EntitySlot(es[1..], id)
  }

  function RelSlot(rs: seq<Relationship>, id: Id): (k: nat)
    ensures k <= |rs| && (k < |rs| ==> rs[k].id == id)
    ensures forall i :: 0 <= i < k ==> rs[i].id != id
  {
    if rs == [] || rs[0].id == id then 0 else 1 + RelSlot(rs[1..], id)
  }

  function PutEntity(es: seq<Entity>, e: Entity): seq<Entity> {
    var k := EntitySlot(es, e.id);
    if k < |es| then es[k := e] else es + [e]
  }

  function PutRel(rs: seq<Relationship>, r: Relationship): seq<Relationship> {
    var k := RelSlot(rs, r.id);
    if k < |rs| then rs[k := r] else rs + [r]
  }

  /** One log entry over the list state: creations append without looking, the rest overwrite or append. */
  function ReplayEntry(s: GraphState, c: Change): GraphState {
    match c
    case EntityChange(op, _, _, after) =>
      s.(entities := if op == Created then s.entities + [after] else PutEntity(s.entities, after))
    case RelChange(op, _, _, after) =>
      s.(relationships := if op == Created then s.relationships + [after] else PutRel(s.relationships, after))
  }

  function ReplayFrom(s: GraphState, log: seq<Entry>): GraphState {
    if log == [] then s else ReplayEntry(ReplayFrom(s, log[..|log| - 1]), log[|log| - 1].change)
  }

  /** The entries no later than asOf, in log order. */
  function UpTo(log: seq<Entry>, asOf: Time): seq<Entry> {
    if log == [] then []
    else
      var e := log[|log| - 1];
      UpTo(log[..|log| - 1], asOf) + (if e.occurredAt <= asOf then [e] else [])
  }

  // ---------------------------------------------------------------- list states, by id

  ghost predicate UniqueIds(s: GraphState) {
    UniqueEntities(s.entities) && UniqueRels(s.relationships)
  }

  function FindEntity(s: GraphState, id: Id): Option<Entity> {
    FirstEntity(s.entities, id)
  }

  function FindRel(s: GraphState, id: Id): Option<Relationship> {
    FirstRel(s.relationships, id)
  }

  /** Replayable: entries name the state they carry; a creation is its id's first entry, also over the base. */
  ghost predicate Replayable(s: GraphState, log: seq<Entry>) {
    forall i :: 0 <= i < |log| ==> FitsAfter(s, log[..i], log[i].change)
  }

  ghost predicate FitsAfter(s: GraphState, past: seq<Entry>, c: Change) {
    match c
    case EntityChange(op, id, _, after) =>
      after.id == id && (op == Created ==> LastEntity(past, id) == None && FindEntity(s, id) == None)
    case RelChange(op, id, _, after) =>
      after.id == id && (op == Created ==> LastRel(past, id) == None && FindRel(s, id) == None)
  }

  lemma {:induction false} EntitySlotUnique(es: seq<Entity>, id: Id, k: nat)
    requires k < |es| && es[k].id == id && forall i :: 0 <= i < k ==> es[i].id != id
    ensures EntitySlot(es, id) == k
  {
  }

  lemma {:induction false} RelSlotUnique(rs: seq<Relationship>, id: Id, k: nat)
    requires k < |rs| && rs[k].id == id && forall i :: 0 <= i < k ==> rs[i].id != id
    ensures RelSlot(rs, id) == k
  {
  }

  function FirstEntity(es: seq<Entity>, id: Id): Option<Entity> {
    var k := EntitySlot(es, id);
    if k < |es| then Some(es[k]) else None
  }

  function FirstRel(rs: seq<Relationship>, id: Id): Option<Relationship> {
    var k := RelSlot(rs, id);
    if k < |rs| then Some(rs[k]) else None
  }

  ghost predicate UniqueEntities(es: seq<Entity>) {
    forall i, j :: 0 <= i < j < |es| ==> es[i].id != es[j].id
  }

  ghost predicate UniqueRels(rs: seq<Relationship>) {
    forall i, j :: 0 <= i < j < |rs| ==> rs[i].id != rs[j].id
  }

  /** A change to one slot, or at the end, is seen at that id only. */
  lemma SetEntityFinds(es: seq<Entity>, es': seq<Entity>, e: Entity)
    requires UniqueEntities(es)
    requires es' == PutEntity(es, e) || (es' == es + [e] && FirstEntity(es, e.id) == None)
    ensures UniqueEntities(es')
    ensures forall id :: FirstEntity(es', id) == if e.id == id then Some(e) else FirstEntity(es, id)
  {
    hide EntitySlot;
    var k := EntitySlot(es, e.id);
    assert |es'| >= |es| && k < |es'| && es'[k] == e;
    assert forall i :: 0 <= i < |es'| && i != k ==> i < |es| && es'[i] == es[i];
    forall id ensures FirstEntity(es', id) == if e.id == id then Some(e) else FirstEntity(es, id) {
      var n := EntitySlot(es, id);
      if id == e.id {
        EntitySlotUnique(es', id, k);
      } else if n < |es| {
        EntitySlotUnique(es', id, n);
      } else {
        var n' := EntitySlot(es', id);
        assert n' < |es'| ==> n' != k;
      }
    }
  }

  lemma SetRelFinds(rs: seq<Relationship>, rs': seq<Relationship>, r: Relationship)
    requires UniqueRels(rs)
    requires rs' == PutRel(rs, r) || (rs' == rs + [r] && FirstRel(rs, r.id) == None)
    ensures UniqueRels(rs')
    ensures forall id :: FirstRel(rs', id) == if r.id == id then Some(r) else FirstRel(rs, id)
  {
    hide RelSlot;
    var k := RelSlot(rs, r.id);
    assert |rs'| >= |rs| && k < |rs'| && rs'[k] == r;
    assert forall i :: 0 <= i < |rs'| && i != k ==> i < |rs| && rs'[i] == rs[i];
    forall id ensures FirstRel(rs', id) == if r.id == id then Some(r) else FirstRel(rs, id) {
      var n := RelSlot(rs, id);
      if id == r.id {
        RelSlotUnique(rs', id, k);
      } else if n < |rs| {
        RelSlotUnique(rs', id, n);
      } else {
        var n' := RelSlot(rs', id);
        assert n' < |rs'| ==> n' != k;
      }
    }
  }

  /** Replaying one fitting entry updates exactly its id. */
  lemma ReplayEntryFinds(s: GraphState, c: Change)
    requires UniqueIds(s)
    requires c.EntityChange? ==> c.after.id == c.id && (c.op == Created ==> FindEntity(s, c.id) == None)
    requires c.RelChange? ==> c.afterRel.id == c.id && (c.op == Created ==> FindRel(s, c.id) == None)
    ensures UniqueIds(ReplayEntry(s, c))
    ensures forall id :: FindEntity(ReplayEntry(s, c), id) ==
              if c.EntityChange? && c.id == id then Some(c.after) else FindEntity(s, id)
    ensures forall id :: FindRel(ReplayEntry(s, c), id) ==
              if c.RelChange? && c.id == id then Some(c.afterRel) else FindRel(s, id)
  {
    hide EntitySlot, RelSlot, PutEntity, PutRel, UniqueEntities, UniqueRels, FirstEntity, FirstRel;
    if c.EntityChange? {
      SetEntityFinds(s.entities, ReplayEntry(s, c).entities, c.after);
    } else {
      SetRelFinds(s.relationships, ReplayEntry(s, c).relationships, c.afterRel);
    }
  }

  /** Replay computes, by id, the last logged state over the base, and never duplicates an id. */
  lemma {:induction false} ReplayIsLast(s: GraphState, log: seq<Entry>)
    requires UniqueIds(s) && Replayable(s, log)
    ensures UniqueIds(ReplayFrom(s, log))
    ensures forall id :: FindEntity(ReplayFrom(s, log), id) ==
              if LastEntity(log, id).Some? then LastEntity(log, id) else FindEntity(s, id)
    ensures forall id :: FindRel(ReplayFrom(s, log), id) ==
              if LastRel(log, id).Some? then LastRel(log, id) else FindRel(s, id)
  {
    hide FindEntity, FindRel, UniqueIds, ReplayEntry;
    if log != [] {
      var init, e := log[..|log| - 1], log[|log| - 1];
      assert forall i :: 0 <= i < |init| ==> init[..i] == log[..i];
      assert FitsAfter(s, log[..|log| - 1], log[|log| - 1].change);
      ReplayIsLast(s, init);
      ReplayEntryFinds(ReplayFrom(s, init), e.change);
    }
  }

  // ---------------------------------------------------------------- cutting and filtering the log

  lemma {:induction false} UpToConcat(a: seq<Entry>, b: seq<Entry>, t: Time)
    ensures UpTo(a + b, t) == UpTo(a, t) + UpTo(b, t)
  {
    if b == [] {
      assert a + b == a;
    } else {
      var init := b[..|b| - 1];
      assert (a + b)[..|a + b| - 1] == a + init;
      UpToConcat(a, init, t);
    }
  }

  lemma {:induction false} LastConcat(a: seq<Entry>, b: seq<Entry>)
    ensures forall id :: LastEntity(a + b, id) == if LastEntity(b, id).Some? then LastEntity(b, id)
        else LastEntity(a, id)
    ensures forall id :: LastRel(a + b, id) == if LastRel(b, id).Some? then LastRel(b, id) else LastRel(a, id)
  {
    if b == [] {
      assert a + b == a;
    } else {
      var init, e := b[..|b| - 1], b[|b| - 1];
      LastConcat(a, init);
      assert a + b == (a + init) + [e] && b == init + [e];
      LastSnoc(a + init, e);
      LastSnoc(init, e);
    }
  }

  lemma {:induction false} FilterForgetsNoId(log: seq<Entry>, t: Time)
    ensures forall id :: LastEntity(log, id) == None ==> LastEntity(UpTo(log, t), id) == None
    ensures forall id :: LastRel(log, id) == None ==> LastRel(UpTo(log, t), id) == None
  {
    if log != [] {
      var init, e := log[..|log| - 1], log[|log| - 1];
      FilterForgetsNoId(init, t);
      LastSnoc(UpTo(init, t), e);
      assert UpTo(init, t) + [] == UpTo(init, t);
    }
  }

  // ---------------------------------------------------------------- time travel

  /** s holds, by id and once each, the last states of the log. */
  ghost predicate Holds(s: GraphState, log: seq<Entry>) {
    && UniqueIds(s)
    && (forall id :: EntityMatches(FindEntity(s, id), LastEntity(log, id)))
    && (forall id :: RelMatches(FindRel(s, id), LastRel(log, id)))
  }

  /** The instant of an id's last entry. */
  function EntityStamp(log: seq<Entry>, id: Id): Option<Time> {
    if log == [] then None
    else if OnEntity(log[|log| - 1], id) then Some(log[|log| - 1].occurredAt)
    else EntityStamp(log[..|log| - 1], id)
  }

  function RelStamp(log: seq<Entry>, id: Id): Option<Time> {
    if log == [] then None
    else if OnRel(log[|log| - 1], id) then Some(log[|log| - 1].occurredAt)
    else RelStamp(log[..|log| - 1], id)
  }

  predicate NoLaterThan(stamp: Option<Time>, at: Time) {
    stamp.Some? ==> stamp.value <= at
  }

  /** No id was last touched after `at`. */
  ghost predicate SettledBy(log: seq<Entry>, at: Time) {
    && (forall id :: NoLaterThan(EntityStamp(log, id), at))
    && (forall id :: NoLaterThan(RelStamp(log, id), at))
  }

  /** The cut a snapshot stores: the greatest entry id no later than `at`, 0 for none. */
  function CutAt(log: seq<Entry>, at: Time): nat {
    if log == [] then 0
    else
      var k := CutAt(log[..|log| - 1], at);
      if log[|log| - 1].occurredAt <= at && log[|log| - 1].entryId > k then log[|log| - 1].entryId else k
  }

  /** The entry ids no later than `at` are bounded by the cut, and the cut is one of them unless it is 0. */
  ghost predicate IsGreatestId(log: seq<Entry>, at: Time, cut: nat) {
    && (forall i :: 0 <= i < |log| && log[i].occurredAt <= at ==> log[i].entryId <= cut)
    && (cut > 0 ==> exists i :: 0 <= i < |log| && log[i].occurredAt <= at && log[i].entryId == cut)
  }

  lemma {:induction false} CutIsGreatest(log: seq<Entry>, at: Time)
    ensures IsGreatestId(log, at, CutAt(log, at))
  {
    if log != [] {
      var init := log[..|log| - 1];
      CutIsGreatest(init, at);
      var k := CutAt(init, at);
      assert forall i :: 0 <= i < |init| ==> init[i] == log[i];
      if k > 0 {
        var i :| 0 <= i < |init| && init[i].occurredAt <= at && init[i].entryId == k;
        assert log[i].occurredAt <= at && log[i].entryId == k;
      }
    }
  }

  /** The entries RestoreGraph replays: ids above the cut, instants up to asOf. */
  function AfterCut(log: seq<Entry>, cut: nat, asOf: Time): seq<Entry> {
    if log == [] then []
    else
      var e := log[|log| - 1];
      AfterCut(log[..|log| - 1], cut, asOf) + (if e.entryId > cut && e.occurredAt <= asOf then [e] else [])
  }

  /** What time travel promises, independently of snapshots: exactly the entries no later than asOf, from nothing. */
  function AsOf(log: seq<Entry>, asOf: Time): GraphState {
    ReplayFrom(NOTHING, UpTo(log, asOf))
  }

  /** r is, by id and once each, the promised state, up to the stamp of deleted rows. */
  ghost predicate IsAsOf(r: GraphState, log: seq<Entry>, asOf: Time) {
    && UniqueIds(r) && UniqueIds(AsOf(log, asOf))
    && (forall id :: EntityMatches(FindEntity(r, id), FindEntity(AsOf(log, asOf), id)))
    && (forall id :: RelMatches(FindRel(r, id), FindRel(AsOf(log, asOf), id)))
  }

  lemma {:induction false} DisciplinedPrefix(log: seq<Entry>, n: nat)
    requires Disciplined(log) && n <= |log|
    ensures Disciplined(log[..n])
  {
    hide Continues;
    forall i | 0 <= i < n ensures Continues(log[..n][..i], log[..n][i]) {
      assert log[..n][..i] == log[..i];
    }
  }

  lemma EntryIds(log: seq<Entry>, j: nat)
    requires Disciplined(log) && j < |log|
    ensures log[j].entryId == j + 1
  {
    EachContinues(log, j);
  }

  lemma UpToSnoc(log: seq<Entry>, e: Entry, t: Time)
    ensures UpTo(log + [e], t) == if e.occurredAt <= t then UpTo(log, t) + [e] else UpTo(log, t)
  {
    assert (log + [e])[..|log|] == log;
  }

  lemma {:induction false} AfterCutIsSuffix(log: seq<Entry>, cut: nat, asOf: Time)
    requires Disciplined(log) && cut <= |log|
    ensures AfterCut(log, cut, asOf) == UpTo(log[cut..], asOf)
    decreases |log|
  {
    hide Disciplined, UpTo, AfterCut;
    if cut == |log| {
      NothingAfterCut(log, cut, asOf);
      assert log[cut..] == [];
      UpToNone(asOf);
    } else {
      var init, e := log[..|log| - 1], log[|log| - 1];
      assert log == init + [e];
      DisciplinedPrefix(log, |log| - 1);
      EntryIds(log, |log| - 1);
      AfterCutIsSuffix(init, cut, asOf);
      assert log[cut..] == init[cut..] + [e];
      UpToSnoc(init[cut..], e, asOf);
      AfterCutSnoc(init, e, cut, asOf);
    }
  }

  lemma AfterCutSnoc(log: seq<Entry>, e: Entry, cut: nat, t: Time)
    ensures AfterCut(log + [e], cut, t) ==
            if e.entryId > cut && e.occurredAt <= t then AfterCut(log, cut, t) + [e] else AfterCut(log, cut, t)
  {
    assert (log + [e])[..|log|] == log;
  }

  lemma {:induction false} NothingAfterCut(log: seq<Entry>, cut: nat, asOf: Time)
    requires Disciplined(log) && cut >= |log|
    ensures AfterCut(log, cut, asOf) == []
    decreases |log|
  {
    if log != [] {
      hide Disciplined;
      DisciplinedPrefix(log, |log| - 1);
      EntryIds(log, |log| - 1);
      NothingAfterCut(log[..|log| - 1], cut, asOf);
    }
  }

  /** A suffix of the log, filtered by time, fits over any base that holds the prefix. */
  lemma {:induction false} SuffixFits(s: GraphState, log: seq<Entry>, n: nat, asOf: Time)
    requires Disciplined(log) && n <= |log| && Holds(s, log[..n])
    ensures Replayable(s, UpTo(log[n..], asOf))
    decreases |log|
  {
    hide Holds, Continues, Disciplined, UpTo, FitsAfter;
    if n < |log| {
      var init, e := log[..|log| - 1], log[|log| - 1];
      assert init[..n] == log[..n];
      DisciplinedPrefix(log, |log| - 1);
      SuffixFits(s, init, n, asOf);
      assert log[n..] == init[n..] + [e];
      UpToSnoc(init[n..], e, asOf);
      EntryFits(s, log, n, asOf);
      ReplayableSnoc(s, UpTo(init[n..], asOf), e);
    } else {
      assert log[n..] == [];
      UpToNone(asOf);
    }
  }

  lemma UpToNone(t: Time)
    ensures UpTo([], t) == []
  {
  }

  lemma ReplayableSnoc(s: GraphState, past: seq<Entry>, e: Entry)
    requires Replayable(s, past) && FitsAfter(s, past, e.change)
    ensures Replayable(s, past + [e])
  {
    hide FitsAfter;
    var all := past + [e];
    forall i | 0 <= i < |all| ensures FitsAfter(s, all[..i], all[i].change) {
      if i < |past| {
        assert all[..i] == past[..i] && all[i] == past[i];
      } else {
        assert all[..i] == past;
      }
    }
  }

  lemma EntryFits(s: GraphState, log: seq<Entry>, n: nat, asOf: Time)
    requires Disciplined(log) && n < |log| && Holds(s, log[..n])
    ensures FitsAfter(s, UpTo(log[..|log| - 1][n..], asOf), log[|log| - 1].change)
  {
    hide LastEntity, LastRel, UniqueIds, FindEntity, FindRel, Disciplined;
    var init, e := log[..|log| - 1], log[|log| - 1];
    assert init[..n] == log[..n];
    EachContinues(log, |log| - 1);
    assert init == init[..n] + init[n..];
    LastConcat(init[..n], init[n..]);
    FilterForgetsNoId(init[n..], asOf);
    if e.change.EntityChange? {
      assert EntityMatches(FindEntity(s, e.change.id), LastEntity(log[..n], e.change.id));
    } else {
      assert RelMatches(FindRel(s, e.change.id), LastRel(log[..n], e.change.id));
    }
  }

  /** If no id was last touched after `at`, filtering at any later instant keeps every last state. */
  lemma {:induction false} SettledKept(log: seq<Entry>, at: Time, asOf: Time, id: Id)
    requires at <= asOf
    ensures NoLaterThan(EntityStamp(log, id), at) ==> LastEntity(UpTo(log, asOf), id) == LastEntity(log, id)
    ensures NoLaterThan(RelStamp(log, id), at) ==> LastRel(UpTo(log, asOf), id) == LastRel(log, id)
  {
    if log != [] {
      var init, e := log[..|log| - 1], log[|log| - 1];
      SettledKept(init, at, asOf, id);
      LastSnoc(UpTo(init, asOf), e);
      assert UpTo(init, asOf) + [] == UpTo(init, asOf);
    }
  }

  lemma NothingHolds()
    ensures Holds(NOTHING, [])
  {
  }

  /** Replaying the filtered suffix over a settled base gives the promised state. */
  lemma RestoreFromBase(s: GraphState, log: seq<Entry>, n: nat, at: Time, asOf: Time)
    requires Disciplined(log) && n <= |log| && Holds(s, log[..n]) && SettledBy(log[..n], at) && at <= asOf
    ensures IsAsOf(ReplayFrom(s, UpTo(log[n..], asOf)), log, asOf)
  {
    hide LastEntity, LastRel, FindEntity, FindRel, UniqueIds, Replayable, ReplayFrom, Disciplined, EntityStamp,
      RelStamp;
    SuffixFits(s, log, n, asOf);
    ReplayIsLast(s, UpTo(log[n..], asOf));
    assert log[..0] == [] && log[0..] == log;
    NothingHolds();
    SuffixFits(NOTHING, log, 0, asOf);
    ReplayIsLast(NOTHING, UpTo(log, asOf));
    assert log == log[..n] + log[n..];
    UpToConcat(log[..n], log[n..], asOf);
    LastConcat(UpTo(log[..n], asOf), UpTo(log[n..], asOf));
    forall id
      ensures LastEntity(UpTo(log[..n], asOf), id) == LastEntity(log[..n], id)
      ensures LastRel(UpTo(log[..n], asOf), id) == LastRel(log[..n], id)
    {
      SettledKept(log[..n], at, asOf, id);
    }
    FindNothing();
    forall id ensures EntityMatches(FindEntity(s, id), LastEntity(log[..n], id)) {
    }
  }

  lemma FindNothing()
    ensures forall id :: FindEntity(NOTHING, id) == None && FindRel(NOTHING, id) == None
  {
  }

  // ---------------------------------------------------------------- cuts, and what a filtered log drops

  lemma {:induction false} CutBounded(log: seq<Entry>, at: Time)
    requires Disciplined(log)
    ensures CutAt(log, at) <= |log|
    decreases |log|
  {
    hide Disciplined;
    if log != [] {
      DisciplinedPrefix(log, |log| - 1);
      EntryIds(log, |log| - 1);
      CutBounded(log[..|log| - 1], at);
    }
  }

  /** A settled log is cut at its end. */
  lemma SettledCut(log: seq<Entry>, at: Time)
    requires Disciplined(log) && SettledBy(log, at)
    ensures CutAt(log, at) == |log|
  {
    hide Disciplined;
    if log != [] {
      var e := log[|log| - 1];
      DisciplinedPrefix(log, |log| - 1);
      EntryIds(log, |log| - 1);
      CutBounded(log[..|log| - 1], at);
      assert NoLaterThan(EntityStamp(log, e.change.id), at) && NoLaterThan(RelStamp(log, e.change.id), at);
    }
  }

  lemma {:induction false} NothingPastCut(log: seq<Entry>, at: Time, cut: nat)
    requires cut >= CutAt(log, at)
    ensures AfterCut(log, cut, at) == []
  {
    if log != [] {
      NothingPastCut(log[..|log| - 1], at, cut);
    }
  }

  /** Dropping an id's last entry leaves it strictly behind. */
  lemma {:induction false} FilteredVersion(log: seq<Entry>, at: Time, id: Id)
    requires Disciplined(log)
    ensures var kept, last := LastEntity(UpTo(log, at), id), LastEntity(log, id);
            (kept.Some? ==> last.Some? && kept.value.version <= last.value.version) &&
            (!NoLaterThan(EntityStamp(log, id), at) && kept.Some? ==> kept.value.version < last.value.version)
    decreases |log|
  {
    hide Disciplined;
    if log != [] {
      var init, e := log[..|log| - 1], log[|log| - 1];
      DisciplinedPrefix(log, |log| - 1);
      EachContinues(log, |log| - 1);
      FilteredVersion(init, at, id);
      LastSnoc(UpTo(init, at), e);
      assert UpTo(init, at) + [] == UpTo(init, at);
    }
  }

  lemma {:induction false} FilteredRelVersion(log: seq<Entry>, at: Time, id: Id)
    requires Disciplined(log)
    ensures var kept, last := LastRel(UpTo(log, at), id), LastRel(log, id);
            (kept.Some? ==> last.Some? && kept.value.version <= last.value.version) &&
            (!NoLaterThan(RelStamp(log, id), at) && kept.Some? ==> kept.value.version < last.value.version)
    decreases |log|
  {
    hide Disciplined;
    if log != [] {
      var init, e := log[..|log| - 1], log[|log| - 1];
      DisciplinedPrefix(log, |log| - 1);
      EachContinues(log, |log| - 1);
      FilteredRelVersion(init, at, id);
      LastSnoc(UpTo(init, at), e);
      assert UpTo(init, at) + [] == UpTo(init, at);
    }
  }

  /** A stamped id has a last state. */
  lemma {:induction false} StampedIsLogged(log: seq<Entry>, id: Id)
    ensures EntityStamp(log, id).Some? <==> LastEntity(log, id).Some?
    ensures RelStamp(log, id).Some? <==> LastRel(log, id).Some?
  {
    if log != [] {
      StampedIsLogged(log[..|log| - 1], id);
    }
  }

  /** What a restore from a snapshot taken on log0 returns later on. */
  function Restored(s: GraphState, log0: seq<Entry>, at: Time, later: seq<Entry>, asOf: Time): GraphState {
    ReplayFrom(s, AfterCut(log0 + later, CutAt(log0, at), asOf))
  }

  lemma SettledRestores(s: GraphState, log0: seq<Entry>, at: Time, later: seq<Entry>, asOf: Time)
    requires Disciplined(log0 + later) && Holds(s, log0) && SettledBy(log0, at) && at <= asOf
    ensures IsAsOf(Restored(s, log0, at, later, asOf), log0 + later, asOf)
  {
    hide Disciplined, Holds, SettledBy, IsAsOf, UpTo, ReplayFrom, AfterCut;
    var log := log0 + later;
    assert log[..|log0|] == log0;
    DisciplinedPrefix(log, |log0|);
    SettledCut(log0, at);
    AfterCutIsSuffix(log, |log0|, asOf);
    RestoreFromBase(s, log, |log0|, at, asOf);
  }

  /** The usual case: an instant no earlier than any entry logged so far. */
  lemma {:induction false} TakenAfterEverything(log: seq<Entry>, at: Time)
    requires forall i :: 0 <= i < |log| ==> log[i].occurredAt <= at
    ensures SettledBy(log, at)
  {
    if log != [] {
      var init := log[..|log| - 1];
      TakenAfterEverything(init, at);
      forall id ensures NoLaterThan(EntityStamp(log, id), at) && NoLaterThan(RelStamp(log, id), at) {
        assert NoLaterThan(EntityStamp(init, id), at) && NoLaterThan(RelStamp(init, id), at);
      }
    }
  }

  /** After every run of batches, replaying the whole log rebuilds the rows, each id once. */
  lemma LogRebuildsRows(schema: Schema, batches: seq<Batch>)
    ensures var db := Run(schema, batches);
            var s := ReplayFrom(NOTHING, db.log);
            && UniqueIds(s)
            && (forall id :: EntityMatches(Lookup(db.entities, id), FindEntity(s, id)))
            && (forall id :: RelMatches(Lookup(db.relationships, id), FindRel(s, id)))
  {
    hide Run, UniqueIds, FindEntity, FindRel, LastEntity, LastRel, ReplayFrom, Disciplined, Replayable;
    RunKeepsInv(schema, batches);
    var log := Run(schema, batches).log;
    assert log[..0] == [] && log[0..] == log;
    NothingHolds();
    FindNothing();
    WholeLogReplayable(log);
    ReplayIsLast(NOTHING, log);
  }

  lemma {:induction false} WholeLogReplayable(log: seq<Entry>)
    requires Disciplined(log)
    ensures Replayable(NOTHING, log)
  {
    hide LastEntity, LastRel, Disciplined;
    FindNothing();
    forall i | 0 <= i < |log| ensures FitsAfter(NOTHING, log[..i], log[i].change) {
      EachContinues(log, i);
    }
  }
}
