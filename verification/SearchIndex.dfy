/** The asynchronous search index: what it owes to the entity rows while it lags behind them. */
module SearchIndex {
  import opened Wrappers
  import opened Records
  import opened EventStore

  const QUEUE_CAP: nat := 1000

  /** A search row is some projection of an entity row; every theorem holds for all projections. */
  datatype SearchRow = SearchRow(columns: map<string, string>)

  type Projection = Entity -> SearchRow

  /** The search row an entity should have: none when there is no entity row. */
  ghost predicate AgreesWith(project: Projection, entities: map<Id, Entity>, rows: map<Id, SearchRow>, id: Id) {
    Lookup(rows, id) == if id in entities then Some(project(entities[id])) else None
  }

  // ---------------------------------------------------------------- the indexer

  /** Outcomes of the two database calls for one id. */
  datatype Luck = Luck(readOk: bool, writeOk: bool)

  class Indexer {
    var queue: seq<Id>
    var rows: map<Id, SearchRow>

    constructor ()
      ensures queue == [] && rows == map[]
    {
      queue, rows := [], map[];
    }

    /** Adds the id, or drops it when the queue is full; the caller never waits. */
    method Enqueue(id: Id) returns (dropped: bool)
      modifies this`queue
      ensures dropped <==> |old(queue)| >= 1000
      ensures queue == if dropped then old(queue) else old(queue) + [id]
    {
      dropped := |queue| >= QUEUE_CAP;
      if !dropped {
        queue := queue + [id];
      }
    }

    /** Reads the row, then replaces or removes the search row. */
    method IndexEntity(project: Projection, entities: map<Id, Entity>, id: Id, luck: Luck) returns (ok: bool)
      modifies this`rows
      ensures ok <==> luck.readOk && luck.writeOk
      ensures ok ==> AgreesWith(project, entities, rows, id)
      ensures forall x :: x != id || !ok ==> Lookup(rows, x) == Lookup(old(rows), x)
    {
      if !luck.readOk {
        return false;
      }
      var row := Lookup(entities, id);
      if !luck.writeOk {
        return false;
      }
      rows := if row.Some? then rows[id := project(row.value)] else rows - {id};
      ok := true;
    }

    /**
     * On stop the worker empties the queue, errors ignored. Call i meets its own luck and the rows of its own moment,
     * so an id ends as its last successful call left it.
     */
    method Drain(project: Projection, entities: nat -> map<Id, Entity>, luck: nat -> Luck)
      modifies this
      ensures queue == []
      ensures forall id, i: nat :: LastSuccess(old(queue), luck, id, i) ==> AgreesWith(project, entities(i), rows, id)
      ensures forall id :: NoSuccess(old(queue), luck, id) ==> Lookup(rows, id) == Lookup(old(rows), id)
    {
      ghost var start := queue;
      var done := 0;
      while |queue| > 0
        invariant 0 <= done <= |start| && queue == start[done..]
        invariant forall id, i: nat :: LastSuccess(start[..done], luck, id, i) ==>
            AgreesWith(project, entities(i), rows, id)
        invariant forall id :: NoSuccess(start[..done], luck, id) ==> Lookup(rows, id) == Lookup(old(rows), id)
        decreases |queue|
      {
        var id := queue[0];
        queue := queue[1..];
        ghost var was := rows;
        var ok := IndexEntity(project, entities(done), id, luck(done));
        assert start[..done + 1] == start[..done] + [id];
        DrainStep(project, entities, luck, start[..done], id, old(rows), was, rows, ok);
        done := done + 1;
      }
      assert start[..done] == start;
    }
  }

  /** The i-th call is the last one that succeeded for this id. */
  ghost predicate LastSuccess(q: seq<Id>, luck: nat -> Luck, id: Id, i: nat) {
    i < |q| && Succeeds(q, luck, id, i) && forall j: nat :: i < j < |q| ==> !Succeeds(q, luck, id, j)
  }

  ghost predicate NoSuccess(q: seq<Id>, luck: nat -> Luck, id: Id) {
    forall i: nat :: i < |q| ==> !Succeeds(q, luck, id, i)
  }

  predicate Succeeds(q: seq<Id>, luck: nat -> Luck, id: Id, i: nat)
    requires i < |q|
  {
    q[i] == id && luck(i).readOk && luck(i).writeOk
  }

  lemma DrainStep(project: Projection, entities: nat -> map<Id, Entity>, luck: nat -> Luck, q: seq<Id>, x: Id,
                  first: map<Id, SearchRow>, was: map<Id, SearchRow>, rows: map<Id, SearchRow>, ok: bool)
    requires forall id, i: nat :: LastSuccess(q, luck, id, i) ==> AgreesWith(project, entities(i), was, id)
    requires forall id :: NoSuccess(q, luck, id) ==> Lookup(was, id) == Lookup(first, id)
    requires ok <==> luck(|q|).readOk && luck(|q|).writeOk
    requires ok ==> AgreesWith(project, entities(|q|), rows, x)
    requires forall id :: id != x || !ok ==> Lookup(rows, id) == Lookup(was, id)
    ensures forall id, i: nat :: LastSuccess(q + [x], luck, id, i) ==> AgreesWith(project, entities(i), rows, id)
    ensures forall id :: NoSuccess(q + [x], luck, id) ==> Lookup(rows, id) == Lookup(first, id)
  {
    hide Succeeds;
    var q' := q + [x];
    forall id, i: nat | i < |q| ensures Succeeds(q', luck, id, i) <==> Succeeds(q, luck, id, i) {
      SameCall(q, x, luck, id, i);
    }
    forall id ensures Succeeds(q', luck, id, |q|) <==> id == x && ok {
      LastCall(q, x, luck, id);
    }
    forall id, i: nat | LastSuccess(q', luck, id, i) ensures AgreesWith(project, entities(i), rows, id) {
      if i < |q| {
        assert !Succeeds(q', luck, id, |q|);
        assert LastSuccess(q, luck, id, i);
      }
    }
    forall id | NoSuccess(q', luck, id) ensures Lookup(rows, id) == Lookup(first, id) {
      assert !Succeeds(q', luck, id, |q|);
      forall i: nat | i < |q| ensures !Succeeds(q, luck, id, i) {
        assert !Succeeds(q', luck, id, i);
      }
    }
  }

  lemma SameCall(q: seq<Id>, x: Id, luck: nat -> Luck, id: Id, i: nat)
    requires i < |q|
    ensures Succeeds(q + [x], luck, id, i) <==> Succeeds(q, luck, id, i)
  {
  }

  lemma LastCall(q: seq<Id>, x: Id, luck: nat -> Luck, id: Id)
    ensures Succeeds(q + [x], luck, id, |q|) <==> id == x && luck(|q|).readOk && luck(|q|).writeOk
  {
  }

  // ---------------------------------------------------------------- every interleaving

  datatype Worker = Idle | Holding(id: Id) | Loaded(id: Id, row: Option<Entity>) | Exited

  /**
   * The store, the index, and everything in flight between them: ids whose commit has happened but whose
   * enqueue has not, the queue, and the worker.
   */
  datatype State = State(db: Db, rows: map<Id, SearchRow>, pending: multiset<Id>, queue: seq<Id>, worker: Worker)

  datatype Action =
    | Commit(batch: Batch)
    | Hook(id: Id)
    | Take
    | Read
    | ReadFails
    | Write
    | WriteFails
    | Exit

  /** The ids the hooks of a committed batch will enqueue, one by one. */
  function Touched(results: seq<Result>): multiset<Id> {
    if results == [] then multiset{}
    else
      var r := results[|results| - 1];
      Touched(results[..|results| - 1]) +
      if r.operation != OpNoChange && r.entityId.Some? then multiset{r.entityId.value} else multiset{}
  }

  predicate Enabled(s: State, a: Action) {
    match a
    case Commit(_) => true
    case Hook(id) => id in s.pending
    case Take => s.worker.Idle? && s.queue != []
    case Read => s.worker.Holding?
    case ReadFails => s.worker.Holding?
    case Write => s.worker.Loaded?
    case WriteFails => s.worker.Loaded?
    case Exit => s.worker.Idle?
  }

  function After(schema: Schema, project: Projection, s: State, a: Action): State
    requires Enabled(s, a)
  {
    match a
    case Commit(b) =>
      var p := Prefix(schema, s.db, b, |b.mutations|);
      if p.Stopped? then s else s.(db := p.db, pending := s.pending + Touched(p.results))
    case Hook(id) =>
      var s' := s.(pending := s.pending - multiset{id});
      if |s.queue| < QUEUE_CAP then s'.(queue := s.queue + [id]) else s'
    case Take => s.(queue := s.queue[1..], worker := Holding(s.queue[0]))
    case Read => s.(worker := Loaded(s.worker.id, Lookup(s.db.entities, s.worker.id)))
    case ReadFails => s.(worker := Idle)
    case Write =>
      var rows := if s.worker.row.Some? then s.rows[s.worker.id := project(s.worker.row.value)]
        else s.rows - {s.worker.id};
      s.(rows := rows, worker := Idle)
    case WriteFails => s.(worker := Idle)
    case Exit => s.(worker := Exited)
  }

  /** A run: every action is enabled where it happens. */
  ghost predicate IsRun(schema: Schema, project: Projection, ss: seq<State>, acts: seq<Action>) {
    && |ss| == |acts| + 1
    && forall i :: 0 <= i < |acts| ==> Enabled(ss[i], acts[i]) && ss[i + 1] == After(schema, project, ss[i], acts[i])
  }

  ghost predicate Agrees(project: Projection, s: State, id: Id) {
    AgreesWith(project, s.db.entities, s.rows, id)
  }

  /** Someone will still index this id, with its current row. */
  ghost predicate Carried(s: State, id: Id) {
    || id in s.pending
    || id in s.queue
    || s.worker == Holding(id)
    || (s.worker.Loaded? && s.worker.id == id && s.worker.row == Lookup(s.db.entities, id))
  }

  predicate BusyWith(s: State, id: Id) {
    (s.worker.Holding? || s.worker.Loaded?) && s.worker.id == id
  }

  /** In agreement and about to stay so, or on the way to agreement. */
  ghost predicate Safe(project: Projection, s: State, id: Id) {
    Carried(s, id) || (Agrees(project, s, id) && !BusyWith(s, id))
  }

  /** The step drops an enqueue of this id, or fails a call for it. */
  predicate Loses(s: State, a: Action, id: Id) {
    match a
    case Hook(x) => x == id && |s.queue| >= QUEUE_CAP
    case ReadFails => BusyWith(s, id)
    case WriteFails => BusyWith(s, id)
    case _ => false
  }

  /** A committed batch whose hooks will enqueue this id. */
  predicate Touches(schema: Schema, s: State, a: Action, id: Id) {
    a.Commit? &&
    var p := Prefix(schema, s.db, a.batch, |a.batch.mutations|);
    p.Going? && id in Touched(p.results)
  }

  // ---------------------------------------------------------------- nothing is forgotten

  lemma {:induction false} TouchedIsNamed(results: seq<Result>, id: Id)
    ensures id in Touched(results) <==> exists i :: 0 <= i < |results| && Names(results[i], id)
  {
    if results != [] {
      var init, r := results[..|results| - 1], results[|results| - 1];
      TouchedIsNamed(init, id);
      NamedSnoc(init, r, id);
      assert init + [r] == results;
      TouchedSnoc(results, id);
    }
  }

  lemma TouchedSnoc(results: seq<Result>, id: Id)
    requires results != []
    ensures id in Touched(results) <==> id in Touched(results[..|results| - 1]) || Names(results[|results| - 1], id)
  {
  }

  lemma NamedSnoc(init: seq<Result>, r: Result, id: Id)
    ensures (exists i :: 0 <= i < |init + [r]| && Names((init + [r])[i], id))
       <==> (exists i :: 0 <= i < |init| && Names(init[i], id)) || Names(r, id)
  {
    hide Names;
    var all := init + [r];
    assert all[|init|] == r;
    if exists i :: 0 <= i < |init| && Names(init[i], id) {
      var i :| 0 <= i < |init| && Names(init[i], id);
      assert Names(all[i], id);
    }
  }

  /** A committed batch only changes rows its hooks will enqueue. */
  lemma UntouchedRowStays(schema: Schema, project: Projection, s: State, a: Action, id: Id)
    requires a.Commit? && !Touches(schema, s, a, id)
    ensures var s' := After(schema, project, s, a);
      Lookup(s'.db.entities, id) == Lookup(s.db.entities, id)
  {
    hide Prefix, Names, Touched;
    var p := Prefix(schema, s.db, a.batch, |a.batch.mutations|);
    if p.Going? {
      TouchedIsNamed(p.results, id);
      UnnamedRowStays(schema, s.db, a.batch, |a.batch.mutations|, id);
    }
  }

  /** What a commit leaves alone. */
  lemma CommitMoves(schema: Schema, project: Projection, s: State, a: Action, id: Id)
    requires a.Commit?
    ensures var s' := After(schema, project, s, a);
      && s'.rows == s.rows && s'.queue == s.queue && s'.worker == s.worker && s.pending <= s'.pending
      && (Touches(schema, s, a, id) ==> id in s'.pending)
      && (!Touches(schema, s, a, id) ==>
            (id in s'.pending <==> id in s.pending) && Lookup(s'.db.entities, id) == Lookup(s.db.entities, id))
      && (!Touches(schema, s, a, id) ==> (Agrees(project, s', id) <==> Agrees(project, s, id)))
  {
    hide Prefix, Touched;
    var s' := After(schema, project, s, a);
    if !Touches(schema, s, a, id) {
      UntouchedRowStays(schema, project, s, a, id);
      assert id in s'.db.entities <==> Lookup(s'.db.entities, id).Some?;
      assert id in s.db.entities <==> Lookup(s.db.entities, id).Some?;
    }
  }

  /** Writing what was read: right now, or again later because the row moved on. */
  lemma WriteKeepsSafe(schema: Schema, project: Projection, s: State, id: Id)
    requires Safe(project, s, id) && s.worker.Loaded?
    ensures Safe(project, After(schema, project, s, Write), id)
  {
    var s' := After(schema, project, s, Write);
    if s.worker.id != id {
      assert Lookup(s'.rows, id) == Lookup(s.rows, id);
    } else if id !in s.pending && id !in s.queue {
      assert s.worker.row == Lookup(s.db.entities, id);
      assert Agrees(project, s', id);
    }
  }

  /** A step that does not lose this id keeps it safe, whatever it does to others. */
  lemma StepKeepsSafe(schema: Schema, project: Projection, s: State, a: Action, id: Id)
    requires Safe(project, s, id) && Enabled(s, a) && !Loses(s, a, id)
    ensures Safe(project, After(schema, project, s, a), id)
  {
    hide Agrees, Prefix, Touched;
    var s' := After(schema, project, s, a);
    match a {
      case Commit(b) =>
        hide After;
        CommitMoves(schema, project, s, a, id);
      case Write => WriteKeepsSafe(schema, project, s, id);
      case Take =>
        assert s.queue == [s.queue[0]] + s.queue[1..];
        SameAgreement(project, s, s', id);
      case Hook(_) => SameAgreement(project, s, s', id);
      case Read => SameAgreement(project, s, s', id);
      case ReadFails => SameAgreement(project, s, s', id);
      case WriteFails => SameAgreement(project, s, s', id);
      case Exit => SameAgreement(project, s, s', id);
    }
  }

  lemma SameAgreement(project: Projection, s: State, s': State, id: Id)
    requires s'.db == s.db && s'.rows == s.rows
    ensures Agrees(project, s', id) <==> Agrees(project, s, id)
  {
  }

  /** A commit that writes an entity makes it safe again, whatever was lost before. */
  lemma CommitMakesSafe(schema: Schema, project: Projection, s: State, a: Action, id: Id)
    requires Touches(schema, s, a, id)
    ensures Safe(project, After(schema, project, s, a), id)
  {
    hide After, Touches;
    assert a.Commit? by { TouchIsCommit(schema, s, a, id); }
    CommitMoves(schema, project, s, a, id);
  }

  lemma TouchIsCommit(schema: Schema, s: State, a: Action, id: Id)
    requires Touches(schema, s, a, id)
    ensures a.Commit?
  {
  }

  lemma ShorterRun(schema: Schema, project: Projection, ss: seq<State>, acts: seq<Action>)
    requires IsRun(schema, project, ss, acts) && acts != []
    ensures IsRun(schema, project, ss[..|acts|], acts[..|acts| - 1])
  {
    hide After, Enabled;
    var shorter, fewer := ss[..|acts|], acts[..|acts| - 1];
    forall i | 0 <= i < |fewer|
      ensures Enabled(shorter[i], fewer[i]) && shorter[i + 1] == After(schema, project, shorter[i], fewer[i])
    {
      assert fewer[i] == acts[i] && shorter[i] == ss[i] && shorter[i + 1] == ss[i + 1];
    }
  }

  /** Every step of a run is a step. */
  lemma RunStep(schema: Schema, project: Projection, ss: seq<State>, acts: seq<Action>, i: nat)
    requires IsRun(schema, project, ss, acts) && i < |acts|
    ensures Enabled(ss[i], acts[i]) && ss[i + 1] == After(schema, project, ss[i], acts[i])
  {
    hide After, Enabled;
  }

  /**
   * Over every interleaving of commits, hooks and worker steps: an entity that is safe at some point, and that no
   * later step loses, is safe at the end, whatever happens to the others.
   */
  lemma {:induction false} RunKeepsSafe(schema: Schema, project: Projection, ss: seq<State>, acts: seq<Action>,
                                        from: nat, id: Id)
    requires IsRun(schema, project, ss, acts) && from <= |acts| && Safe(project, ss[from], id)
    requires forall i :: from <= i < |acts| ==> !Loses(ss[i], acts[i], id)
    ensures Safe(project, ss[|acts|], id)
    decreases |acts|
  {
    hide Safe, After, Enabled, Loses;
    if from < |acts| {
      var n := |acts| - 1;
      var shorter, fewer := ss[..|acts|], acts[..n];
      ShorterRun(schema, project, ss, acts);
      assert shorter[from] == ss[from] && shorter[n] == ss[n];
      forall i | from <= i < n ensures !Loses(shorter[i], fewer[i], id) {
        assert shorter[i] == ss[i] && fewer[i] == acts[i];
      }
      RunKeepsSafe(schema, project, shorter, fewer, from, id);
      RunStep(schema, project, ss, acts, n);
      StepKeepsSafe(schema, project, ss[n], acts[n], id);
    }
  }

  ghost predicate Drained(s: State) {
    s.pending == multiset{} && s.queue == [] && (s.worker.Idle? || s.worker.Exited?)
  }

  /** Once everything in flight has landed, a safe entity's search row is right. */
  lemma DrainedMeansAgreement(project: Projection, s: State, id: Id)
    requires Safe(project, s, id) && Drained(s)
    ensures Agrees(project, s, id)
  {
    hide Agrees;
  }

  // ---------------------------------------------------------------- catching up

  /** Progress without new commits and without losses. */
  predicate Quiet(s: State, a: Action) {
    match a
    case Hook(id) => id in s.pending && |s.queue| < QUEUE_CAP
    case Take => Enabled(s, Take)
    case Read => Enabled(s, Read)
    case Write => Enabled(s, Write)
    case _ => false
  }

  /** Work left: an enqueue, a take, a read and a write for each id in flight. */
  function Backlog(s: State): nat {
    4 * |s.pending| + 3 * |s.queue| + match s.worker { case Holding(_) => 2 case Loaded(_, _) => 1 case _ => 0 }
  }

  lemma QuietStepsFinish(schema: Schema, project: Projection, s: State, a: Action, id: Id)
    requires Quiet(s, a)
    ensures Enabled(s, a) && !Loses(s, a, id)
    ensures Backlog(After(schema, project, s, a)) < Backlog(s)
    ensures After(schema, project, s, a).worker.Exited? == s.worker.Exited?
  {
  }

  /** Only a drained index has nothing left to do. */
  lemma NeverStuck(s: State)
    requires !s.worker.Exited?
    ensures Drained(s) <==> forall a :: !Quiet(s, a)
  {
    if !Drained(s) {
      if s.worker.Holding? {
        assert Quiet(s, Read);
      } else if s.worker.Loaded? {
        assert Quiet(s, Write);
      } else if s.queue != [] {
        assert Quiet(s, Take);
      } else {
        var id :| id in s.pending;
        assert Quiet(s, Hook(id));
      }
    }
  }

  ghost predicate QuietRun(schema: Schema, project: Projection, ss: seq<State>, acts: seq<Action>) {
    && IsRun(schema, project, ss, acts)
    && forall i :: 0 <= i < |acts| ==> Quiet(ss[i], acts[i])
  }

  lemma {:induction false} QuietRunShrinks(schema: Schema, project: Projection, ss: seq<State>, acts: seq<Action>)
    requires QuietRun(schema, project, ss, acts)
    ensures |acts| + Backlog(ss[|acts|]) <= Backlog(ss[0])
    ensures ss[|acts|].worker.Exited? == ss[0].worker.Exited?
    decreases |acts|
  {
    hide After, Enabled, Quiet, Backlog, Loses;
    if acts != [] {
      var n := |acts| - 1;
      var shorter, fewer := ss[..|acts|], acts[..n];
      ShorterRun(schema, project, ss, acts);
      assert shorter[0] == ss[0] && shorter[n] == ss[n];
      forall i | 0 <= i < n ensures Quiet(shorter[i], fewer[i]) {
        assert shorter[i] == ss[i] && fewer[i] == acts[i];
      }
      QuietRunShrinks(schema, project, shorter, fewer);
      RunStep(schema, project, ss, acts, n);
      QuietStepsFinish(schema, project, ss[n], acts[n], "");
    }
  }

  /**
   * The index catches up: once commits cease, a live worker that loses nothing needs no more steps than the
   * backlog, and wherever such a run cannot be continued every entity that was safe has its search row right.
   */
  lemma IndexCatchesUp(schema: Schema, project: Projection, ss: seq<State>, acts: seq<Action>, id: Id)
    requires QuietRun(schema, project, ss, acts) && Safe(project, ss[0], id) && !ss[0].worker.Exited?
    ensures |acts| <= Backlog(ss[0])
    ensures (forall a :: !Quiet(ss[|acts|], a)) ==> Agrees(project, ss[|acts|], id)
  {
    hide After, Enabled, Quiet, Backlog, Agrees, Safe, Drained, Loses;
    QuietRunShrinks(schema, project, ss, acts);
    forall i | 0 <= i < |acts| ensures !Loses(ss[i], acts[i], id) {
      QuietStepsFinish(schema, project, ss[i], acts[i], id);
    }
    RunKeepsSafe(schema, project, ss, acts, 0, id);
    NeverStuck(ss[|acts|]);
    if forall a :: !Quiet(ss[|acts|], a) {
      DrainedMeansAgreement(project, ss[|acts|], id);
    }
  }

  // ---------------------------------------------------------------- what a loss costs

  /** Wrong, and nothing in flight will put it right. */
  ghost predicate Forgotten(project: Projection, s: State, id: Id) {
    !Agrees(project, s, id) && id !in s.pending && id !in s.queue && !BusyWith(s, id)
  }

  /** A forgotten entity stays wrong through everything but a commit that writes it again. */
  lemma ForgottenStays(schema: Schema, project: Projection, s: State, a: Action, id: Id)
    requires Forgotten(project, s, id) && Enabled(s, a)
    ensures Forgotten(project, After(schema, project, s, a), id) <==> !Touches(schema, s, a, id)
  {
    hide Prefix, Touched, Agrees;
    var s' := After(schema, project, s, a);
    match a {
      case Commit(b) =>
        hide After;
        CommitMoves(schema, project, s, a, id);
      case Write => OtherRowsStay(schema, project, s, id);
      case Take =>
        assert s.queue == [s.queue[0]] + s.queue[1..];
        SameAgreement(project, s, s', id);
      case Hook(_) => SameAgreement(project, s, s', id);
      case Read => SameAgreement(project, s, s', id);
      case ReadFails => SameAgreement(project, s, s', id);
      case WriteFails => SameAgreement(project, s, s', id);
      case Exit => SameAgreement(project, s, s', id);
    }
  }

  lemma OtherRowsStay(schema: Schema, project: Projection, s: State, id: Id)
    requires s.worker.Loaded? && s.worker.id != id
    ensures Agrees(project, After(schema, project, s, Write), id) <==> Agrees(project, s, id)
  {
    assert Lookup(After(schema, project, s, Write).rows, id) == Lookup(s.rows, id);
  }

  /** With no second copy in flight: the enqueue is dropped, a call fails, or an outdated row is written. */
  ghost predicate Forgets(project: Projection, s: State, a: Action, id: Id) {
    match a
    case Hook(x) =>
      x == id && |s.queue| >= QUEUE_CAP && s.pending[id] == 1 && id !in s.queue && !BusyWith(s, id)
        && !Agrees(project, s, id)
    case ReadFails => BusyWith(s, id) && id !in s.pending && id !in s.queue && !Agrees(project, s, id)
    case WriteFails => BusyWith(s, id) && id !in s.pending && id !in s.queue && !Agrees(project, s, id)
    case Write =>
      && BusyWith(s, id) && id !in s.pending && id !in s.queue && s.worker.Loaded?
      && ProjectedRow(project, s.worker.row) != ProjectedRow(project, Lookup(s.db.entities, id))
    case _ => false
  }

  ghost function ProjectedRow(project: Projection, row: Option<Entity>): Option<SearchRow> {
    if row.Some? then Some(project(row.value)) else None
  }

  /** Those are exactly the steps by which an entity becomes forgotten. */
  lemma ForgetsIff(schema: Schema, project: Projection, s: State, a: Action, id: Id)
    requires Enabled(s, a) && !Forgotten(project, s, id)
    ensures Forgotten(project, After(schema, project, s, a), id) <==> Forgets(project, s, a, id)
  {
    hide Prefix, Touched, Agrees;
    var s' := After(schema, project, s, a);
    match a {
      case Commit(b) =>
        hide After;
        CommitMoves(schema, project, s, a, id);
      case Write => WriteForgets(schema, project, s, id);
      case Take =>
        assert s.queue == [s.queue[0]] + s.queue[1..];
        SameAgreement(project, s, s', id);
      case Hook(_) => SameAgreement(project, s, s', id);
      case Read => SameAgreement(project, s, s', id);
      case ReadFails => SameAgreement(project, s, s', id);
      case WriteFails => SameAgreement(project, s, s', id);
      case Exit => SameAgreement(project, s, s', id);
    }
  }

  lemma WriteForgets(schema: Schema, project: Projection, s: State, id: Id)
    requires s.worker.Loaded? && !Forgotten(project, s, id)
    ensures Forgotten(project, After(schema, project, s, Write), id) <==> Forgets(project, s, Write, id)
  {
    var s' := After(schema, project, s, Write);
    if s.worker.id != id {
      OtherRowsStay(schema, project, s, id);
    } else {
      assert Lookup(s'.rows, id) == ProjectedRow(project, s.worker.row);
      assert Agrees(project, s', id) <==> Lookup(s'.rows, id) == ProjectedRow(project, Lookup(s.db.entities, id));
    }
  }

  /** Some step forgot the entity, and no commit after it wrote the entity again. */
  ghost predicate ForgottenAt(schema: Schema, project: Projection, ss: seq<State>, acts: seq<Action>, id: Id, i: int)
    requires |ss| == |acts| + 1
  {
    && 0 <= i < |acts| && Forgets(project, ss[i], acts[i], id)
    && forall j :: i < j < |acts| ==> !Touches(schema, ss[j], acts[j], id)
  }

  /** At the end of any run, an entity is forgotten exactly when that happened. */
  lemma {:induction false} ForgottenIff(schema: Schema, project: Projection, ss: seq<State>, acts: seq<Action>, id: Id)
    requires IsRun(schema, project, ss, acts) && !Forgotten(project, ss[0], id)
    ensures Forgotten(project, ss[|acts|], id) <==> exists i :: ForgottenAt(schema, project, ss, acts, id, i)
    decreases |acts|
  {
    hide After, Enabled, Forgotten, Forgets, Touches;
    if acts != [] {
      var n := |acts| - 1;
      var shorter, fewer := ss[..|acts|], acts[..n];
      ShorterRun(schema, project, ss, acts);
      assert shorter[0] == ss[0] && shorter[n] == ss[n];
      ForgottenIff(schema, project, shorter, fewer, id);
      RunStep(schema, project, ss, acts, n);
      forall i | 0 <= i < n
        ensures ForgottenAt(schema, project, ss, acts, id, i)
           <==> ForgottenAt(schema, project, shorter, fewer, id, i) && !Touches(schema, ss[n], acts[n], id)
      {
        LaterStep(schema, project, ss, acts, id, i);
      }
      assert ForgottenAt(schema, project, ss, acts, id, n) <==> Forgets(project, ss[n], acts[n], id);
      if Forgotten(project, ss[n], id) {
        ForgottenStays(schema, project, ss[n], acts[n], id);
        NotTwice(project, ss[n], acts[n], id);
        var i :| ForgottenAt(schema, project, shorter, fewer, id, i);
        assert ForgottenAt(schema, project, ss, acts, id, i) <==> !Touches(schema, ss[n], acts[n], id);
      } else {
        ForgetsIff(schema, project, ss[n], acts[n], id);
      }
    }
  }

  lemma LaterStep(schema: Schema, project: Projection, ss: seq<State>, acts: seq<Action>, id: Id, i: nat)
    requires |ss| == |acts| + 1 && i < |acts| - 1
    ensures ForgottenAt(schema, project, ss, acts, id, i)
       <==> ForgottenAt(schema, project, ss[..|acts|], acts[..|acts| - 1], id, i)
            && !Touches(schema, ss[|acts| - 1], acts[|acts| - 1], id)
  {
    hide Forgets, Touches;
    var n := |acts| - 1;
    var shorter, fewer := ss[..|acts|], acts[..n];
    assert forall j :: 0 <= j < n ==> shorter[j] == ss[j];
    assert forall j :: 0 <= j < n ==> fewer[j] == acts[j];
  }

  /** What is forgotten cannot be forgotten again. */
  lemma NotTwice(project: Projection, s: State, a: Action, id: Id)
    requires Forgotten(project, s, id)
    ensures !Forgets(project, s, a, id)
  {
    hide Agrees;
  }

  /**
   * Exactly when a drained index is wrong about an entity, over every run from a state that had not forgotten it:
   * some step dropped its enqueue, failed its call or wrote its outdated row while nothing else carried it, and no
   * later commit wrote it.
   */
  lemma WrongWhenDrainedIff(schema: Schema, project: Projection, ss: seq<State>, acts: seq<Action>, id: Id)
    requires IsRun(schema, project, ss, acts) && !Forgotten(project, ss[0], id) && Drained(ss[|acts|])
    ensures !Agrees(project, ss[|acts|], id) <==> exists i :: ForgottenAt(schema, project, ss, acts, id, i)
  {
    hide IsRun, Agrees, ForgottenAt;
    ForgottenIff(schema, project, ss, acts, id);
  }

  // ---------------------------------------------------------------- a run that forgets

  const FRESH := State(EMPTY, map[], multiset{}, [], Idle)
  const CREATION := UpsertEntity(Some(Entity("a", "SERVICE", "", "a", "n", 1.0, true, ACTIVE, 1, None, 0, map[])))
  const FIRST := Batch("t1", [CREATION], (i: nat) => Tick(1, 1, 1))

  lemma FirstCommits()
    ensures var p := Prefix(PERMISSIVE, EMPTY, FIRST, 1);
      p.Going? && "a" in p.db.entities && Touched(p.results) == multiset{"a"}
  {
    assert Prefix(PERMISSIVE, EMPTY, FIRST, 0) == Going(EMPTY, []);
    var p := Prefix(PERMISSIVE, EMPTY, FIRST, 1);
    assert p.results == [Result(OpCreated, Some("a"), None)];
    assert p.results[..0] == [];
  }

  /** From empty: create an entity, enqueue, take, read, fail the write. The index is drained and lacks the entity. */
  lemma FailedWriteForgets(project: Projection) returns (ss: seq<State>, acts: seq<Action>)
    ensures IsRun(PERMISSIVE, project, ss, acts) && ss[0] == FRESH
    ensures Drained(ss[|acts|]) && "a" in ss[|acts|].db.entities && !Agrees(project, ss[|acts|], "a")
  {
    var db := Committed(PERMISSIVE, EMPTY, FIRST);
    var row := Lookup(db.entities, "a");
    acts := [Commit(FIRST), Hook("a"), Take, Read, WriteFails];
    var s1 := State(db, map[], multiset{"a"}, [], Idle);
    var s2 := State(db, map[], multiset{}, ["a"], Idle);
    var s3 := State(db, map[], multiset{}, [], Holding("a"));
    var s4 := State(db, map[], multiset{}, [], Loaded("a", row));
    var s5 := State(db, map[], multiset{}, [], Idle);
    ss := [FRESH, s1, s2, s3, s4, s5];
    FirstCommits();
    assert |FIRST.mutations| == 1;
    FirstStep(project);
    NextSteps(project, db, row);
    hide After;
  }

  lemma FirstStep(project: Projection)
    ensures After(PERMISSIVE, project, FRESH, Commit(FIRST))
         == State(Committed(PERMISSIVE, EMPTY, FIRST), map[], multiset{"a"}, [], Idle)
  {
    FirstCommits();
    hide Prefix, Touched;
    assert |FIRST.mutations| == 1;
  }

  lemma NextSteps(project: Projection, db: Db, row: Option<Entity>)
    requires row == Lookup(db.entities, "a")
    ensures After(PERMISSIVE, project, State(db, map[], multiset{"a"}, [], Idle), Hook("a"))
         == State(db, map[], multiset{}, ["a"], Idle)
    ensures After(PERMISSIVE, project, State(db, map[], multiset{}, ["a"], Idle), Take)
         == State(db, map[], multiset{}, [], Holding("a"))
    ensures After(PERMISSIVE, project, State(db, map[], multiset{}, [], Holding("a")), Read)
         == State(db, map[], multiset{}, [], Loaded("a", row))
    ensures After(PERMISSIVE, project, State(db, map[], multiset{}, [], Loaded("a", row)), WriteFails)
         == State(db, map[], multiset{}, [], Idle)
  {
    assert multiset{"a"} - multiset{"a"} == multiset{};
  }
}
