/** The concurrent run of an ingestion plan: one dispatcher, one worker per started ingestor, a mutex with its
    condition variable, and a semaphore. Every interleaving is a sequence of the steps below. */
module Dispatcher {
  import opened Digraph
  import opened TopoOrder

  datatype Status = Success | Partial | Failed

  /** A planned run: the dependency map, a topological order of it, what each ingestor's own run would
      report, and the concurrency cap (0 or less for none). */
  datatype Plan = Plan(deps: Adjacency, order: seq<Node>, outcome: Node -> Status, concurrency: int)

  ghost predicate ValidPlan(p: Plan) {
    IsPlan(p.deps, p.order)
  }

  function Cap(p: Plan): (c: nat)
    ensures c >= 1
  {
    if p.concurrency > 0 then p.concurrency else if |p.order| == 0 then 1 else |p.order|
  }

  /** A worker: waiting for a slot, in its run, wanting the mutex, result recorded, waiters woken, slot returned. */
  datatype WorkerPc = Queued | Running | Finished | Recorded | Notified | Exited

  /** The dispatcher: wanting the mutex, scanning the plan with it, waiting on the condition, or closed. */
  datatype DispatcherPc = WantLock | Scanning(i: nat, progress: bool) | Asleep | Closed

  datatype State = State(pending: set<Node>, done: map<Node, Status>, workers: map<Node, WorkerPc>, disp: DispatcherPc)

  ghost function Init(p: Plan): State {
    State(set u | u in p.order, map[], map[], WantLock)
  }

  // ---------------------------------------------------------------- readiness scans

  predicate DepsSatisfied(deps: seq<Node>, done: map<Node, Status>) {
    forall k :: 0 <= k < |deps| ==> deps[k] in done && done[deps[k]] != Failed
  }

  predicate AnyDepFailed(deps: seq<Node>, done: map<Node, Status>) {
    exists k :: 0 <= k < |deps| && deps[k] in done && done[deps[k]] == Failed
  }

  method ScanDepsSatisfied(deps: seq<Node>, done: map<Node, Status>) returns (r: bool)
    ensures r <==> DepsSatisfied(deps, done)
  {
    for k := 0 to |deps|
      invariant forall j :: 0 <= j < k ==> deps[j] in done && done[deps[j]] != Failed
    {
      if deps[k] !in done {
        return false;
      }
      if done[deps[k]] == Failed {
        return false;
      }
    }
    return true;
  }

  method ScanAnyDepFailed(deps: seq<Node>, done: map<Node, Status>) returns (r: bool)
    ensures r <==> AnyDepFailed(deps, done)
  {
    for k := 0 to |deps|
      invariant forall j :: 0 <= j < k ==> !(deps[j] in done && done[deps[j]] == Failed)
    {
      if deps[k] in done && done[deps[k]] == Failed {
        return true;
      }
    }
    return false;
  }

  // ---------------------------------------------------------------- steps

  /** Holding a semaphore slot. */
  predicate Holding(w: WorkerPc) {
    w == Running || w == Finished || w == Recorded || w == Notified
  }

  function Holders(s: State): set<Node> {
    set u | u in s.workers && Holding(s.workers[u])
  }

  /** The dispatcher takes the mutex at the top of its loop. */
  predicate TakeLock(p: Plan, s: State, t: State) {
    s.disp == WantLock && t == s.(disp := if s.pending == {} then Closed else Scanning(0, false))
  }

  /** What the scan does at one plan position. */
  function Scanned(p: Plan, s: State, u: Node): State
    requires u in p.deps && s.disp.Scanning?
  {
    var i := s.disp.i;
    if u !in s.pending then s.(disp := s.disp.(i := i + 1))
    else if DepsSatisfied(p.deps[u], s.done) then
      s.(pending := s.pending - {u}, workers := s.workers[u := Queued], disp := Scanning(i + 1, true))
    else if AnyDepFailed(p.deps[u], s.done) then
      s.(pending := s.pending - {u}, done := s.done[u := Failed], disp := Scanning(i + 1, true))
    else s.(disp := s.disp.(i := i + 1))
  }

  predicate ScanOne(p: Plan, s: State, t: State) {
    s.disp.Scanning? && s.disp.i < |p.order| && p.order[s.disp.i] in p.deps && t == Scanned(p, s, p.order[s.disp.i])
  }

  /** The end of a scan: wait if nothing moved (giving up the mutex), otherwise loop or close. */
  predicate EndScan(p: Plan, s: State, t: State) {
    s.disp.Scanning? && s.disp.i >= |p.order| &&
    t == s.(disp := if !s.disp.progress then Asleep else if s.pending == {} then Closed else Scanning(0, false))
  }

  predicate Acquire(p: Plan, s: State, t: State, u: Node) {
    u in s.workers && s.workers[u] == Queued && |Holders(s)| < Cap(p) && t == s.(workers := s.workers[u := Running])
  }

  predicate Finish(p: Plan, s: State, t: State, u: Node) {
    u in s.workers && s.workers[u] == Running && t == s.(workers := s.workers[u := Finished])
  }

  /** The worker's critical section; it needs the mutex, which a scanning dispatcher holds. */
  predicate Record(p: Plan, s: State, t: State, u: Node) {
    u in s.workers && s.workers[u] == Finished && !s.disp.Scanning? &&
    t == s.(workers := s.workers[u := Recorded], done := s.done[u := p.outcome(u)])
  }

  predicate Broadcast(p: Plan, s: State, t: State, u: Node) {
    u in s.workers && s.workers[u] == Recorded &&
    t == s.(workers := s.workers[u := Notified], disp := if s.disp == Asleep then WantLock else s.disp)
  }

  predicate Exit(p: Plan, s: State, t: State, u: Node) {
    u in s.workers && s.workers[u] == Notified && t == s.(workers := s.workers[u := Exited])
  }

  predicate WorkerStep(p: Plan, s: State, t: State, u: Node) {
    Acquire(p, s, t, u) || Finish(p, s, t, u) || Record(p, s, t, u) || Broadcast(p, s, t, u) || Exit(p, s, t, u)
  }

  predicate DispatcherStep(p: Plan, s: State, t: State) {
    TakeLock(p, s, t) || ScanOne(p, s, t) || EndScan(p, s, t)
  }

  ghost predicate Next(p: Plan, s: State, t: State) {
    DispatcherStep(p, s, t) || exists u :: WorkerStep(p, s, t, u)
  }

  ghost predicate IsRun(p: Plan, run: seq<State>) {
    |run| > 0 && run[0] == Init(p) && forall i :: 0 <= i < |run| - 1 ==> Next(p, run[i], run[i + 1])
  }

  /** RunAll returns: dispatch over, all workers gone. */
  predicate Terminal(s: State) {
    s.disp == Closed && forall u :: u in s.workers ==> s.workers[u] == Exited
  }

  // ---------------------------------------------------------------- the verdict every run must reach

  function Judge(p: Plan, done: map<Node, Status>, u: Node): Status
    requires u in p.deps
  {
    if AnyDepFailed(p.deps[u], done) then Failed else p.outcome(u)
  }

  /** Statuses of the first k planned ingestors. */
  function VerdictOf(p: Plan, k: nat): map<Node, Status>
    requires k <= |p.order| && forall u :: u in p.order ==> u in p.deps
  {
    if k == 0 then map[]
    else
      var v := VerdictOf(p, k - 1);
      v[p.order[k - 1] := Judge(p, v, p.order[k - 1])]
  }

  function Verdict(p: Plan): map<Node, Status>
    requires forall u :: u in p.order ==> u in p.deps
  {
    VerdictOf(p, |p.order|)
  }

  lemma {:induction false} VerdictKeys(p: Plan, k: nat)
    requires ValidPlan(p) && k <= |p.order|
    ensures forall u :: u in VerdictOf(p, k) <==> u in p.order[..k]
  {
    if k > 0 {
      VerdictKeys(p, k - 1);
      assert p.order[..k] == p.order[..k - 1] + [p.order[k - 1]];
    }
  }

  lemma {:induction false} VerdictStable(p: Plan, j: nat, k: nat)
    requires ValidPlan(p) && j <= k <= |p.order|
    ensures forall u :: u in p.order[..j] ==>
        u in VerdictOf(p, j) && u in VerdictOf(p, k) && VerdictOf(p, k)[u] == VerdictOf(p, j)[u]
    decreases k
  {
    VerdictKeys(p, j);
    if j < k {
      VerdictStable(p, j, k - 1);
      assert p.order[k - 1] !in p.order[..j];
    }
  }

  /** Failed if any dependency failed, otherwise the ingestor's own outcome. */
  lemma VerdictRule(p: Plan, u: Node)
    requires ValidPlan(p) && u in p.deps
    ensures u in Verdict(p) && (forall d :: d in p.deps[u] ==> d in Verdict(p))
    ensures (exists d :: d in p.deps[u] && Verdict(p)[d] == Failed) ==> Verdict(p)[u] == Failed
    ensures (forall d :: d in p.deps[u] ==> Verdict(p)[d] != Failed) ==> Verdict(p)[u] == p.outcome(u)
  {
    hide Verdict;
    VerdictIsJudged(p, u);
    if d :| d in p.deps[u] && Verdict(p)[d] == Failed {
      var k :| 0 <= k < |p.deps[u]| && p.deps[u][k] == d;
    }
  }

  lemma VerdictIsJudged(p: Plan, u: Node)
    requires ValidPlan(p) && u in p.deps
    ensures u in Verdict(p) && (forall d :: d in p.deps[u] ==> d in Verdict(p))
    ensures Verdict(p)[u] == Judge(p, Verdict(p), u)
  {
    hide VerdictOf, Judge;
    var i := Position(p.order, u);
    assert p.order[..i + 1] == p.order[..i] + [u];
    VerdictStable(p, i + 1, |p.order|);
    VerdictStable(p, i, |p.order|);
    forall d | d in p.deps[u] ensures d in VerdictOf(p, i) && d in Verdict(p) && Verdict(p)[d] == VerdictOf(p, i)[d] {
      assert d in Succ(p.deps, p.order[i]);
    }
    VerdictStep(p, i);
    JudgeAlike(p, VerdictOf(p, i), Verdict(p), u);
  }

  lemma VerdictStep(p: Plan, i: nat)
    requires ValidPlan(p) && i < |p.order|
    ensures p.order[i] in VerdictOf(p, i + 1)
        && VerdictOf(p, i + 1)[p.order[i]] == Judge(p, VerdictOf(p, i), p.order[i])
  {
  }

  lemma JudgeAlike(p: Plan, a: map<Node, Status>, b: map<Node, Status>, u: Node)
    requires u in p.deps && forall d :: d in p.deps[u] ==> d in a && d in b && a[d] == b[d]
    ensures Judge(p, a, u) == Judge(p, b, u)
  {
    assert forall k :: 0 <= k < |p.deps[u]| ==> p.deps[u][k] in p.deps[u];
  }

  // ---------------------------------------------------------------- invariant

  /** Started, and its result not yet recorded. */
  predicate Active(s: State, u: Node) {
    u in s.workers && (s.workers[u] == Queued || s.workers[u] == Running || s.workers[u] == Finished)
  }

  predicate Stuck(p: Plan, s: State, u: Node)
    requires u in p.deps
  {
    u in s.pending ==> !DepsSatisfied(p.deps[u], s.done) && !AnyDepFailed(p.deps[u], s.done)
  }

  /** Every ingestor is in exactly one place. */
  ghost predicate Placed(p: Plan, s: State) {
    && (forall u :: u in s.pending ==> u in p.deps && u !in s.done && u !in s.workers)
    && (forall u :: u in s.workers ==> u in p.deps && (Active(s, u) <==> u !in s.done))
    && (forall u :: u in s.done ==> u in p.deps)
    && (forall u :: u in p.deps ==> u in s.pending || u in s.done || u in s.workers)
  }

  /** Recorded statuses are the verdict, and only ingestors whose dependencies all ended well were started. */
  ghost predicate Right(p: Plan, s: State)
    requires ValidPlan(p)
  {
    && (forall u :: u in s.done ==> u in Verdict(p) && s.done[u] == Verdict(p)[u])
    && (forall u :: u in s.workers ==> u in p.deps && DepsSatisfied(p.deps[u], s.done))
  }

  /** No wake-up can be lost: a waiting dispatcher has a broadcast coming, or nothing it could do. */
  ghost predicate NoLostWakeup(p: Plan, s: State)
    requires ValidPlan(p)
  {
    match s.disp
    case WantLock => true
    case Closed => s.pending == {}
    case Scanning(i, progress) =>
      i <= |p.order| && (!progress ==> s.pending != {} && forall j :: 0 <= j < i ==> Stuck(p, s, p.order[j]))
    case Asleep =>
      s.pending != {} &&
      ((exists u :: u in s.workers && s.workers[u] == Recorded)
       || forall j :: 0 <= j < |p.order| ==> Stuck(p, s, p.order[j]))
  }

  ghost predicate Inv(p: Plan, s: State)
    requires ValidPlan(p)
  {
    Placed(p, s) && Right(p, s) && NoLostWakeup(p, s) && |Holders(s)| <= Cap(p)
  }

  lemma InitInv(p: Plan)
    requires ValidPlan(p)
    ensures Inv(p, Init(p))
  {
    assert Holders(Init(p)) == {};
  }

  /** A new holder is one more; anything else leaves the count or lowers it. */
  lemma HoldersAfter(s: State, t: State, u: Node)
    requires forall v :: v != u ==>
        (v in t.workers <==> v in s.workers) && (v in s.workers ==> t.workers[v] == s.workers[v])
    ensures |Holders(t)| <= |Holders(s)| + 1
    ensures (u in t.workers && Holding(t.workers[u]) ==> u in s.workers && Holding(s.workers[u])) ==>
        |Holders(t)| <= |Holders(s)|
  {
    var a, b := Holders(s), Holders(t);
    if u in b && u !in a {
      assert b == a + {u};
    } else if u !in b {
      assert b == a - {u};
    } else {
      assert b == a;
    }
  }

  /** Failing because a dependency failed is what the verdict says. */
  lemma SkipIsRight(p: Plan, s: State, u: Node)
    requires ValidPlan(p) && Right(p, s) && u in p.deps && AnyDepFailed(p.deps[u], s.done)
    ensures u in Verdict(p) && Verdict(p)[u] == Failed
  {
    hide VerdictOf;
    VerdictRule(p, u);
    var k :| 0 <= k < |p.deps[u]| && p.deps[u][k] in s.done && s.done[p.deps[u][k]] == Failed;
    assert Verdict(p)[p.deps[u][k]] == Failed;
  }

  /** Ending with one's own outcome, all dependencies having ended well, is what the verdict says. */
  lemma RecordIsRight(p: Plan, s: State, u: Node)
    requires ValidPlan(p) && Right(p, s) && u in s.workers
    ensures u in Verdict(p) && Verdict(p)[u] == p.outcome(u)
  {
    hide VerdictOf;
    VerdictRule(p, u);
    forall k | 0 <= k < |p.deps[u]| ensures Verdict(p)[p.deps[u][k]] != Failed {
      assert p.deps[u][k] in s.done;
    }
  }

  /** Recording more results takes nothing away. */
  lemma SatisfiedStays(deps: seq<Node>, a: map<Node, Status>, b: map<Node, Status>)
    requires DepsSatisfied(deps, a) && forall u :: u in a ==> u in b && b[u] == a[u]
    ensures DepsSatisfied(deps, b)
  {
  }

  lemma RightStays(p: Plan, s: State, t: State)
    requires ValidPlan(p) && Right(p, s)
    requires forall u :: u in s.done ==> u in t.done && t.done[u] == s.done[u]
    requires forall u :: u in t.done && u !in s.done ==> u in Verdict(p) && t.done[u] == Verdict(p)[u]
    requires forall u :: u in t.workers && u !in s.workers ==> u in p.deps && DepsSatisfied(p.deps[u], s.done)
    ensures Right(p, t)
  {
    hide DepsSatisfied, VerdictOf;
    forall u | u in t.workers ensures u in p.deps && DepsSatisfied(p.deps[u], t.done) {
      SatisfiedStays(p.deps[u], s.done, t.done);
    }
  }

  lemma ScanKeepsPlaced(p: Plan, s: State, t: State)
    requires Placed(p, s) && ScanOne(p, s, t)
    ensures Placed(p, t)
  {
    hide DepsSatisfied, AnyDepFailed;
  }

  lemma ScanKeepsRight(p: Plan, s: State, t: State)
    requires ValidPlan(p) && Placed(p, s) && Right(p, s) && ScanOne(p, s, t)
    ensures Right(p, t)
  {
    hide DepsSatisfied, AnyDepFailed, VerdictOf;
    var u := p.order[s.disp.i];
    if u in s.pending && !DepsSatisfied(p.deps[u], s.done) && AnyDepFailed(p.deps[u], s.done) {
      SkipIsRight(p, s, u);
    }
    RightStays(p, s, t);
  }

  lemma ScanKeepsWakeup(p: Plan, s: State, t: State)
    requires ValidPlan(p) && Placed(p, s) && NoLostWakeup(p, s) && ScanOne(p, s, t)
    ensures NoLostWakeup(p, t)
  {
    hide DepsSatisfied, AnyDepFailed, Placed;
    if t.disp.progress {
    } else {
      assert t.pending == s.pending && t.done == s.done;
      forall j | 0 <= j < t.disp.i ensures Stuck(p, t, p.order[j]) {
        assert j < s.disp.i ==> Stuck(p, s, p.order[j]);
      }
    }
  }

  lemma DispatcherKeepsInv(p: Plan, s: State, t: State)
    requires ValidPlan(p) && Inv(p, s) && DispatcherStep(p, s, t)
    ensures Inv(p, t)
  {
    hide DepsSatisfied, AnyDepFailed, VerdictOf, Verdict, Placed, Right;
    if ScanOne(p, s, t) {
      hide NoLostWakeup;
      ScanKeepsPlaced(p, s, t);
      ScanKeepsRight(p, s, t);
      ScanKeepsWakeup(p, s, t);
      HoldersAfter(s, t, p.order[s.disp.i]);
    } else {
      assert Holders(t) == Holders(s);
      RestSame(p, s, t);
      if EndScan(p, s, t) && !s.disp.progress {
        forall j | 0 <= j < |p.order| ensures Stuck(p, t, p.order[j]) {
          assert Stuck(p, s, p.order[j]);
        }
      }
    }
  }

  lemma RestSame(p: Plan, s: State, t: State)
    requires ValidPlan(p) && Placed(p, s) && Right(p, s) && t == s.(disp := t.disp)
    ensures Placed(p, t) && Right(p, t)
  {
    hide VerdictOf, DepsSatisfied;
  }

  lemma WorkerKeepsPlaced(p: Plan, s: State, t: State, u: Node)
    requires Placed(p, s) && WorkerStep(p, s, t, u)
    ensures Placed(p, t)
  {
    hide Cap, Holders;
  }

  lemma WorkerKeepsRight(p: Plan, s: State, t: State, u: Node)
    requires ValidPlan(p) && Placed(p, s) && Right(p, s) && WorkerStep(p, s, t, u)
    ensures Right(p, t)
  {
    hide DepsSatisfied, VerdictOf, Cap, Holders, Verdict;
    assert u in s.workers && t.workers.Keys == s.workers.Keys;
    if Record(p, s, t, u) {
      RecordIsRight(p, s, u);
    }
    RightStays(p, s, t);
  }

  lemma WorkerKeepsWakeup(p: Plan, s: State, t: State, u: Node)
    requires ValidPlan(p) && NoLostWakeup(p, s) && WorkerStep(p, s, t, u)
    ensures NoLostWakeup(p, t)
  {
    hide DepsSatisfied, AnyDepFailed, Cap, Holders;
    if Record(p, s, t, u) {
      assert t.workers[u] == Recorded;
    } else {
      assert t.done == s.done && t.pending == s.pending;
      assert forall v :: v in p.deps ==> (Stuck(p, t, v) <==> Stuck(p, s, v));
      if t.disp == Asleep && exists v :: v in s.workers && s.workers[v] == Recorded {
        var v :| v in s.workers && s.workers[v] == Recorded;
        assert v in t.workers && t.workers[v] == Recorded;
      }
    }
  }

  lemma WorkerKeepsInv(p: Plan, s: State, t: State, u: Node)
    requires ValidPlan(p) && Inv(p, s) && WorkerStep(p, s, t, u)
    ensures Inv(p, t)
  {
    hide VerdictOf, Verdict, Placed, Right, NoLostWakeup, DepsSatisfied;
    HoldersAfter(s, t, u);
    WorkerKeepsPlaced(p, s, t, u);
    WorkerKeepsRight(p, s, t, u);
    WorkerKeepsWakeup(p, s, t, u);
  }

  /** Every reachable state of every interleaving. */
  lemma {:induction false} RunKeepsInv(p: Plan, run: seq<State>)
    requires ValidPlan(p) && IsRun(p, run)
    ensures Inv(p, run[|run| - 1])
    decreases |run|
  {
    hide Inv, DispatcherStep, WorkerStep;
    if |run| == 1 {
      InitInv(p);
    } else {
      var init := run[..|run| - 1];
      assert IsRun(p, init);
      RunKeepsInv(p, init);
      var s, t := init[|init| - 1], run[|run| - 1];
      assert Next(p, run[|run| - 2], run[|run| - 1]);
      if DispatcherStep(p, s, t) {
        DispatcherKeepsInv(p, s, t);
      } else {
        var u :| WorkerStep(p, s, t, u);
        WorkerKeepsInv(p, s, t, u);
      }
    }
  }

  /**
   * Safety: never more workers at work than the configured concurrency, if one is configured, and nothing starts
   * before all its dependencies ended non-failed.
   */
  lemma RunIsSafe(p: Plan, run: seq<State>, u: Node)
    requires ValidPlan(p) && IsRun(p, run) && u in run[|run| - 1].workers
    ensures var s := run[|run| - 1];
            && (p.concurrency > 0 ==> |Holders(s)| <= p.concurrency)
            && u in p.deps && forall d :: d in p.deps[u] ==> d in s.done && s.done[d] != Failed
  {
    hide Placed, NoLostWakeup, VerdictOf, Next;
    RunKeepsInv(p, run);
    var s := run[|run| - 1];
    assert DepsSatisfied(p.deps[u], s.done);
  }

  /** A run's workers at work are exactly the started ones that have neither queued nor exited. */
  lemma HoldersAre(s: State, u: Node)
    ensures u in Holders(s) <==> u in s.workers && s.workers[u] != Queued && s.workers[u] != Exited
  {
  }

  // ---------------------------------------------------------------- progress

  /**
   * A queued worker can start exactly when no concurrency is configured or fewer than that many are at work: no slot
   * is withheld and none is given twice.
   */
  lemma StartsIffSlotFree(p: Plan, run: seq<State>, u: Node)
    requires ValidPlan(p) && IsRun(p, run)
    requires var s := run[|run| - 1]; u in s.workers && s.workers[u] == Queued
    ensures var s := run[|run| - 1];
      Next(p, s, s.(workers := s.workers[u := Running])) <==> p.concurrency <= 0 || |Holders(s)| < p.concurrency
  {
    hide VerdictOf, Verdict, Right, NoLostWakeup, DepsSatisfied, AnyDepFailed, DispatcherStep;
    RunKeepsInv(p, run);
    var s := run[|run| - 1];
    var t := s.(workers := s.workers[u := Running]);
    if p.concurrency <= 0 {
      QueuedLeavesRoom(p, s, u);
    }
    if |Holders(s)| < Cap(p) {
      assert Acquire(p, s, t, u);
      assert WorkerStep(p, s, t, u);
    }
    if Next(p, s, t) {
      OnlyAcquireStarts(p, s, t, u);
    }
  }

  /** Without a configured concurrency there is a slot for every ingestor of the plan. */
  lemma QueuedLeavesRoom(p: Plan, s: State, u: Node)
    requires ValidPlan(p) && Placed(p, s) && u in s.workers && s.workers[u] == Queued
    ensures |Holders(s)| < |p.order|
  {
    var all := set v | v in p.order;
    assert u in all && Holders(s) <= all - {u};
    Fewer(Holders(s), all - {u});
    SetOfSeq(p.order);
    assert |all - {u}| == |all| - 1;
  }

  lemma Fewer(a: set<Node>, b: set<Node>)
    requires a <= b
    ensures |a| <= |b|
  {
    assert b == a + (b - a);
  }

  lemma {:induction false} SetOfSeq(xs: seq<Node>)
    ensures |set v | v in xs| <= |xs|
  {
    if xs != [] {
      SetOfSeq(xs[1..]);
      assert (set v | v in xs) == {xs[0]} + set v | v in xs[1..];
    }
  }

  /** A step that only turns u from queued to running is u taking a slot. */
  lemma OnlyAcquireStarts(p: Plan, s: State, t: State, u: Node)
    requires u in s.workers && s.workers[u] == Queued && t == s.(workers := s.workers[u := Running]) && Next(p, s, t)
    ensures |Holders(s)| < Cap(p)
  {
    hide Holders, DepsSatisfied, AnyDepFailed;
    assert t.workers[u] == Running;
    if DispatcherStep(p, s, t) {
      DispatcherStartsNone(p, s, t, u);
      assert false;
    }
    var v :| WorkerStep(p, s, t, v);
    assert v == u;
  }

  lemma DispatcherStartsNone(p: Plan, s: State, t: State, u: Node)
    requires DispatcherStep(p, s, t) && u in s.workers && s.workers[u] == Queued
    ensures u in t.workers && t.workers[u] == Queued
  {
    hide DepsSatisfied, AnyDepFailed;
  }

  ghost predicate CanMove(p: Plan, s: State) {
    exists t :: Next(p, s, t)
  }

  lemma WorkerCanMove(p: Plan, s: State, u: Node)
    requires u in s.workers && s.workers[u] != Exited && !s.disp.Scanning?
    requires s.workers[u] == Queued ==> |Holders(s)| < Cap(p)
    ensures CanMove(p, s)
  {
    var t := match s.workers[u]
             case Queued => s.(workers := s.workers[u := Running])
             case Running => s.(workers := s.workers[u := Finished])
             case Finished => s.(workers := s.workers[u := Recorded], done := s.done[u := p.outcome(u)])
             case Recorded =>
               s.(workers := s.workers[u := Notified], disp := if s.disp == Asleep then WantLock else s.disp)
             case Notified => s.(workers := s.workers[u := Exited])
             case Exited => s;
    assert WorkerStep(p, s, t, u);
    assert Next(p, s, t);
  }

  /** With work pending and nothing in flight, the first pending ingestor of the plan is not stuck. */
  lemma SomethingToDo(p: Plan, s: State)
    requires ValidPlan(p) && Placed(p, s) && s.pending != {}
    requires forall u :: u in s.workers ==> s.workers[u] == Exited
    ensures exists j :: 0 <= j < |p.order| && !Stuck(p, s, p.order[j])
  {
    var u :| u in s.pending;
    var i := Position(p.order, u);
    var j := FirstPending(p, s, i);
    var v := p.order[j];
    forall k | 0 <= k < |p.deps[v]| ensures p.deps[v][k] in s.done {
      var d := p.deps[v][k];
      assert d in Succ(p.deps, p.order[j]);
      var m :| 0 <= m < j && p.order[m] == d;
      assert p.order[m] !in s.pending && d in p.order;
    }
    assert DepsSatisfied(p.deps[v], s.done) || AnyDepFailed(p.deps[v], s.done);
    assert !Stuck(p, s, p.order[j]);
  }

  lemma {:induction false} FirstPending(p: Plan, s: State, i: nat) returns (j: nat)
    requires i < |p.order| && p.order[i] in s.pending
    ensures j < |p.order| && p.order[j] in s.pending && forall m :: 0 <= m < j ==> p.order[m] !in s.pending
    decreases i
  {
    if m :| 0 <= m < i && p.order[m] in s.pending {
      j := FirstPending(p, s, m);
    } else {
      j := i;
    }
  }

  /** No reachable state is stuck: unless the run is over, some step is possible. */
  lemma NeverStuck(p: Plan, s: State)
    requires ValidPlan(p) && Inv(p, s) && !Terminal(s)
    ensures CanMove(p, s)
  {
    hide VerdictOf, Verdict, Right, DepsSatisfied, AnyDepFailed;
    if u :| u in s.workers && s.workers[u] != Exited && s.workers[u] != Queued && !s.disp.Scanning? {
      WorkerCanMove(p, s, u);
    } else if s.disp == WantLock {
      assert Next(p, s, s.(disp := if s.pending == {} then Closed else Scanning(0, false)));
    } else if s.disp.Scanning? {
      if s.disp.i < |p.order| {
        assert ScanOne(p, s, Scanned(p, s, p.order[s.disp.i]));
        assert Next(p, s, Scanned(p, s, p.order[s.disp.i]));
      } else {
        var t := s.(disp := if !s.disp.progress then Asleep else if s.pending == {} then Closed
          else Scanning(0, false));
        assert EndScan(p, s, t) && Next(p, s, t);
      }
    } else {
      assert Holders(s) == {};
      if u :| u in s.workers && s.workers[u] != Exited {
        WorkerCanMove(p, s, u);
      } else {
        SomethingToDo(p, s);
        assert false;
      }
    }
  }

  // ---------------------------------------------------------------- every run ends, and ends alike

  function Rank(w: WorkerPc): nat {
    match w
    case Queued => 5
    case Running => 4
    case Finished => 3
    case Recorded => 2
    case Notified => 1
    case Exited => 0
  }

  /** The steps an ingestor still has ahead of it. */
  function Ahead(s: State, u: Node): nat {
    if u in s.pending then 6 else if u in s.workers then Rank(s.workers[u]) else 0
  }

  function Work(s: State, order: seq<Node>): nat {
    if order == [] then 0 else Ahead(s, order[0]) + Work(s, order[1..])
  }

  /** The scanning steps left before the dispatcher must make progress or wait. */
  function ScanLeft(p: Plan, s: State): nat {
    var n := |p.order|;
    match s.disp
    case Closed => 0
    case Asleep => 1
    case WantLock => n + 3
    case Scanning(i, progress) => if i > n then 0 else if progress then 2 * n - i + 4 else n - i + 2
  }

  function Measure(p: Plan, s: State): nat {
    Work(s, p.order) * (2 * |p.order| + 5) + ScanLeft(p, s)
  }

  lemma {:induction false} WorkSame(s: State, t: State, order: seq<Node>)
    requires forall u :: u in order ==> Ahead(t, u) == Ahead(s, u)
    ensures Work(t, order) == Work(s, order)
  {
    hide Ahead;
    if order != [] {
      assert order[0] in order;
      WorkSame(s, t, order[1..]);
    }
  }

  /** One ingestor moving on is less work. */
  lemma {:induction false} WorkFalls(s: State, t: State, order: seq<Node>, u: Node)
    requires u in order && Ahead(t, u) < Ahead(s, u)
    requires forall v :: v in order && v != u ==> Ahead(t, v) == Ahead(s, v)
    ensures Work(t, order) < Work(s, order)
  {
    hide Ahead;
    if order[0] != u {
      assert u in order[1..];
      WorkFalls(s, t, order[1..], u);
    } else {
      WorkAtMost(s, t, order[1..]);
    }
  }

  lemma {:induction false} WorkAtMost(s: State, t: State, order: seq<Node>)
    requires forall v :: v in order ==> Ahead(t, v) <= Ahead(s, v)
    ensures Work(t, order) <= Work(s, order)
  {
    hide Ahead;
    if order != [] {
      assert order[0] in order;
      WorkAtMost(s, t, order[1..]);
    }
  }

  lemma LessWorkLessMeasure(p: Plan, s: State, t: State)
    requires Work(t, p.order) <= Work(s, p.order)
    requires Work(t, p.order) == Work(s, p.order) ==> ScanLeft(p, t) < ScanLeft(p, s)
    ensures Measure(p, t) < Measure(p, s)
  {
    hide Work;
    assert ScanLeft(p, t) < 2 * |p.order| + 5;
    hide ScanLeft;
    Lexicographic(Work(s, p.order), Work(t, p.order), 2 * |p.order| + 5, ScanLeft(p, s), ScanLeft(p, t));
  }

  lemma Lexicographic(a: nat, b: nat, n: nat, x: nat, y: nat)
    requires b < a || (b == a && y < x)
    requires y < n
    ensures b * n + y < a * n + x
  {
    if b < a {
      assert (a - b - 1) * n >= 0;
      assert a * n == (a - b - 1) * n + b * n + n;
    }
  }

  lemma DispatcherLowersMeasure(p: Plan, s: State, t: State)
    requires ValidPlan(p) && Inv(p, s) && DispatcherStep(p, s, t)
    ensures Measure(p, t) < Measure(p, s)
  {
    hide Placed, Right, NoLostWakeup, Work, Measure, ScanLeft, Ahead, Scanned, TakeLock, EndScan;
    if ScanOne(p, s, t) && t.pending != s.pending {
      StartedIsLessWork(p, s, t);
      WorkFalls(s, t, p.order, p.order[s.disp.i]);
    } else {
      OtherwiseSameWork(p, s, t);
      WorkSame(s, t, p.order);
      ScanFalls(p, s, t);
    }
    LessWorkLessMeasure(p, s, t);
  }

  lemma StartedIsLessWork(p: Plan, s: State, t: State)
    requires ValidPlan(p) && Inv(p, s) && ScanOne(p, s, t) && t.pending != s.pending
    ensures Ahead(t, p.order[s.disp.i]) < Ahead(s, p.order[s.disp.i])
    ensures forall v :: v in p.order && v != p.order[s.disp.i] ==> Ahead(t, v) == Ahead(s, v)
  {
    hide VerdictOf, Verdict, Right, NoLostWakeup, DepsSatisfied, AnyDepFailed;
  }

  lemma OtherwiseSameWork(p: Plan, s: State, t: State)
    requires ValidPlan(p) && Inv(p, s) && DispatcherStep(p, s, t) && !(ScanOne(p, s, t) && t.pending != s.pending)
    ensures forall v :: v in p.order ==> Ahead(t, v) == Ahead(s, v)
  {
    hide VerdictOf, Verdict, Right, NoLostWakeup, DepsSatisfied, AnyDepFailed;
  }

  lemma WorkerLowersMeasure(p: Plan, s: State, t: State, u: Node)
    requires ValidPlan(p) && Inv(p, s) && WorkerStep(p, s, t, u)
    ensures Measure(p, t) < Measure(p, s)
  {
    hide VerdictOf, Verdict, Right, NoLostWakeup, Work, Measure, DepsSatisfied, AnyDepFailed, ScanLeft, Holders, Cap;
    assert u in p.order;
    WorkFalls(s, t, p.order, u);
    LessWorkLessMeasure(p, s, t);
  }

  /** Every step of every interleaving lowers the measure, so no run is longer than it. */
  lemma StepLowersMeasure(p: Plan, s: State, t: State)
    requires ValidPlan(p) && Inv(p, s) && Next(p, s, t)
    ensures Measure(p, t) < Measure(p, s)
  {
    hide Inv, Measure, DispatcherStep, WorkerStep;
    if DispatcherStep(p, s, t) {
      DispatcherLowersMeasure(p, s, t);
    } else {
      var u :| WorkerStep(p, s, t, u);
      WorkerLowersMeasure(p, s, t, u);
    }
  }

  lemma ScanFalls(p: Plan, s: State, t: State)
    requires ValidPlan(p) && NoLostWakeup(p, s) && DispatcherStep(p, s, t)
        && (ScanOne(p, s, t) ==> t.pending == s.pending)
    ensures ScanLeft(p, t) < ScanLeft(p, s)
  {
    hide DepsSatisfied, AnyDepFailed, Stuck;
  }

  lemma {:induction false} RunsAreBounded(p: Plan, run: seq<State>)
    requires ValidPlan(p) && IsRun(p, run)
    ensures |run| - 1 + Measure(p, run[|run| - 1]) <= Measure(p, Init(p))
    decreases |run|
  {
    hide Inv, Measure, DispatcherStep, WorkerStep, Next;
    if |run| > 1 {
      var init := run[..|run| - 1];
      assert IsRun(p, init);
      RunsAreBounded(p, init);
      RunKeepsInv(p, init);
      assert Next(p, run[|run| - 2], run[|run| - 1]);
      StepLowersMeasure(p, run[|run| - 2], run[|run| - 1]);
    }
  }

  /** Confluence: a run that cannot go on is over, and every such run recorded the same verdict. */
  lemma MaximalRunsAgree(p: Plan, run: seq<State>)
    requires ValidPlan(p) && IsRun(p, run) && !CanMove(p, run[|run| - 1])
    ensures Terminal(run[|run| - 1]) && run[|run| - 1].done == Verdict(p)
  {
    hide VerdictOf, Next, DepsSatisfied;
    RunKeepsInv(p, run);
    var s := run[|run| - 1];
    if !Terminal(s) {
      NeverStuck(p, s);
      assert false;
    }
    VerdictKeys(p, |p.order|);
    assert p.order[..|p.order|] == p.order;
    forall u ensures u in s.done <==> u in Verdict(p) {
      assert u in p.order <==> u in p.deps;
    }
  }
}
