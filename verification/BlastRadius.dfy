/** The impact analyser: which callers a change reaches, with decaying probability. */
module BlastRadius {
  import opened Wrappers
  import Sorting

  type Id = string

  datatype Edge = Edge(fromId: Id, toId: Id, kind: string, confidence: real)

  /** What the storage service answers: for each known id, its inbound edges. */
  type Inbound = map<Id, seq<Edge>>

  datatype Frame = Frame(nodeId: Id, depth: nat, prob: real)

  datatype Report = Report(affected: seq<Frame>, maxDepth: nat, totalAffected: nat)

  const DEFAULT_DECAY := 0.40
  const PRUNE_THRESHOLD := 0.10

  function Decay(kind: string): (d: real)
    ensures 0.0 < d <= 1.0
  {
    match kind
    case "IMPORTS" => 0.95
    case "RUNTIME_CALLS" => 0.80
    case "DATA_COUPLED_WITH" => 0.70
    case "DEPENDS_ON" => 0.50
    case _ => DEFAULT_DECAY
  }

  // ---------------------------------------------------------------- inbound walks

  /** The factor one edge contributes. */
  function Factor(e: Edge): real {
    Decay(e.kind) * e.confidence
  }

  /** A probability carried over one edge. */
  function Carry(p: real, e: Edge): real {
    p * Factor(e)
  }

  ghost predicate Confident(g: Inbound) {
    forall n, e :: n in g && e in g[n] ==> 0.0 <= e.confidence <= 1.0
  }

  /** Where a walk against the edges from `origin` ends. */
  ghost function End(origin: Id, w: seq<Edge>): Id {
    if w == [] then origin else w[|w| - 1].fromId
  }

  ghost predicate IsWalk(g: Inbound, origin: Id, w: seq<Edge>) {
    w == [] || (
      var init, e := w[..|w| - 1], w[|w| - 1];
      IsWalk(g, origin, init) && e.toId == End(origin, init) && e.toId in g && e in g[e.toId])
  }

  ghost function Product(w: seq<Edge>): real {
    if w == [] then 1.0 else Carry(Product(w[..|w| - 1]), w[|w| - 1])
  }

  /** A walk that matters: short enough and more probable than the pruning threshold. */
  ghost predicate Qualifies(g: Inbound, origin: Id, maxDepth: nat, w: seq<Edge>) {
    IsWalk(g, origin, w) && |w| <= maxDepth && Product(w) > PRUNE_THRESHOLD
  }

  /** The rate of an edge is its kind's factor. */
  ghost predicate IsRate(kind: string, rate: real) {
    rate == if kind == "IMPORTS" then 0.95 else if kind == "RUNTIME_CALLS" then 0.80
            else if kind == "DATA_COUPLED_WITH" then 0.70 else if kind == "DEPENDS_ON" then 0.50 else 0.40
  }

  /** What one more edge makes of a probability: the empty walk is certain, each edge costs its kind's factor. */
  lemma ProductStep(w: seq<Edge>, rate: real)
    requires w != [] && IsRate(w[|w| - 1].kind, rate)
    ensures Product([]) == 1.0 && Product(w) == Product(w[..|w| - 1]) * (rate * w[|w| - 1].confidence)
  {
    hide *;
    RateIsDecay(w[|w| - 1].kind, rate);
    ProductUnfolds(w);
    CarryAtRate(Product(w[..|w| - 1]), w[|w| - 1], rate);
  }

  lemma RateIsDecay(kind: string, rate: real)
    requires IsRate(kind, rate)
    ensures rate == Decay(kind)
  {
  }

  lemma ProductUnfolds(w: seq<Edge>)
    requires w != []
    ensures Product([]) == 1.0 && Product(w) == Carry(Product(w[..|w| - 1]), w[|w| - 1])
  {
    hide Carry;
  }

  lemma CarryAtRate(p: real, e: Edge, rate: real)
    requires rate == Decay(e.kind)
    ensures Carry(p, e) == p * (rate * e.confidence)
  {
    hide Decay;
  }

  /** Each edge is a listed one that leads into where the walk stands; the first leads into the origin. */
  ghost predicate Linked(g: Inbound, origin: Id, w: seq<Edge>) {
    forall i :: 0 <= i < |w| ==> LinkedAt(g, origin, w, i)
  }

  ghost predicate LinkedAt(g: Inbound, origin: Id, w: seq<Edge>, i: nat)
    requires i < |w|
  {
    var at := if i == 0 then origin else w[i - 1].fromId;
    w[i].toId == at && at in g && w[i] in g[at]
  }

  /** A walk that matters, edge by edge: linked, short enough, and of probability above a tenth. */
  lemma {:induction false} QualifiesIff(g: Inbound, origin: Id, maxDepth: nat, w: seq<Edge>)
    ensures IsWalk(g, origin, w) <==> Linked(g, origin, w)
    ensures Qualifies(g, origin, maxDepth, w) <==> Linked(g, origin, w) && |w| <= maxDepth && Product(w) > 0.10
  {
    hide Product;
    if w != [] {
      var init := w[..|w| - 1];
      QualifiesIff(g, origin, maxDepth, init);
      forall i: nat | i < |init| ensures LinkedAt(g, origin, init, i) <==> LinkedAt(g, origin, w, i) {
      }
      assert LinkedAt(g, origin, w, |init|) <==>
             w[|init|].toId == End(origin, init) && w[|init|].toId in g && w[|init|] in g[w[|init|].toId];
      hide LinkedAt;
      assert Linked(g, origin, w) <==> Linked(g, origin, init) && LinkedAt(g, origin, w, |init|);
    }
  }

  lemma FactorInUnit(e: Edge)
    requires 0.0 <= e.confidence <= 1.0
    ensures 0.0 <= Factor(e) <= 1.0
  {
    var d := Decay(e.kind);
    assert d * e.confidence >= 0.0;
    assert d * (1.0 - e.confidence) >= 0.0;
  }

  lemma MulMono(a: real, b: real, c: real)
    requires a <= b && c >= 0.0
    ensures a * c <= b * c
  {
    assert (b - a) * c >= 0.0;
  }

  lemma MulShrinks(a: real, c: real)
    requires a >= 0.0 && 0.0 <= c <= 1.0
    ensures 0.0 <= a * c <= a
  {
    assert a * (1.0 - c) >= 0.0;
  }

  lemma CarryShrinks(p: real, e: Edge)
    requires p >= 0.0 && 0.0 <= e.confidence <= 1.0
    ensures 0.0 <= Carry(p, e) <= p
  {
    hide Factor;
    FactorInUnit(e);
    MulShrinks(p, Factor(e));
    var c := Factor(e);
    var r := p * c;
    assert r <= p;
    assert 0.0 <= r;
    assert Carry(p, e) == r;
  }

  lemma CarryMono(p: real, q: real, e: Edge)
    requires p <= q && 0.0 <= e.confidence <= 1.0
    ensures Carry(p, e) <= Carry(q, e)
  {
    hide Factor;
    FactorInUnit(e);
    MulMono(p, q, Factor(e));
  }

  lemma {:induction false} ProductInUnit(g: Inbound, origin: Id, w: seq<Edge>)
    requires Confident(g) && IsWalk(g, origin, w)
    ensures 0.0 <= Product(w) <= 1.0
  {
    hide Carry;
    if w != [] {
      var init, e := w[..|w| - 1], w[|w| - 1];
      ProductInUnit(g, origin, init);
      CarryShrinks(Product(init), e);
    }
  }

  // ---------------------------------------------------------------- the report, specified

  /** f is exactly the end, length and product of some walk that matters. */
  ghost predicate Witnessed(g: Inbound, origin: Id, maxDepth: nat, f: Frame) {
    exists w :: Qualifies(g, origin, maxDepth, w) && End(origin, w) == f.nodeId && |w| == f.depth
      && Product(w) == f.prob
  }

  /** Some frame of fs is at the same node, no deeper and no less probable. */
  ghost predicate Dominated(fs: seq<Frame>, node: Id, depth: nat, prob: real) {
    exists f :: f in fs && f.nodeId == node && f.depth <= depth && f.prob >= prob
  }

  ghost predicate ReportIsExact(g: Inbound, origin: Id, maxDepth: nat, affected: seq<Frame>) {
    && (forall f :: f in affected ==> f.nodeId != origin && Witnessed(g, origin, maxDepth, f))
    && (forall w :: Qualifies(g, origin, maxDepth, w) && End(origin, w) != origin ==>
          Dominated(affected, End(origin, w), |w|, Product(w)))
  }

  /** Entries of one node: each further down is strictly less probable, and no deeper. */
  ghost predicate Falling(affected: seq<Frame>) {
    forall i, j :: 0 <= i < j < |affected| && affected[i].nodeId == affected[j].nodeId ==>
      affected[i].prob > affected[j].prob && affected[i].depth >= affected[j].depth
  }

  /** Some walk of exactly this length beats every shorter one to the node. */
  ghost predicate ImprovesAt(g: Inbound, origin: Id, maxDepth: nat, node: Id, depth: nat) {
    exists w :: Qualifies(g, origin, maxDepth, w) && End(origin, w) == node && |w| == depth
      && BeatsShorter(g, origin, maxDepth, w)
  }

  ghost predicate BeatsShorter(g: Inbound, origin: Id, maxDepth: nat, w: seq<Edge>) {
    forall v :: Qualifies(g, origin, maxDepth, v) && End(origin, v) == End(origin, w) && |v| < |w| ==>
      Product(v) < Product(w)
  }

  /**
   * A node is listed at a depth exactly when some walk of that length beats every shorter one; so it is listed at
   * several depths exactly when longer walks keep improving on shorter ones.
   */
  lemma ListedAtDepthIff(g: Inbound, origin: Id, maxDepth: nat, affected: seq<Frame>, node: Id, depth: nat)
    requires ReportIsExact(g, origin, maxDepth, affected) && Falling(affected) && node != origin
    ensures (exists f :: f in affected && f.nodeId == node && f.depth == depth)
       <==> ImprovesAt(g, origin, maxDepth, node, depth)
  {
    hide Qualifies, End, Product;
    forall f | f in affected && f.nodeId == node && f.depth == depth
      ensures ImprovesAt(g, origin, maxDepth, node, depth)
    {
      ListedImproves(g, origin, maxDepth, affected, f);
    }
    if ImprovesAt(g, origin, maxDepth, node, depth) {
      var w :| Qualifies(g, origin, maxDepth, w) && End(origin, w) == node && |w| == depth
        && BeatsShorter(g, origin, maxDepth, w);
      assert Dominated(affected, End(origin, w), |w|, Product(w));
      var f :| f in affected && f.nodeId == node && f.depth <= depth && f.prob >= Product(w);
      assert Witnessed(g, origin, maxDepth, f);
    }
  }

  lemma ListedImproves(g: Inbound, origin: Id, maxDepth: nat, affected: seq<Frame>, f: Frame)
    requires ReportIsExact(g, origin, maxDepth, affected) && Falling(affected) && f in affected
    ensures ImprovesAt(g, origin, maxDepth, f.nodeId, f.depth)
  {
    hide Qualifies, End, Product, Falling;
    assert Witnessed(g, origin, maxDepth, f);
    var w :| Qualifies(g, origin, maxDepth, w) && End(origin, w) == f.nodeId && |w| == f.depth && Product(w) == f.prob;
    forall v | Qualifies(g, origin, maxDepth, v) && End(origin, v) == End(origin, w) && |v| < |w|
      ensures Product(v) < Product(w)
    {
      assert Dominated(affected, End(origin, v), |v|, Product(v));
      var h :| h in affected && h.nodeId == f.nodeId && h.depth <= |v| && h.prob >= Product(v);
      DeeperIsBetter(affected, f, h);
    }
  }

  lemma DeeperIsBetter(affected: seq<Frame>, f: Frame, h: Frame)
    requires Falling(affected) && f in affected && h in affected && h.nodeId == f.nodeId && h.depth < f.depth
    ensures h.prob < f.prob
  {
    var i :| 0 <= i < |affected| && affected[i] == f;
    var j :| 0 <= j < |affected| && affected[j] == h;
    assert i < j;
  }

  /** Some walk that matters leads to an id the service does not know. */
  ghost predicate LeavesGraph(g: Inbound, origin: Id, maxDepth: nat) {
    exists w :: Qualifies(g, origin, maxDepth, w) && End(origin, w) !in g
  }

  /** The most probable entry of the node. */
  ghost predicate IsBestEntry(affected: seq<Frame>, node: Id, f: Frame) {
    f in affected && f.nodeId == node && forall f' :: f' in affected && f'.nodeId == node ==> f'.prob <= f.prob
  }

  /** Reported exactly when some walk matters, and then with the best such product. */
  lemma ReportedIsBest(g: Inbound, origin: Id, maxDepth: nat, affected: seq<Frame>, node: Id)
    requires ReportIsExact(g, origin, maxDepth, affected) && node != origin
    ensures (exists f :: f in affected && f.nodeId == node) <==>
            (exists w :: Qualifies(g, origin, maxDepth, w) && End(origin, w) == node)
    ensures forall f :: IsBestEntry(affected, node, f) ==>
      (exists w :: Qualifies(g, origin, maxDepth, w) && End(origin, w) == node && Product(w) == f.prob)
    ensures forall f, w ::
      IsBestEntry(affected, node, f) && Qualifies(g, origin, maxDepth, w) && End(origin, w) == node ==>
      Product(w) <= f.prob
  {
    hide Qualifies, End, Product;
    if exists w :: Qualifies(g, origin, maxDepth, w) && End(origin, w) == node {
      var w :| Qualifies(g, origin, maxDepth, w) && End(origin, w) == node;
      assert Dominated(affected, End(origin, w), |w|, Product(w));
    }
    forall f, w | IsBestEntry(affected, node, f) && Qualifies(g, origin, maxDepth, w) && End(origin, w) == node
      ensures Product(w) <= f.prob
    {
      assert Dominated(affected, End(origin, w), |w|, Product(w));
    }
  }

  // ---------------------------------------------------------------- the worklist invariant

  /** Everything queued or expanded is backed by a walk; everything expanded is known. */
  ghost predicate Backed(g: Inbound, origin: Id, maxDepth: nat, queue: seq<Frame>, done: seq<Frame>) {
    && (forall f :: f in queue ==> Witnessed(g, origin, maxDepth, f))
    && (forall f :: f in done ==> Witnessed(g, origin, maxDepth, f) && f.nodeId in g)
  }

  /** FIFO order: depths never fall along the queue, and span at most two levels. */
  ghost predicate Fifo(queue: seq<Frame>, done: seq<Frame>) {
    && (forall i, j :: 0 <= i < j < |queue| ==> queue[i].depth <= queue[j].depth <= queue[i].depth + 1)
    && (forall f, h :: f in done && h in queue ==> f.depth <= h.depth)
  }

  /** `visited` holds the best probability expanded per node. */
  ghost predicate BestSeen(done: seq<Frame>, visited: map<Id, real>) {
    && (forall n :: n in visited ==> SeenAt(done, n, visited[n]))
    && (forall f :: f in done ==> f.nodeId in visited && f.prob <= visited[f.nodeId])
  }

  ghost predicate SeenAt(done: seq<Frame>, n: Id, p: real) {
    exists f :: f in done && f.nodeId == n && f.prob == p
  }

  /** Nothing that matters is lost: the start and every step onward is dominated by a frame still at hand. */
  ghost predicate Complete(g: Inbound, origin: Id, maxDepth: nat, done: seq<Frame>, hand: seq<Frame>) {
    && Dominated(hand, origin, 0, 1.0)
    && (forall f, e :: f in done && CanPropagate(g, maxDepth, f, e) ==> Propagated(hand, f, e))
  }

  /** What the worklist loop keeps; `done` is the frames expanded so far, in order. */
  ghost predicate Inv(g: Inbound, origin: Id, maxDepth: nat, queue: seq<Frame>, done: seq<Frame>,
                      visited: map<Id, real>) {
    && Backed(g, origin, maxDepth, queue, done)
    && Fifo(queue, done)
    && BestSeen(done, visited)
    && Complete(g, origin, maxDepth, done, done + queue)
  }

  /** e carries f's impact one step further. */
  ghost predicate CanPropagate(g: Inbound, maxDepth: nat, f: Frame, e: Edge) {
    f.depth < maxDepth && f.nodeId in g && e in g[f.nodeId] && e.toId == f.nodeId && Carry(f.prob, e) > PRUNE_THRESHOLD
  }

  ghost predicate Propagated(fs: seq<Frame>, f: Frame, e: Edge) {
    Dominated(fs, e.fromId, f.depth + 1, Carry(f.prob, e))
  }

  ghost predicate Covers(gs: seq<Frame>, fs: seq<Frame>) {
    forall f :: f in fs ==> Dominated(gs, f.nodeId, f.depth, f.prob)
  }

  lemma CoversDominated(fs: seq<Frame>, gs: seq<Frame>, node: Id, depth: nat, prob: real)
    requires Dominated(fs, node, depth, prob) && Covers(gs, fs)
    ensures Dominated(gs, node, depth, prob)
  {
    var f :| f in fs && f.nodeId == node && f.depth <= depth && f.prob >= prob;
    assert Dominated(gs, f.nodeId, f.depth, f.prob);
  }

  /** Replacing the frames at hand by ones that dominate them keeps every obligation met. */
  lemma Rebase(g: Inbound, origin: Id, maxDepth: nat, done: seq<Frame>, fs: seq<Frame>, gs: seq<Frame>)
    requires Complete(g, origin, maxDepth, done, fs) && Covers(gs, fs)
    ensures Complete(g, origin, maxDepth, done, gs)
  {
    hide CanPropagate, Dominated, Covers, Carry;
    CoversDominated(fs, gs, origin, 0, 1.0);
    forall f, e | f in done && CanPropagate(g, maxDepth, f, e) ensures Propagated(gs, f, e) {
      assert Propagated(fs, f, e);
      CoversDominated(fs, gs, e.fromId, f.depth + 1, Carry(f.prob, e));
    }
  }

  lemma SubsetCovers(fs: seq<Frame>, gs: seq<Frame>)
    requires forall f :: f in fs ==> f in gs
    ensures Covers(gs, fs)
  {
  }

  lemma SkippedIsCovered(queue: seq<Frame>, done: seq<Frame>, visited: map<Id, real>)
    requires queue != [] && Fifo(queue, done) && BestSeen(done, visited)
    requires queue[0].nodeId in visited && visited[queue[0].nodeId] >= queue[0].prob
    ensures Covers(done + queue[1..], done + queue)
  {
    var f, rest := queue[0], queue[1..];
    assert SeenAt(done, f.nodeId, visited[f.nodeId]);
    var h :| h in done && h.nodeId == f.nodeId && h.prob == visited[f.nodeId];
    assert f in queue && h in done + rest;
    forall x | x in done + queue ensures Dominated(done + rest, x.nodeId, x.depth, x.prob) {
      if x != f {
        assert x in done + rest;
      }
    }
  }

  /** A frame whose node was visited at least as probably is dominated: FIFO order makes that visit no deeper. */
  lemma SkipKeepsInv(g: Inbound, origin: Id, maxDepth: nat, queue: seq<Frame>, done: seq<Frame>, visited: map<Id, real>)
    requires Inv(g, origin, maxDepth, queue, done, visited) && queue != []
    requires queue[0].nodeId in visited && visited[queue[0].nodeId] >= queue[0].prob
    ensures Inv(g, origin, maxDepth, queue[1..], done, visited)
  {
    hide Witnessed, Complete, Covers, BestSeen;
    SkippedIsCovered(queue, done, visited);
    Rebase(g, origin, maxDepth, done, done + queue, done + queue[1..]);
  }

  /** The frames a node's inbound edges push, in edge order. */
  function Pushed(f: Frame, edges: seq<Edge>): seq<Frame> {
    if edges == [] then []
    else
      var e := edges[|edges| - 1];
      Pushed(f, edges[..|edges| - 1]) +
      (if e.toId == f.nodeId && Carry(f.prob, e) > PRUNE_THRESHOLD
       then [Frame(e.fromId, f.depth + 1, Carry(f.prob, e))] else [])
  }

  lemma {:induction false} PushedIs(f: Frame, edges: seq<Edge>)
    ensures forall h :: h in Pushed(f, edges) ==> IsPush(f, edges, h)
    ensures forall e :: e in edges && e.toId == f.nodeId && Carry(f.prob, e) > PRUNE_THRESHOLD ==>
              Frame(e.fromId, f.depth + 1, Carry(f.prob, e)) in Pushed(f, edges)
    ensures |Pushed(f, edges)| <= |edges|
  {
    hide Carry, IsPush;
    if edges != [] {
      var init, e := edges[..|edges| - 1], edges[|edges| - 1];
      PushedIs(f, init);
      assert edges == init + [e];
      forall h | h in Pushed(f, edges) ensures IsPush(f, edges, h) {
        PushGrows(f, init, e, h);
      }
    }
  }

  /** h is one level deeper, pushed for some edge. */
  ghost predicate IsPush(f: Frame, edges: seq<Edge>, h: Frame) {
    h.depth == f.depth + 1 && exists e :: PushedBy(f, edges, h, e)
  }

  lemma PushGrows(f: Frame, init: seq<Edge>, e: Edge, h: Frame)
    ensures IsPush(f, init, h) ==> IsPush(f, init + [e], h)
    ensures PushedBy(f, [e], h, e) ==> IsPush(f, init + [e], h)
  {
    hide Carry;
    var edges := init + [e];
    if IsPush(f, init, h) {
      var e' :| PushedBy(f, init, h, e');
      assert PushedBy(f, edges, h, e');
    }
    if PushedBy(f, [e], h, e) {
      assert PushedBy(f, edges, h, e);
    }
  }

  ghost predicate PushedBy(f: Frame, edges: seq<Edge>, h: Frame, e: Edge) {
    e in edges && e.toId == f.nodeId && Carry(f.prob, e) > PRUNE_THRESHOLD &&
    h == Frame(e.fromId, f.depth + 1, Carry(f.prob, e))
  }

  lemma PushedWitnessed(g: Inbound, origin: Id, maxDepth: nat, f: Frame, h: Frame, e: Edge)
    requires Witnessed(g, origin, maxDepth, f) && f.depth < maxDepth && f.nodeId in g
    requires PushedBy(f, g[f.nodeId], h, e)
    ensures Witnessed(g, origin, maxDepth, h)
  {
    hide Carry;
    var w :| Qualifies(g, origin, maxDepth, w) && End(origin, w) == f.nodeId && |w| == f.depth && Product(w) == f.prob;
    var w' := w + [e];
    assert w'[..|w'| - 1] == w && w'[|w'| - 1] == e;
    assert Qualifies(g, origin, maxDepth, w');
  }

  /** Expanding the head frame: its node is recorded, and its edges are pushed unless it is at the depth cap. */
  lemma ExpandKeepsInv(g: Inbound, origin: Id, maxDepth: nat, queue: seq<Frame>, done: seq<Frame>,
                       visited: map<Id, real>)
    requires Inv(g, origin, maxDepth, queue, done, visited) && queue != []
    requires queue[0].nodeId !in visited || visited[queue[0].nodeId] < queue[0].prob
    requires queue[0].nodeId in g
    ensures var f := queue[0];
            Inv(g, origin, maxDepth,
                queue[1..] + (if f.depth >= maxDepth then [] else Pushed(f, g[f.nodeId])),
                done + [f], visited[f.nodeId := f.prob])
  {
    hide Inv, Witnessed, Complete, Fifo, BestSeen, Backed, Pushed;
    var f := queue[0];
    var more := if f.depth >= maxDepth then [] else Pushed(f, g[f.nodeId]);
    ExpandBacked(g, origin, maxDepth, queue, done, visited, more);
    ExpandFifo(g, origin, maxDepth, queue, done, visited, more);
    ExpandSeen(g, origin, maxDepth, queue, done, visited);
    ExpandComplete(g, origin, maxDepth, queue, done, visited, more);
    InvParts(g, origin, maxDepth, queue[1..] + more, done + [f], visited[f.nodeId := f.prob]);
  }

  lemma InvParts(g: Inbound, origin: Id, maxDepth: nat, queue: seq<Frame>, done: seq<Frame>, visited: map<Id, real>)
    ensures Inv(g, origin, maxDepth, queue, done, visited) <==>
            Backed(g, origin, maxDepth, queue, done) && Fifo(queue, done) && BestSeen(done, visited)
            && Complete(g, origin, maxDepth, done, done + queue)
  {
  }

  /** What expanding the head pushes. */
  ghost predicate PushedByHead(g: Inbound, maxDepth: nat, queue: seq<Frame>, more: seq<Frame>) {
    && queue != [] && queue[0].nodeId in g
    && more == if queue[0].depth >= maxDepth then [] else Pushed(queue[0], g[queue[0].nodeId])
  }

  lemma ExpandBacked(g: Inbound, origin: Id, maxDepth: nat, queue: seq<Frame>, done: seq<Frame>,
                     visited: map<Id, real>, more: seq<Frame>)
    requires Inv(g, origin, maxDepth, queue, done, visited) && PushedByHead(g, maxDepth, queue, more)
    ensures Backed(g, origin, maxDepth, queue[1..] + more, done + [queue[0]])
  {
    hide Witnessed, Complete, Fifo, BestSeen, Pushed;
    var f := queue[0];
    PushedIs(f, g[f.nodeId]);
    forall h | h in more ensures Witnessed(g, origin, maxDepth, h) {
      var e :| PushedBy(f, g[f.nodeId], h, e);
      PushedWitnessed(g, origin, maxDepth, f, h, e);
    }
  }

  lemma ExpandFifo(g: Inbound, origin: Id, maxDepth: nat, queue: seq<Frame>, done: seq<Frame>, visited: map<Id, real>,
                   more: seq<Frame>)
    requires Inv(g, origin, maxDepth, queue, done, visited) && PushedByHead(g, maxDepth, queue, more)
    ensures Fifo(queue[1..] + more, done + [queue[0]])
  {
    hide Backed, Complete, BestSeen, Pushed, PushedBy;
    var f := queue[0];
    PushedIs(f, g[f.nodeId]);
    var q := queue[1..] + more;
    forall i | 0 <= i < |q| ensures f.depth <= q[i].depth <= f.depth + 1 {
      assert q[i] == if i < |queue| - 1 then queue[i + 1] else more[i - (|queue| - 1)];
      assert i >= |queue| - 1 ==> q[i] in more;
    }
    forall i, j | 0 <= i < j < |q| ensures q[i].depth <= q[j].depth <= q[i].depth + 1 {
      if j < |queue| - 1 {
        assert q[i] == queue[i + 1] && q[j] == queue[j + 1];
      } else {
        assert q[j] in more;
      }
    }
    forall x, h | x in done + [f] && h in q ensures x.depth <= h.depth {
      assert f in queue;
      assert x in done || x == f;
      var i :| 0 <= i < |q| && q[i] == h;
    }
  }

  lemma ExpandSeen(g: Inbound, origin: Id, maxDepth: nat, queue: seq<Frame>, done: seq<Frame>, visited: map<Id, real>)
    requires Inv(g, origin, maxDepth, queue, done, visited) && queue != []
    requires queue[0].nodeId !in visited || visited[queue[0].nodeId] < queue[0].prob
    ensures BestSeen(done + [queue[0]], visited[queue[0].nodeId := queue[0].prob])
  {
    hide Backed, Complete, Fifo;
    var f := queue[0];
    var done', visited' := done + [f], visited[f.nodeId := f.prob];
    forall n | n in visited' ensures SeenAt(done', n, visited'[n]) {
      if n == f.nodeId {
        assert f in done';
      } else {
        assert SeenAt(done, n, visited[n]);
        var h :| h in done && h.nodeId == n && h.prob == visited[n];
        assert h in done';
      }
    }
  }

  lemma ExpandComplete(g: Inbound, origin: Id, maxDepth: nat, queue: seq<Frame>, done: seq<Frame>,
                       visited: map<Id, real>, more: seq<Frame>)
    requires Inv(g, origin, maxDepth, queue, done, visited) && PushedByHead(g, maxDepth, queue, more)
    ensures Complete(g, origin, maxDepth, done + [queue[0]], done + [queue[0]] + (queue[1..] + more))
  {
    hide Backed, Fifo, BestSeen, Dominated, Pushed, Covers, Carry;
    var f := queue[0];
    var hand := done + [f] + (queue[1..] + more);
    assert forall x :: x in done + queue ==> x in hand;
    SubsetCovers(done + queue, hand);
    Rebase(g, origin, maxDepth, done, done + queue, hand);
    PushedIs(f, g[f.nodeId]);
    forall x, e | x in done + [f] && CanPropagate(g, maxDepth, x, e) ensures Propagated(hand, x, e) {
      if x !in done {
        var h := Frame(e.fromId, f.depth + 1, Carry(f.prob, e));
        assert h in more;
        DominatedByMember(hand, h);
      }
    }
  }

  lemma DominatedByMember(fs: seq<Frame>, h: Frame)
    requires h in fs
    ensures Dominated(fs, h.nodeId, h.depth, h.prob)
  {
  }

  /** Once the queue is empty, every walk that matters is dominated by an expanded frame. */
  lemma {:induction false} AllWalksDone(g: Inbound, origin: Id, maxDepth: nat, done: seq<Frame>,
                                        visited: map<Id, real>, w: seq<Edge>)
    requires Confident(g) && Inv(g, origin, maxDepth, [], done, visited)
    requires Qualifies(g, origin, maxDepth, w)
    ensures Dominated(done, End(origin, w), |w|, Product(w))
    decreases |w|
  {
    hide Carry, Fifo, BestSeen, Witnessed;
    assert done + [] == done;
    if w != [] {
      var init, e := w[..|w| - 1], w[|w| - 1];
      ProductInUnit(g, origin, init);
      CarryShrinks(Product(init), e);
      AllWalksDone(g, origin, maxDepth, done, visited, init);
      var f :| f in done && f.nodeId == End(origin, init) && f.depth <= |init| && f.prob >= Product(init);
      CarryMono(Product(init), f.prob, e);
      assert CanPropagate(g, maxDepth, f, e);
      assert Propagated(done, f, e);
    }
  }

  /** The walk measure: each frame may still cost as many pops as a full tree below it. */
  function Pow(b: nat, n: nat): nat {
    if n == 0 then 1 else b * Pow(b, n - 1)
  }

  lemma {:induction false} PowPositive(b: nat, n: nat)
    requires b > 0
    ensures Pow(b, n) > 0
  {
    if n > 0 {
      PowPositive(b, n - 1);
    }
  }

  ghost function Cost(b: nat, maxDepth: nat, f: Frame): nat {
    if f.depth > maxDepth then 0 else Pow(b + 1, maxDepth - f.depth)
  }

  /** The sum over the queue of (b + 1) to the remaining depth, b bounding every in-degree. */
  ghost function Budget(b: nat, maxDepth: nat, queue: seq<Frame>): nat {
    if queue == [] then 0 else Cost(b, maxDepth, queue[0]) + Budget(b, maxDepth, queue[1..])
  }

  ghost predicate BoundsInDegree(g: Inbound, b: nat) {
    forall n :: n in g ==> |g[n]| <= b
  }

  lemma {:induction false} InDegreeBound(g: Inbound) returns (b: nat)
    ensures BoundsInDegree(g, b)
    decreases |g|
  {
    if g == map[] {
      b := 0;
    } else {
      var n :| n in g;
      var b' := InDegreeBound(g - {n});
      b := if |g[n]| > b' then |g[n]| else b';
      forall m | m in g ensures |g[m]| <= b {
        if m != n {
          assert m in g - {n};
        }
      }
    }
  }

  lemma {:induction false} BudgetAppend(b: nat, maxDepth: nat, q: seq<Frame>, more: seq<Frame>)
    ensures Budget(b, maxDepth, q + more) == Budget(b, maxDepth, q) + Budget(b, maxDepth, more)
  {
    if q == [] {
      assert q + more == more;
    } else {
      assert (q + more)[1..] == q[1..] + more;
      BudgetAppend(b, maxDepth, q[1..], more);
    }
  }

  lemma {:induction false} BudgetOfLevel(b: nat, maxDepth: nat, q: seq<Frame>, depth: nat)
    requires depth <= maxDepth && forall f :: f in q ==> f.depth == depth
    ensures Budget(b, maxDepth, q) == |q| * Pow(b + 1, maxDepth - depth)
  {
    if q != [] {
      assert q[0] in q;
      BudgetOfLevel(b, maxDepth, q[1..], depth);
      var p := Pow(b + 1, maxDepth - depth);
      assert |q| * p == p + (|q| - 1) * p;
    }
  }

  lemma LevelCost(b: nat, m: nat, n: nat)
    requires m <= b
    ensures m * Pow(b + 1, n) < Pow(b + 1, n + 1)
  {
    PowPositive(b + 1, n);
    var p := Pow(b + 1, n);
    assert (b - m) * p >= 0;
    assert (b + 1) * p == (b - m) * p + m * p + p;
  }

  /** Every pop lowers the measure, on cyclic graphs too. */
  lemma PopLowersBudget(g: Inbound, b: nat, maxDepth: nat, queue: seq<Frame>, more: seq<Frame>)
    requires BoundsInDegree(g, b) && queue != [] && queue[0].depth <= maxDepth
    requires more == [] || PushedByHead(g, maxDepth, queue, more)
    ensures Budget(b, maxDepth, queue[1..] + more) < Budget(b, maxDepth, queue)
  {
    hide Pushed, Pow;
    var f := queue[0];
    BudgetAppend(b, maxDepth, queue[1..], more);
    PowPositive(b + 1, maxDepth - f.depth);
    if more != [] {
      PushedIs(f, g[f.nodeId]);
      BudgetOfLevel(b, maxDepth, more, f.depth + 1);
      LevelCost(b, |more|, maxDepth - f.depth - 1);
    }
  }

  // ---------------------------------------------------------------- the report order

  ghost predicate Descending(fs: seq<Frame>) {
    forall i, j :: 0 <= i < j < |fs| ==> fs[i].prob >= fs[j].prob
  }

  /** Any sort by descending probability; callers know no more than this of it. */
  method SortByImpact(fs: seq<Frame>) returns (sorted: seq<Frame>)
    ensures Descending(sorted) && multiset(sorted) == multiset(fs)
  {
    sorted := Sorting.Sort(fs, (a: Frame, b: Frame) => a.prob >= b.prob);
  }

  /** The frames other than the origin, in the order they were expanded. */
  ghost function NotOrigin(done: seq<Frame>, origin: Id): seq<Frame> {
    if done == [] then []
    else
      var f := done[|done| - 1];
      NotOrigin(done[..|done| - 1], origin) + (if f.nodeId != origin then [f] else [])
  }

  lemma {:induction false} NotOriginMembers(done: seq<Frame>, origin: Id)
    ensures forall f :: f in NotOrigin(done, origin) <==> f in done && f.nodeId != origin
  {
    if done != [] {
      NotOriginMembers(done[..|done| - 1], origin);
      assert done == done[..|done| - 1] + [done[|done| - 1]];
    }
  }

  /** In the order of expansion depths never fall, and each node's probabilities strictly rise. */
  ghost predicate Rising(done: seq<Frame>) {
    forall i, j :: 0 <= i < j < |done| ==>
      done[i].depth <= done[j].depth && (done[i].nodeId == done[j].nodeId ==> done[i].prob < done[j].prob)
  }

  lemma NoneRising(origin: Id)
    ensures Rising([]) && NotOrigin([], origin) == []
  {
  }

  lemma ExpandRises(g: Inbound, origin: Id, maxDepth: nat, queue: seq<Frame>, done: seq<Frame>, visited: map<Id, real>)
    requires Inv(g, origin, maxDepth, queue, done, visited) && queue != [] && Rising(done)
    requires queue[0].nodeId !in visited || visited[queue[0].nodeId] < queue[0].prob
    ensures Rising(done + [queue[0]])
  {
    hide Backed, Complete, SeenAt;
    var all := done + [queue[0]];
    forall i, j | 0 <= i < j < |all|
      ensures all[i].depth <= all[j].depth && (all[i].nodeId == all[j].nodeId ==> all[i].prob < all[j].prob)
    {
      if j == |done| {
        assert done[i] in done && queue[0] in queue;
      }
    }
  }

  lemma {:induction false} NotOriginRises(done: seq<Frame>, origin: Id)
    requires Rising(done)
    ensures Rising(NotOrigin(done, origin))
  {
    if done != [] {
      var init, f := done[..|done| - 1], done[|done| - 1];
      NotOriginRises(init, origin);
      NotOriginMembers(init, origin);
      var kept := NotOrigin(init, origin);
      forall i | 0 <= i < |kept|
        ensures kept[i].depth <= f.depth && (kept[i].nodeId == f.nodeId ==> kept[i].prob < f.prob)
      {
        assert kept[i] in init;
        var k :| 0 <= k < |init| && init[k] == kept[i];
        assert done[k] == init[k] && done[|done| - 1] == f;
      }
    }
  }

  /** Sorted by falling probability, the rising entries of a node fall. */
  lemma SortedFalls(affected: seq<Frame>, sorted: seq<Frame>)
    requires Rising(affected) && Descending(sorted) && multiset(sorted) == multiset(affected)
    ensures Falling(sorted)
  {
    forall i, j | 0 <= i < j < |sorted| && sorted[i].nodeId == sorted[j].nodeId
      ensures sorted[i].prob > sorted[j].prob && sorted[i].depth >= sorted[j].depth
    {
      TwoOfANode(affected, sorted, i, j);
    }
  }

  lemma TwoOfANode(affected: seq<Frame>, sorted: seq<Frame>, i: nat, j: nat)
    requires Rising(affected) && Descending(sorted) && multiset(sorted) == multiset(affected)
    requires i < j < |sorted| && sorted[i].nodeId == sorted[j].nodeId
    ensures sorted[i].prob > sorted[j].prob && sorted[i].depth >= sorted[j].depth
  {
    var x, y := sorted[i], sorted[j];
    OneCopy(affected, x);
    if x == y {
      TwoCopies(sorted, i, j);
      assert false;
    }
    assert x in multiset(affected) && y in multiset(affected);
    var k, l :| 0 <= k < |affected| && 0 <= l < |affected| && affected[k] == x && affected[l] == y;
    assert k != l;
  }

  lemma TwoCopies(sorted: seq<Frame>, i: nat, j: nat)
    requires i < j < |sorted| && sorted[i] == sorted[j]
    ensures multiset(sorted)[sorted[i]] >= 2
  {
    assert sorted == sorted[..j] + [sorted[j]] + sorted[j + 1..];
    assert sorted[i] in sorted[..j];
    assert sorted[i] in multiset(sorted[..j]);
  }

  lemma {:induction false} OneCopy(affected: seq<Frame>, x: Frame)
    requires Rising(affected)
    ensures multiset(affected)[x] <= 1
  {
    if affected != [] {
      var init, f := affected[..|affected| - 1], affected[|affected| - 1];
      OneCopy(init, x);
      assert affected == init + [f];
      if f == x {
        assert x !in init;
        assert x !in multiset(init);
      }
    }
  }

  /** The empty walk starts everything off. */
  lemma EmptyWalk(g: Inbound, origin: Id, maxDepth: nat)
    ensures Inv(g, origin, maxDepth, [Frame(origin, 0, 1.0)], [], map[])
    ensures origin !in g ==> LeavesGraph(g, origin, maxDepth)
  {
    var f := Frame(origin, 0, 1.0);
    assert Qualifies(g, origin, maxDepth, []) && End(origin, []) == origin;
    assert Witnessed(g, origin, maxDepth, f);
    assert f in [] + [f];
    assert Dominated([] + [f], origin, 0, 1.0);
  }

  lemma HeadFacts(g: Inbound, origin: Id, maxDepth: nat, queue: seq<Frame>, done: seq<Frame>, visited: map<Id, real>)
    requires Inv(g, origin, maxDepth, queue, done, visited) && queue != []
    ensures queue[0].depth <= maxDepth
    ensures queue[0].nodeId !in g ==> LeavesGraph(g, origin, maxDepth)
  {
    hide Fifo, BestSeen, Complete, IsWalk, Product;
    assert queue[0] in queue && Witnessed(g, origin, maxDepth, queue[0]);
  }

  lemma CarryIs(p: real, e: Edge)
    ensures p * Decay(e.kind) * e.confidence == Carry(p, e)
  {
  }

  /** With the queue empty, the expanded frames account for every walk that matters. */
  lemma Finish(g: Inbound, origin: Id, maxDepth: nat, done: seq<Frame>, visited: map<Id, real>, affected: seq<Frame>)
    requires Confident(g) && Inv(g, origin, maxDepth, [], done, visited)
    requires forall f :: f in affected <==> f in done && f.nodeId != origin
    ensures !LeavesGraph(g, origin, maxDepth) && ReportIsExact(g, origin, maxDepth, affected)
  {
    hide Fifo, BestSeen, Complete, Qualifies, Witnessed, End, Product;
    forall w | Qualifies(g, origin, maxDepth, w)
      ensures End(origin, w) in g
      ensures End(origin, w) != origin ==> Dominated(affected, End(origin, w), |w|, Product(w))
    {
      AllWalksDone(g, origin, maxDepth, done, visited, w);
      var f :| f in done && f.nodeId == End(origin, w) && f.depth <= |w| && f.prob >= Product(w);
    }
  }

  lemma WrapUp(g: Inbound, origin: Id, maxDepth: nat, done: seq<Frame>, visited: map<Id, real>, sorted: seq<Frame>)
    requires Confident(g) && Inv(g, origin, maxDepth, [], done, visited) && Rising(done)
    requires Descending(sorted) && multiset(sorted) == multiset(NotOrigin(done, origin))
    ensures !LeavesGraph(g, origin, maxDepth) && ReportIsExact(g, origin, maxDepth, sorted) && Falling(sorted)
  {
    hide Inv, Rising, Descending, LeavesGraph, ReportIsExact, Falling, Confident;
    var affected := NotOrigin(done, origin);
    NotOriginMembers(done, origin);
    NotOriginRises(done, origin);
    SortedFalls(affected, sorted);
    assert forall f :: f in sorted <==> f in multiset(sorted);
    assert forall f :: f in affected <==> f in multiset(affected);
    Finish(g, origin, maxDepth, done, visited, sorted);
  }

  lemma NotOriginSnoc(done: seq<Frame>, f: Frame, origin: Id)
    ensures NotOrigin(done + [f], origin) == NotOrigin(done, origin) + (if f.nodeId != origin then [f] else [])
  {
    assert (done + [f])[..|done|] == done;
  }

  lemma PushedSnoc(f: Frame, edges: seq<Edge>, e: Edge)
    ensures Pushed(f, edges + [e]) ==
            if e.toId == f.nodeId && Carry(f.prob, e) > PRUNE_THRESHOLD
            then Pushed(f, edges) + [Frame(e.fromId, f.depth + 1, Carry(f.prob, e))] else Pushed(f, edges)
  {
    hide Carry;
    assert (edges + [e])[..|edges|] == edges;
  }

  /** The inner loop: a frame per caller, unless the impact falls to the threshold. */
  method PushCallers(f: Frame, edges: seq<Edge>, queue0: seq<Frame>) returns (queue: seq<Frame>)
    ensures queue == queue0 + Pushed(f, edges)
  {
    hide Decay, Pushed, Carry;
    queue := queue0;
    PushedIs(f, []);
    assert edges[..0] == [];
    for k := 0 to |edges|
      invariant queue == queue0 + Pushed(f, edges[..k])
    {
      var e := edges[k];
      assert edges[..k + 1] == edges[..k] + [e];
      PushedSnoc(f, edges[..k], e);
      if e.toId != f.nodeId {
        continue;
      }
      var next := f.prob * Decay(e.kind) * e.confidence;
      assert next == Carry(f.prob, e) by { CarryIs(f.prob, e); }
      if next <= PRUNE_THRESHOLD {
        continue;
      }
      queue := queue + [Frame(e.fromId, f.depth + 1, next)];
      assert queue == queue0 + (Pushed(f, edges[..k]) + [Frame(e.fromId, f.depth + 1, next)]);
    }
    assert edges[..|edges|] == edges;
  }

  /** `CalculateBlastRadius`: None when the service does not know an id it is asked to expand. */
  method CalculateBlastRadius(g: Inbound, originId: Id, maxDepth: int) returns (r: Option<Report>)
    requires Confident(g)
    ensures var cap := if 1 <= maxDepth <= 5 then maxDepth else 5;
      && (r == None <==> LeavesGraph(g, originId, cap))
      && (r.Some? ==> r.value.maxDepth == cap && ReportIsExact(g, originId, cap, r.value.affected))
    ensures r.Some? ==> Falling(r.value.affected)
    ensures r.Some? ==> Descending(r.value.affected) && r.value.totalAffected == |r.value.affected|
  {
    hide Inv, ReportIsExact, LeavesGraph, Descending, Pushed, Budget, Rising, Falling, NotOrigin, Confident;
    var depthCap: nat := if maxDepth < 1 || maxDepth > 5 then 5 else maxDepth;
    if originId !in g {
      EmptyWalk(g, originId, depthCap);
      return None;
    }
    ghost var b := InDegreeBound(g);
    var visited: map<Id, real> := map[];
    var queue := [Frame(originId, 0, 1.0)];
    var affected: seq<Frame> := [];
    ghost var done: seq<Frame> := [];
    EmptyWalk(g, originId, depthCap);
    NoneRising(originId);
    while |queue| > 0
      invariant Inv(g, originId, depthCap, queue, done, visited)
      invariant affected == NotOrigin(done, originId)
      invariant Rising(done)
      decreases Budget(b, depthCap, queue)
    {
      var f := queue[0];
      ghost var queue0 := queue;
      HeadFacts(g, originId, depthCap, queue, done, visited);
      PopLowersBudget(g, b, depthCap, queue0, []);
      assert queue0[1..] + [] == queue0[1..];
      queue := queue[1..];
      if f.nodeId in visited && visited[f.nodeId] >= f.prob {
        SkipKeepsInv(g, originId, depthCap, queue0, done, visited);
        continue;
      }
      if f.nodeId !in g {
        return None;
      }
      ExpandKeepsInv(g, originId, depthCap, queue0, done, visited);
      ExpandRises(g, originId, depthCap, queue0, done, visited);
      NotOriginSnoc(done, f, originId);
      done := done + [f];
      visited := visited[f.nodeId := f.prob];
      if f.nodeId != originId {
        affected := affected + [f];
      }
      if f.depth >= depthCap {
        continue;
      }
      var edges := g[f.nodeId];
      PopLowersBudget(g, b, depthCap, queue0, Pushed(f, edges));
      queue := PushCallers(f, edges, queue);
    }
    var sorted := SortByImpact(affected);
    WrapUp(g, originId, depthCap, done, visited, sorted);
    r := Some(Report(sorted, depthCap, |sorted|));
  }
}
