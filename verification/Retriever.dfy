/** Scoring and pruning the subgraph around a query's origin. */
module Retriever {
  import opened Wrappers
  import Sorting

  type Id = string

  datatype Edge = Edge(fromId: Id, toId: Id, kind: string, confidence: real)

  /** What the storage service returns: the origin, the other nodes, the edges. */
  datatype Hood = Hood(originId: Id, nodeIds: seq<Id>, edges: seq<Edge>)

  type Scores = map<Id, real>

  const DEFAULT_WEIGHT := 0.3
  const DROP_THRESHOLD := 0.15
  const MAX_NODES: nat := 200
  const MAX_PASSES: nat := 6

  function Weight(kind: string): (w: real)
    ensures 0.0 < w <= 1.0
  {
    match kind
    case "EXPOSES" => 1.0
    case "RUNTIME_CALLS" => 0.9
    case "IMPORTS" => 0.7
    case "OWNS" => 0.6
    case "DEPENDS_ON" => 0.5
    case "CHANGE_COUPLED_WITH" => 0.4
    case "CALLS" => 0.2
    case _ => DEFAULT_WEIGHT
  }

  function Times(a: real, b: real): real {
    a * b
  }

  /** A score carried over an edge, in either direction. */
  function Flow(score: real, e: Edge): real {
    Times(Times(score, Weight(e.kind)), e.confidence)
  }

  /** Confidences are probabilities, and the service never lists the origin among the other nodes. */
  ghost predicate WellFormed(h: Hood) {
    h.originId !in h.nodeIds && forall e :: e in h.edges ==> 0.0 <= e.confidence <= 1.0
  }

  ghost predicate Known(h: Hood, id: Id) {
    id == h.originId || id in h.nodeIds
  }

  lemma TimesFraction(a: real, f: real)
    requires a >= 0.0 && 0.0 <= f <= 1.0
    ensures 0.0 <= Times(a, f) <= a
  {
    assert a * (1.0 - f) >= 0.0;
    assert a * f >= 0.0;
  }

  lemma TimesMono(a: real, b: real, f: real)
    requires a <= b && 0.0 <= f
    ensures Times(a, f) <= Times(b, f)
  {
    assert (b - a) * f >= 0.0;
  }

  lemma FlowShrinks(s: real, e: Edge)
    requires s >= 0.0 && 0.0 <= e.confidence <= 1.0
    ensures 0.0 <= Flow(s, e) <= s
  {
    hide Times, Weight;
    TimesFraction(s, Weight(e.kind));
    TimesFraction(Times(s, Weight(e.kind)), e.confidence);
  }

  lemma FlowMono(s: real, t: real, e: Edge)
    requires s <= t && 0.0 <= e.confidence <= 1.0
    ensures Flow(s, e) <= Flow(t, e)
  {
    hide Times, Weight;
    TimesMono(s, t, Weight(e.kind));
    TimesMono(Times(s, Weight(e.kind)), Times(t, Weight(e.kind)), e.confidence);
  }

  // ---------------------------------------------------------------- walks

  /** One edge taken forwards or backwards. */
  datatype Hop = Hop(edge: Edge, forward: bool)

  function Source(x: Hop): Id {
    if x.forward then x.edge.fromId else x.edge.toId
  }

  function Target(x: Hop): Id {
    if x.forward then x.edge.toId else x.edge.fromId
  }

  ghost function End(h: Hood, w: seq<Hop>): Id {
    if w == [] then h.originId else Target(w[|w| - 1])
  }

  /** Consecutive hops over listed edges whose ends are both known, from the origin. */
  ghost predicate IsWalk(h: Hood, w: seq<Hop>) {
    w != [] ==>
      var init, x := w[..|w| - 1], w[|w| - 1];
      IsWalk(h, init) && CanHop(h, x) && Source(x) == End(h, init)
  }

  ghost predicate CanHop(h: Hood, x: Hop) {
    x.edge in h.edges && Known(h, x.edge.fromId) && Known(h, x.edge.toId)
  }

  ghost function Product(w: seq<Hop>): real {
    if w == [] then 1.0 else Flow(Product(w[..|w| - 1]), w[|w| - 1].edge)
  }

  // ---------------------------------------------------------------- what the scores mean

  ghost predicate Scored(h: Hood, s: Scores) {
    && (forall id :: id in s <==> Known(h, id))
    && (forall id :: id in s ==> 0.0 <= s[id] <= 1.0)
    && s[h.originId] == 1.0
    && (forall id {:trigger Realised(h, id, s[id])} :: id in s && s[id] > 0.0 ==> Realised(h, id, s[id]))
  }

  /** Some walk to this node has exactly this product. */
  ghost predicate Realised(h: Hood, id: Id, score: real) {
    exists w :: IsWalk(h, w) && End(h, w) == id && Product(w) == score
  }

  /** The walk's end scores at least the walk's product. */
  ghost predicate Bested(h: Hood, s: Scores, w: seq<Hop>) {
    IsWalk(h, w) ==> End(h, w) in s && s[End(h, w)] >= Product(w)
  }

  /** Scores are at least the product of every walk of at most n hops. */
  ghost predicate BestUpTo(h: Hood, s: Scores, n: nat) {
    forall w {:trigger Bested(h, s, w)} :: |w| <= n ==> Bested(h, s, w)
  }

  ghost predicate BestOverall(h: Hood, s: Scores) {
    forall w {:trigger Bested(h, s, w)} :: Bested(h, s, w)
  }

  /** t grew out of s, and already accounts for one more hop over the edges es. */
  ghost predicate Relaxed(h: Hood, s: Scores, t: Scores, es: seq<Edge>) {
    && t.Keys == s.Keys
    && (forall id :: id in s ==> s[id] <= t[id])
    && (forall x: Hop :: x.edge in es && CanHop(h, x) && Source(x) in s && Target(x) in s ==>
          t[Target(x)] >= Flow(s[Source(x)], x.edge))
  }

  lemma RealisedOnward(h: Hood, x: Hop, score: real)
    requires Realised(h, Source(x), score) && CanHop(h, x)
    ensures Realised(h, Target(x), Flow(score, x.edge))
  {
    hide Flow;
    var w :| IsWalk(h, w) && End(h, w) == Source(x) && Product(w) == score;
    var w' := w + [x];
    assert w'[..|w'| - 1] == w;
    assert IsWalk(h, w') && End(h, w') == Target(x) && Product(w') == Flow(score, x.edge);
  }

  /** Raising the target of a hop to what flows in keeps the scores meaningful. */
  lemma RaiseKeepsScored(h: Hood, s: Scores, x: Hop)
    requires WellFormed(h) && Scored(h, s) && CanHop(h, x)
    requires Target(x) != h.originId && Flow(s[Source(x)], x.edge) > s[Target(x)]
    ensures Scored(h, s[Target(x) := Flow(s[Source(x)], x.edge)])
  {
    hide Flow, Realised, Weight;
    FlowShrinks(s[Source(x)], x.edge);
    RealisedOnward(h, x, s[Source(x)]);
  }

  /** Nothing that flows in can exceed the origin's own score. */
  lemma OriginNotRaised(h: Hood, s: Scores, x: Hop)
    requires WellFormed(h) && Scored(h, s) && CanHop(h, x)
    ensures Flow(s[Source(x)], x.edge) <= s[h.originId]
  {
    hide Flow, Realised;
    FlowShrinks(s[Source(x)], x.edge);
  }

  /** The scores before any pass: the origin alone. */
  lemma StartIsScored(h: Hood, s: Scores)
    requires WellFormed(h)
    requires forall id :: id in s <==> Known(h, id)
    requires forall id :: id in s ==> s[id] == if id == h.originId then 1.0 else 0.0
    ensures Scored(h, s) && BestUpTo(h, s, 0)
  {
    assert IsWalk(h, []) && End(h, []) == h.originId && Product([]) == 1.0;
    assert Realised(h, h.originId, 1.0);
  }

  /** A full pass extends the guarantee by one hop. */
  lemma PassExtends(h: Hood, s: Scores, t: Scores, n: nat)
    requires WellFormed(h) && Scored(h, s) && BestUpTo(h, s, n) && Relaxed(h, s, t, h.edges)
    ensures BestUpTo(h, t, n + 1)
  {
    hide Flow, Realised, Product, Bested;
    forall w: seq<Hop> | |w| <= n + 1 ensures Bested(h, t, w) {
      OneHopFurther(h, s, t, n, w);
    }
  }

  lemma OneHopFurther(h: Hood, s: Scores, t: Scores, n: nat, w: seq<Hop>)
    requires WellFormed(h) && Scored(h, s) && BestUpTo(h, s, n) && Relaxed(h, s, t, h.edges) && |w| <= n + 1
    ensures Bested(h, t, w)
  {
    hide Flow, Realised, Product;
    if w == [] {
      assert Bested(h, s, w);
    } else if IsWalk(h, w) {
      var init, x := w[..|w| - 1], w[|w| - 1];
      assert Bested(h, s, init);
      assert t[Target(x)] >= Flow(s[Source(x)], x.edge);
      FlowMono(Product(init), s[Source(x)], x.edge);
      ProductStep(w);
    }
  }

  lemma ProductStep(w: seq<Hop>)
    requires w != []
    ensures Product(w) == Flow(Product(w[..|w| - 1]), w[|w| - 1].edge)
  {
  }

  /** The weight of an edge is its kind's. */
  ghost predicate IsWeight(kind: string, weight: real) {
    weight == if kind == "EXPOSES" then 1.0 else if kind == "RUNTIME_CALLS" then 0.9 else if kind == "IMPORTS" then 0.7
              else if kind == "OWNS" then 0.6 else if kind == "DEPENDS_ON" then 0.5
              else if kind == "CHANGE_COUPLED_WITH" then 0.4 else if kind == "CALLS" then 0.2 else 0.3
  }

  /** What one more hop makes of a score, whichever way it goes: standing still costs nothing. */
  lemma HopCosts(w: seq<Hop>, weight: real)
    requires w != [] && IsWeight(w[|w| - 1].edge.kind, weight)
    ensures Product([]) == 1.0 && Product(w) == Product(w[..|w| - 1]) * weight * w[|w| - 1].edge.confidence
  {
    hide *;
    EmptyProduct();
    ProductStep(w);
    WeightIs(w[|w| - 1].edge.kind, weight);
    FlowIs(Product(w[..|w| - 1]), w[|w| - 1].edge, weight);
  }

  lemma WeightIs(kind: string, weight: real)
    requires IsWeight(kind, weight)
    ensures weight == Weight(kind)
  {
  }

  lemma FlowIs(score: real, e: Edge, weight: real)
    requires weight == Weight(e.kind)
    ensures Flow(score, e) == score * weight * e.confidence
  {
    hide Weight;
  }

  /** A pass that changes nothing proves the scores best over all walks. */
  lemma {:induction false} FixpointIsBest(h: Hood, s: Scores, w: seq<Hop>)
    requires WellFormed(h) && Scored(h, s) && Relaxed(h, s, s, h.edges)
    ensures Bested(h, s, w)
    decreases |w|
  {
    hide Flow, Realised, Product;
    if w == [] {
      EmptyProduct();
    } else if IsWalk(h, w) {
      var init, x := w[..|w| - 1], w[|w| - 1];
      FixpointIsBest(h, s, init);
      FlowMono(Product(init), s[Source(x)], x.edge);
      ProductStep(w);
    }
  }

  lemma EmptyProduct()
    ensures Product([]) == 1.0
  {
  }

  // ---------------------------------------------------------------- the relaxation loops

  /** The scores after one hop, if it pays. */
  ghost function Hopped(s: Scores, x: Hop): Scores
    requires Source(x) in s && Target(x) in s
  {
    if Flow(s[Source(x)], x.edge) > s[Target(x)] then s[Target(x) := Flow(s[Source(x)], x.edge)] else s
  }

  lemma HopKeepsScored(h: Hood, s: Scores, x: Hop)
    requires WellFormed(h) && Scored(h, s) && CanHop(h, x)
    ensures Scored(h, Hopped(s, x)) && Hopped(s, x).Keys == s.Keys
    ensures forall id :: id in s ==> s[id] <= Hopped(s, x)[id]
    ensures Hopped(s, x)[Target(x)] >= Flow(s[Source(x)], x.edge)
    ensures Target(x) == h.originId ==> Hopped(s, x) == s
  {
    hide Flow, Realised;
    OriginNotRaised(h, s, x);
    if Flow(s[Source(x)], x.edge) > s[Target(x)] {
      RaiseKeepsScored(h, s, x);
    }
  }

  /** A hop there and a hop back over the same edge. */
  lemma BothWays(h: Hood, s: Scores, e: Edge)
    requires WellFormed(h) && Scored(h, s) && CanHop(h, Hop(e, true)) && e.fromId in s && e.toId in s
    ensures var t := Hopped(Hopped(s, Hop(e, true)), Hop(e, false)); Scored(h, t) && Relaxed(h, s, t, [e])
    ensures Hopped(s, Hop(e, true)) != s ==> Hopped(Hopped(s, Hop(e, true)), Hop(e, false)) != s
  {
    hide Flow, Scored, WellFormed, Hopped;
    var there, back := Hop(e, true), Hop(e, false);
    HopKeepsScored(h, s, there);
    var mid := Hopped(s, there);
    HopKeepsScored(h, mid, back);
    BackFlow(h, s, mid, e);
    var t := Hopped(mid, back);
    if mid != s {
      var id :| id in s && s[id] != mid[id];
      assert s[id] < mid[id] <= t[id];
    }
  }

  lemma BackFlow(h: Hood, s: Scores, mid: Scores, e: Edge)
    requires WellFormed(h) && Scored(h, s) && Scored(h, mid) && CanHop(h, Hop(e, false))
    requires forall id :: id in s ==> id in mid && s[id] <= mid[id]
    ensures Flow(s[e.toId], e) <= Flow(mid[e.toId], e)
  {
    hide Flow;
    FlowMono(s[e.toId], mid[e.toId], e);
  }

  /** Both directions of one edge, in place. */
  method RelaxEdge(h: Hood, s: Scores, e: Edge) returns (t: Scores, changed: bool)
    requires WellFormed(h) && Scored(h, s) && e in h.edges
    ensures Scored(h, t) && (changed <==> t != s)
    ensures Relaxed(h, s, t, [e])
  {
    hide Flow, Realised, Relaxed;
    t, changed := s, false;
    if e.fromId in t && e.toId in t {
      BothWays(h, s, e);
      HopKeepsScored(h, s, Hop(e, true));
      HopKeepsScored(h, Hopped(s, Hop(e, true)), Hop(e, false));
      var candidate := Flow(t[e.fromId], e);
      if candidate > t[e.toId] {
        t := t[e.toId := candidate];
        changed := true;
      }
      assert t == Hopped(s, Hop(e, true));
      candidate := Flow(t[e.toId], e);
      if candidate > t[e.fromId] && e.fromId != h.originId {
        t := t[e.fromId := candidate];
        changed := true;
      }
    } else {
      NothingToRelax(h, s, e);
    }
  }

  lemma NothingToRelax(h: Hood, s: Scores, e: Edge)
    requires Scored(h, s) && (e.fromId !in s || e.toId !in s)
    ensures Relaxed(h, s, s, [e])
  {
  }

  /** One more edge after a stretch of edges. */
  lemma RelaxedSnoc(h: Hood, s: Scores, t: Scores, u: Scores, es: seq<Edge>, e: Edge)
    requires WellFormed(h) && Scored(h, s) && e in h.edges
    requires Relaxed(h, s, t, es) && Relaxed(h, t, u, [e])
    ensures Relaxed(h, s, u, es + [e])
  {
    hide Flow, Realised;
    forall x: Hop | x.edge in es + [e] && CanHop(h, x) && Source(x) in s && Target(x) in s
      ensures u[Target(x)] >= Flow(s[Source(x)], x.edge)
    {
      if x.edge in es {
        assert u[Target(x)] >= t[Target(x)] >= Flow(s[Source(x)], x.edge);
      } else {
        FlowMono(s[Source(x)], t[Source(x)], x.edge);
      }
    }
  }

  /** One pass over all edges. */
  method RelaxPass(h: Hood, s: Scores) returns (t: Scores, changed: bool)
    requires WellFormed(h) && Scored(h, s)
    ensures Scored(h, t) && (!changed ==> t == s)
    ensures Relaxed(h, s, t, h.edges)
  {
    hide Flow, Realised, Scored, WellFormed;
    t, changed := s, false;
    for i := 0 to |h.edges|
      invariant Scored(h, t) && (!changed ==> t == s)
      invariant Relaxed(h, s, t, h.edges[..i])
    {
      var was := t;
      var raised;
      t, raised := RelaxEdge(h, t, h.edges[i]);
      RelaxedSnoc(h, s, was, t, h.edges[..i], h.edges[i]);
      assert h.edges[..i] + [h.edges[i]] == h.edges[..i + 1];
      changed := changed || raised;
    }
    assert h.edges[..|h.edges|] == h.edges;
  }

  /** At most six passes, stopping at the first one that changes nothing. */
  method Propagate(h: Hood) returns (s: Scores, settled: bool)
    requires WellFormed(h)
    ensures Scored(h, s) && BestUpTo(h, s, MAX_PASSES)
    ensures settled ==> BestOverall(h, s)
  {
    s := map id | id in h.nodeIds + [h.originId] :: if id == h.originId then 1.0 else 0.0;
    settled := false;
    StartIsScored(h, s);
    hide Scored, WellFormed, BestUpTo, BestOverall, Relaxed;
    var pass := 0;
    while pass < MAX_PASSES
      invariant 0 <= pass <= MAX_PASSES
      invariant Scored(h, s) && BestUpTo(h, s, pass)
    {
      var t, changed := RelaxPass(h, s);
      if !changed {
        FixpointIsBestOverall(h, s);
        settled := true;
        return;
      }
      PassExtends(h, s, t, pass);
      s := t;
      pass := pass + 1;
    }
  }

  lemma FixpointIsBestOverall(h: Hood, s: Scores)
    requires WellFormed(h) && Scored(h, s) && Relaxed(h, s, s, h.edges)
    ensures BestOverall(h, s) && BestUpTo(h, s, MAX_PASSES)
  {
    hide Relaxed, Scored, WellFormed, Bested;
    forall w ensures Bested(h, s, w) {
      FixpointIsBest(h, s, w);
    }
  }

  // ---------------------------------------------------------------- pruning

  datatype ScoredNode = ScoredNode(id: Id, score: real)

  datatype Stats = Stats(nodesBefore: nat, nodesAfter: nat, edgesKept: nat)

  datatype Subgraph = Subgraph(originId: Id, nodes: seq<ScoredNode>, edges: seq<Edge>, stats: Stats)

  /** Everything but the origin that scored at or above the threshold. */
  ghost function Candidates(h: Hood, s: Scores): set<ScoredNode> {
    set id | id in s && id != h.originId && s[id] >= DROP_THRESHOLD :: ScoredNode(id, s[id])
  }

  ghost predicate Descending(ns: seq<ScoredNode>) {
    forall i, j :: 0 <= i < j < |ns| ==> ns[i].score >= ns[j].score
  }

  function Ids(ns: seq<ScoredNode>): set<Id> {
    set n | n in ns :: n.id
  }

  function Filter(es: seq<Edge>, ids: set<Id>): seq<Edge> {
    if es == [] then []
    else
      var init, e := es[..|es| - 1], es[|es| - 1];
      Filter(init, ids) + if e.fromId in ids && e.toId in ids then [e] else []
  }

  /** The origin, or one of the nodes kept. */
  ghost predicate Survives(sub: Subgraph, id: Id) {
    id == sub.originId || exists n :: n in sub.nodes && n.id == id
  }

  /** The edges kept are, in order, those at the listed positions: exactly the ones both of whose ends survive. */
  ghost predicate PicksEdges(h: Hood, sub: Subgraph, at: seq<nat>) {
    && |at| == |sub.edges|
    && (forall j, k :: 0 <= j < k < |at| ==> at[j] < at[k])
    && (forall k :: 0 <= k < |at| ==> at[k] < |h.edges| && sub.edges[k] == h.edges[at[k]])
    && (forall i: nat :: i < |h.edges| ==>
          (i in at <==> Survives(sub, h.edges[i].fromId) && Survives(sub, h.edges[i].toId)))
  }

  ghost predicate EdgesSurvive(h: Hood, sub: Subgraph) {
    exists at :: PicksEdges(h, sub, at)
  }

  /** kept is, in order, what stands at the listed positions: exactly the edges between the given ids. */
  ghost predicate Picks(es: seq<Edge>, ids: set<Id>, at: seq<nat>, kept: seq<Edge>) {
    && |at| == |kept|
    && (forall j, k :: 0 <= j < k < |at| ==> at[j] < at[k])
    && (forall k :: 0 <= k < |at| ==> at[k] < |es| && kept[k] == es[at[k]])
    && (forall i: nat :: i < |es| ==> (i in at <==> es[i].fromId in ids && es[i].toId in ids))
  }

  lemma PicksSnoc(es: seq<Edge>, e: Edge, ids: set<Id>, at: seq<nat>, kept: seq<Edge>)
    requires Picks(es, ids, at, kept)
    ensures !(e.fromId in ids && e.toId in ids) ==> Picks(es + [e], ids, at, kept)
    ensures e.fromId in ids && e.toId in ids ==> Picks(es + [e], ids, at + [|es|], kept + [e])
  {
    var all := es + [e];
    assert forall i :: 0 <= i < |es| ==> all[i] == es[i];
    assert |es| !in at;
    assert forall i :: i in at + [|es|] <==> i in at || i == |es|;
  }

  lemma {:induction false} FilterPicks(es: seq<Edge>, ids: set<Id>) returns (at: seq<nat>)
    ensures Picks(es, ids, at, Filter(es, ids))
  {
    at := [];
    if es != [] {
      hide Picks;
      var init, e := es[..|es| - 1], es[|es| - 1];
      at := FilterPicks(init, ids);
      PicksSnoc(init, e, ids, at, Filter(init, ids));
      assert es == init + [e];
      if e.fromId in ids && e.toId in ids {
        at := at + [|init|];
      } else {
        assert Filter(es, ids) == Filter(init, ids);
      }
    }
  }

  lemma FilteredSurvive(h: Hood, sub: Subgraph)
    requires sub.originId == h.originId && sub.edges == Filter(h.edges, {h.originId} + Ids(sub.nodes))
    ensures EdgesSurvive(h, sub)
  {
    var ids := {h.originId} + Ids(sub.nodes);
    assert forall id :: Survives(sub, id) <==> id in ids;
    var at := FilterPicks(h.edges, ids);
    hide Filter, Survives, Ids;
    assert PicksEdges(h, sub, at);
  }

  /** What the subgraph owes to the scores: the best candidates up to the cap, and every edge between survivors. */
  ghost predicate IsPruning(h: Hood, s: Scores, sub: Subgraph) {
    && sub.originId == h.originId
    && multiset(sub.nodes) <= multiset(Candidates(h, s))
    && |sub.nodes| == (if |Candidates(h, s)| <= MAX_NODES then |Candidates(h, s)| else MAX_NODES)
    && Descending(sub.nodes)
    && (forall n, c :: n in sub.nodes && c in Candidates(h, s) && c !in sub.nodes ==> n.score >= c.score)
    && EdgesSurvive(h, sub)
    && sub.stats == Stats(|s.Keys - {h.originId}|, |sub.nodes|, |sub.edges|)
  }

  /** The subgraph prunes some scores that are exact up to the pass limit. */
  ghost predicate Answers(h: Hood, sub: Subgraph) {
    exists s :: Scored(h, s) && BestUpTo(h, s, MAX_PASSES) && IsPruning(h, s, sub)
  }

  method SortByScore(ns: seq<ScoredNode>) returns (r: seq<ScoredNode>)
    ensures multiset(r) == multiset(ns) && Descending(r)
  {
    r := Sorting.Sort(ns, (a: ScoredNode, b: ScoredNode) => a.score >= b.score);
  }

  /** The nodes at or above the threshold, gathered in any order. */
  method Collect(h: Hood, s: Scores) returns (kept: seq<ScoredNode>, keptIds: set<Id>)
    ensures multiset(kept) == multiset(Candidates(h, s))
    ensures keptIds == {h.originId} + Ids(kept)
  {
    kept, keptIds := [], {h.originId};
    var rest := s.Keys;
    ghost var done: set<ScoredNode> := {};
    while rest != {}
      invariant rest <= s.Keys
      invariant forall c :: c in done <==> c in Candidates(h, s) && c.id !in rest
      invariant multiset(kept) == multiset(done)
      invariant keptIds == {h.originId} + Ids(kept)
      decreases |rest|
    {
      var id :| id in rest;
      rest := rest - {id};
      if id != h.originId && !(s[id] < DROP_THRESHOLD) {
        var n := ScoredNode(id, s[id]);
        assert n !in done && n in Candidates(h, s);
        kept := kept + [n];
        keptIds := keptIds + {id};
        done := done + {n};
      }
    }
    assert done == Candidates(h, s);
  }

  /** Distinct candidates have distinct ids, so dropping the tail drops exactly its ids. */
  lemma TailIdsAreApart(h: Hood, s: Scores, all: seq<ScoredNode>, cap: nat)
    requires multiset(all) == multiset(Candidates(h, s)) && cap <= |all|
    ensures Ids(all) - Ids(all[cap..]) == Ids(all[..cap]) && h.originId !in Ids(all)
  {
    forall n, m | n in all[..cap] && m in all[cap..] ensures n.id != m.id {
      NoRepeats(h, s, all, cap, n, m);
    }
    forall n | n in all ensures n in Candidates(h, s) {
      assert n in multiset(all);
    }
    assert all == all[..cap] + all[cap..];
  }

  lemma NoRepeats(h: Hood, s: Scores, all: seq<ScoredNode>, cap: nat, n: ScoredNode, m: ScoredNode)
    requires multiset(all) == multiset(Candidates(h, s)) && cap <= |all|
    requires n in all[..cap] && m in all[cap..]
    ensures n.id != m.id
  {
    assert all == all[..cap] + all[cap..];
    assert n in multiset(all[..cap]) && m in multiset(all[cap..]);
    assert n in multiset(all) && m in multiset(all);
    assert n != m by {
      assert multiset(all)[n] == multiset(all[..cap])[n] + multiset(all[cap..])[n];
      assert multiset(Candidates(h, s))[n] <= 1;
    }
  }

  lemma PrefixIsBest(h: Hood, s: Scores, all: seq<ScoredNode>, cap: nat)
    requires multiset(all) == multiset(Candidates(h, s)) && cap <= |all| && Descending(all)
    ensures multiset(all[..cap]) <= multiset(Candidates(h, s)) && Descending(all[..cap])
    ensures forall n, c :: n in all[..cap] && c in Candidates(h, s) && c !in all[..cap] ==> n.score >= c.score
    ensures |all| == |Candidates(h, s)|
  {
    assert all == all[..cap] + all[cap..];
    assert |multiset(all)| == |all|;
    forall n, c | n in all[..cap] && c in Candidates(h, s) && c !in all[..cap] ensures n.score >= c.score {
      assert c in multiset(all);
      assert c in all[cap..];
    }
  }

  /** Cut to the cap, taking the ids of the tail out of the kept ids one by one. */
  method CutToCap(h: Hood, s: Scores, all: seq<ScoredNode>, allIds: set<Id>) returns (kept: seq<ScoredNode>,
                  keptIds: set<Id>)
    requires multiset(all) == multiset(Candidates(h, s)) && allIds == {h.originId} + Ids(all)
    ensures kept == if |all| > MAX_NODES then all[..MAX_NODES] else all
    ensures keptIds == {h.originId} + Ids(kept)
  {
    hide Candidates;
    kept, keptIds := all, allIds;
    if |all| > MAX_NODES {
      for i := MAX_NODES to |all|
        invariant keptIds == allIds - Ids(all[MAX_NODES..i])
      {
        assert all[MAX_NODES..i + 1] == all[MAX_NODES..i] + [all[i]];
        keptIds := keptIds - {all[i].id};
      }
      assert all[MAX_NODES..|all|] == all[MAX_NODES..];
      kept := all[..MAX_NODES];
      TailIdsAreApart(h, s, all, MAX_NODES);
    }
  }

  method KeepEdges(es: seq<Edge>, ids: set<Id>) returns (edges: seq<Edge>)
    ensures edges == Filter(es, ids)
  {
    edges := [];
    for i := 0 to |es|
      invariant edges == Filter(es[..i], ids)
    {
      assert es[..i + 1][..i] == es[..i];
      if es[i].fromId in ids && es[i].toId in ids {
        edges := edges + [es[i]];
      }
    }
    assert es[..|es|] == es;
  }

  method ScoreAndPrune(h: Hood) returns (sub: Subgraph)
    requires WellFormed(h)
    ensures Answers(h, sub)
  {
    hide Scored, BestUpTo, BestOverall, Candidates, Descending, WellFormed, Filter, Ids;
    var s, _ := Propagate(h);
    var collected, collectedIds := Collect(h, s);
    var sorted := SortByScore(collected);
    SameIds(collected, sorted);
    var kept, keptIds := CutToCap(h, s, sorted, collectedIds);
    PrefixIsBest(h, s, sorted, if |sorted| > MAX_NODES then MAX_NODES else |sorted|);
    assert sorted[..|sorted|] == sorted;
    var edges := KeepEdges(h.edges, keptIds);
    sub := Subgraph(h.originId, kept, edges, Stats(|s.Keys - {h.originId}|, |kept|, |edges|));
    FilteredSurvive(h, sub);
    hide EdgesSurvive;
    assert IsPruning(h, s, sub);
  }

  lemma SameIds(ns: seq<ScoredNode>, ms: seq<ScoredNode>)
    requires multiset(ns) == multiset(ms)
    ensures Ids(ns) == Ids(ms)
  {
    assert forall n :: n in ns <==> n in multiset(ns);
    assert forall n :: n in ms <==> n in multiset(ms);
  }

  /** Every node kept owes its score to a real walk from the origin. */
  lemma KeptScoresAreReal(h: Hood, sub: Subgraph, n: ScoredNode)
    requires Answers(h, sub) && n in sub.nodes
    ensures n.id in h.nodeIds && n.id != h.originId && 0.15 <= n.score <= 1.0 && Realised(h, n.id, n.score)
  {
    hide Realised, BestUpTo;
    var s :| Scored(h, s) && BestUpTo(h, s, MAX_PASSES) && IsPruning(h, s, sub);
    assert n in multiset(sub.nodes);
    assert n in Candidates(h, s);
  }

  /** No node is lost that a walk of at most six edges supports, unless the cap was filled by nodes at least as good. */
  lemma StrongNodesSurvive(h: Hood, sub: Subgraph, w: seq<Hop>)
    requires Answers(h, sub) && IsWalk(h, w) && |w| <= 6 && End(h, w) != h.originId && Product(w) >= 0.15
    ensures (exists n :: n in sub.nodes && n.id == End(h, w) && n.score >= Product(w))
      || (|sub.nodes| == 200 && forall n :: n in sub.nodes ==> n.score >= Product(w))
  {
    hide Realised, Product, IsWalk, Scored, Filter;
    var s :| Scored(h, s) && BestUpTo(h, s, MAX_PASSES) && IsPruning(h, s, sub);
    assert Bested(h, s, w);
    var id := End(h, w);
    var c := ScoredNode(id, s[id]);
    assert c in Candidates(h, s);
    if c !in sub.nodes && |sub.nodes| < MAX_NODES {
      SameSize(sub.nodes, Candidates(h, s), c);
    }
  }

  lemma SameSize(ns: seq<ScoredNode>, cs: set<ScoredNode>, c: ScoredNode)
    requires multiset(ns) <= multiset(cs) && |ns| == |cs| && c in cs
    ensures c in ns
  {
    var gap := multiset(cs) - multiset(ns);
    assert multiset(cs) == multiset(ns) + gap;
    assert |multiset(cs)| == |multiset(ns)| + |gap|;
    assert gap == multiset{};
    assert c in multiset(cs);
  }

  // ---------------------------------------------------------------- retrieval

  datatype Retrieval = Retrieval(sub: Subgraph, requestedDepth: nat, appliedDepth: nat)

  /**
   * Fetch, score, and fetch again one level shallower while too many nodes are left. Scoring already cuts to
   * the cap, so the first answer is always taken: the applied depth is the requested one.
   */
  method Retrieve(fetch: nat -> Option<Hood>, depth: int) returns (r: Option<Retrieval>)
    requires forall d :: 1 <= d <= 5 && fetch(d).Some? ==> WellFormed(fetch(d).value)
    ensures var d := if depth < 1 then 1 else if depth > 5 then 5 else depth;
      && (r.None? <==> fetch(d).None?)
      && (r.Some? ==> Answers(fetch(d).value, r.value.sub) && r.value.requestedDepth == r.value.appliedDepth == d)
  {
    hide Answers, WellFormed;
    var current := if depth < 1 then 1 else if depth > 5 then 5 else depth;
    var requested := current;
    ghost var before, tooMany := None, None;
    while true
      invariant 1 <= current <= requested == if depth < 1 then 1 else if depth > 5 then 5 else depth
      invariant current < requested ==> before.Some? && tooMany.Some? && Answers(before.value, tooMany.value)
      invariant current < requested ==> |tooMany.value.nodes| > MAX_NODES
      decreases current
    {
      if current < requested {
        AnswersFitTheCap(before.value, tooMany.value);
        assert false;
      }
      var h := fetch(current);
      if h.None? {
        return None;
      }
      var sub := ScoreAndPrune(h.value);
      if |sub.nodes| <= MAX_NODES || current <= 1 {
        return Some(Retrieval(sub, requested, current));
      }
      before, tooMany := h, Some(sub);
      current := current - 1;
    }
  }

  lemma AnswersFitTheCap(h: Hood, sub: Subgraph)
    requires Answers(h, sub)
    ensures |sub.nodes| <= 200
  {
    hide Scored, BestUpTo, Candidates, Filter;
  }
}
