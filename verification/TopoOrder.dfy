/** Planning an ingestion run: a depth-first topological sort that rejects cycles and unknown dependencies. */
module TopoOrder {
  import opened Digraph

  datatype Ingestor = Ingestor(id: Node, dependencies: seq<Node>)

  datatype PlanResult = Planned(order: seq<Node>) | DependencyCycle | UnregisteredDependency

  /** Each id with what it depends on; a later registration of an id wins. */
  function DependencyMap(ings: seq<Ingestor>): Adjacency {
    if ings == [] then map[]
    else DependencyMap(ings[..|ings| - 1])[ings[|ings| - 1].id := ings[|ings| - 1].dependencies]
  }

  /** Exactly the registered ids are keys, each with the dependencies of its last registration. */
  lemma {:induction false} DependencyMapIs(ings: seq<Ingestor>, id: Node)
    ensures id in DependencyMap(ings) <==> exists i :: 0 <= i < |ings| && ings[i].id == id
    ensures forall i :: 0 <= i < |ings| && ings[i].id == id && (forall k :: i < k < |ings| ==> ings[k].id != id) ==>
        DependencyMap(ings)[id] == ings[i].dependencies
  {
    if ings != [] {
      var init := ings[..|ings| - 1];
      DependencyMapIs(init, id);
      assert forall i :: 0 <= i < |init| ==> init[i] == ings[i];
    }
  }

  ghost predicate AllRegistered(g: Adjacency) {
    forall u, w :: u in g && w in g[u] ==> w in g
  }

  ghost predicate Acyclic(g: Adjacency) {
    forall u :: !OnCycle(g, u)
  }

  /** A permutation of the ids with every dependency strictly before its dependents. */
  ghost predicate IsPlan(g: Adjacency, order: seq<Node>) {
    && (forall u :: u in order <==> u in g)
    && Orderly(g, order)
  }

  /** No repetition, and each element's dependencies come before it. */
  ghost predicate Orderly(g: Adjacency, order: seq<Node>) {
    && (forall i, j :: 0 <= i < j < |order| ==> order[i] != order[j])
    && (forall i, w :: 0 <= i < |order| && w in Succ(g, order[i]) ==> w in order[..i])
  }

  function Position(order: seq<Node>, u: Node): (i: nat)
    requires u in order
    ensures i < |order| && order[i] == u
  {
    if order[0] == u then 0 else 1 + Position(order[1..], u)
  }

  /** Along dependencies, positions strictly fall. */
  lemma {:induction false} PositionsFall(g: Adjacency, order: seq<Node>, p: seq<Node>)
    requires Orderly(g, order) && IsPath(g, p) && p[0] in order
    ensures p[|p| - 1] in order
    ensures |p| > 1 ==> Position(order, p[|p| - 1]) < Position(order, p[0])
    decreases |p|
  {
    if |p| > 1 {
      var i := Position(order, p[0]);
      assert p[1] in Succ(g, order[i]);
      assert p[1] in order[..i];
      var j :| 0 <= j < i && order[j] == p[1];
      assert Position(order, p[1]) == j;
      PositionsFall(g, order, p[1..]);
    }
  }

  /** A plan exists only for an acyclic graph with every dependency registered. */
  lemma PlannedMeansAcyclic(g: Adjacency, order: seq<Node>)
    requires IsPlan(g, order)
    ensures Acyclic(g) && AllRegistered(g)
  {
    forall u | OnCycle(g, u) ensures false {
      var p :| IsPath(g, p) && |p| >= 2 && p[0] == u && p[|p| - 1] == u;
      assert p[1] in Succ(g, p[0]);
      PositionsFall(g, order, p);
    }
    forall u, w | u in g && w in g[u] ensures w in g {
      var i := Position(order, u);
      assert w in order[..i];
    }
  }

  /** Grey (1) nodes are the chain in progress, black (2) nodes the order so far. */
  ghost predicate Inv(g: Adjacency, color: map<Node, int>, order: seq<Node>, stack: seq<Node>) {
    && Orderly(g, order)
    && (forall u :: u in color ==> u in g && (color[u] == 1 || color[u] == 2))
    && (forall u :: u in order <==> u in color && color[u] == 2)
    && (forall u :: u in stack <==> u in color && color[u] == 1)
    && (stack == [] || IsPath(g, stack))
  }

  lemma EnterKeepsInv(g: Adjacency, color: map<Node, int>, order: seq<Node>, stack: seq<Node>, id: Node)
    requires Inv(g, color, order, stack) && id in g && id !in color
    requires stack != [] ==> id in Succ(g, stack[|stack| - 1])
    ensures Inv(g, color[id := 1], order, stack + [id])
  {
    hide Orderly;
    PathSnoc(g, stack, id);
  }

  lemma LeaveKeepsInv(g: Adjacency, color: map<Node, int>, order: seq<Node>, stack: seq<Node>, id: Node)
    requires Inv(g, color, order, stack + [id]) && id in g && id !in stack
    requires forall w :: w in g[id] ==> w in order
    ensures Inv(g, color[id := 2], order + [id], stack)
  {
    hide IsPath, Orderly;
    assert id in stack + [id];
    AppendOrderly(g, order, id);
    assert stack != [] ==> IsPath(g, stack) by { PathInit(g, stack, id); }
  }

  lemma PathInit(g: Adjacency, stack: seq<Node>, id: Node)
    requires IsPath(g, stack + [id])
    ensures stack != [] ==> IsPath(g, stack)
  {
    var p := stack + [id];
    assert forall i :: 0 <= i < |stack| ==> stack[i] == p[i];
  }

  /** The variables the recursive visit shares. `stack` is the chain of nodes in progress. */
  class Planner {
    const g: Adjacency
    var color: map<Node, int>
    var order: seq<Node>

    constructor (g: Adjacency)
      ensures this.g == g && color == map[] && order == []
    {
      this.g, color, order := g, map[], [];
    }

    ghost predicate Valid(stack: seq<Node>)
      reads this
    {
      Inv(g, color, order, stack)
    }

    /** Nil error, or the first thing found wrong below id. */
    method Visit(id: Node, stack: seq<Node>) returns (err: PlanResult)
      requires Valid(stack)
      requires stack != [] ==> id in Succ(g, stack[|stack| - 1])
      modifies this
      ensures err.Planned? ==> Valid(stack) && id in order && old(order) <= order
      ensures err.Planned? ==> forall u :: u in old(color) ==> u in color && color[u] == old(color)[u]
      ensures err.DependencyCycle? ==> exists u :: OnCycle(g, u)
      ensures err.UnregisteredDependency? ==> id !in g || !AllRegistered(g)
      decreases g.Keys - color.Keys
    {
      hide OnCycle, Inv, IsPath, Orderly;
      InvColors(g, color, order, stack);
      if id in color && color[id] == 1 {
        ClosesCycle(g, stack, id);
        return DependencyCycle;
      }
      if id in color && color[id] == 2 {
        return Planned([]);
      }
      if id !in g {
        return UnregisteredDependency;
      }
      EnterKeepsInv(g, color, order, stack, id);
      color := color[id := 1];
      var deps := g[id];
      for k := 0 to |deps|
        invariant Valid(stack + [id]) && old(order) <= order
        invariant forall j :: 0 <= j < k ==> deps[j] in order
        invariant forall u :: u in old(color) ==> u in color && color[u] == old(color)[u]
        invariant id in color && color[id] == 1
      {
        err := Visit(deps[k], stack + [id]);
        if !err.Planned? {
          return;
        }
      }
      LeaveKeepsInv(g, color, order, stack, id);
      color := color[id := 2];
      order := order + [id];
      return Planned([]);
    }
  }

  lemma InvColors(g: Adjacency, color: map<Node, int>, order: seq<Node>, stack: seq<Node>)
    requires Inv(g, color, order, stack)
    ensures forall u :: u in color ==> u in g && (color[u] == 1 || color[u] == 2)
    ensures forall u :: u in order <==> u in color && color[u] == 2
    ensures forall u :: u in stack <==> u in color && color[u] == 1
    ensures stack == [] || IsPath(g, stack)
    ensures Orderly(g, order)
  {
  }

  lemma PathSnoc(g: Adjacency, stack: seq<Node>, id: Node)
    requires stack == [] || (IsPath(g, stack) && id in Succ(g, stack[|stack| - 1]))
    ensures IsPath(g, stack + [id])
  {
  }

  lemma ClosesCycle(g: Adjacency, stack: seq<Node>, id: Node)
    requires stack != [] && IsPath(g, stack) && id in stack && id in Succ(g, stack[|stack| - 1])
    ensures OnCycle(g, id)
  {
    var i :| 0 <= i < |stack| && stack[i] == id;
    var p := stack[i..] + [id];
    assert forall j :: 0 <= j < |p| - 1 ==> p[j] == stack[i + j];
    assert IsPath(g, p) && |p| >= 2 && p[0] == id && p[|p| - 1] == id;
  }

  lemma AppendOrderly(g: Adjacency, order: seq<Node>, id: Node)
    requires Orderly(g, order) && id !in order && forall w :: w in Succ(g, id) ==> w in order
    ensures Orderly(g, order + [id])
  {
    var o := order + [id];
    forall i, w | 0 <= i < |o| && w in Succ(g, o[i]) ensures w in o[..i] {
      if i < |order| {
        assert o[..i] == order[..i];
      } else {
        assert o[..i] == order;
      }
    }
  }

  /** Plans the run, or says what is wrong; the ids may be visited in any order. */
  method TopoSort(ings: seq<Ingestor>) returns (r: PlanResult)
    ensures var g := DependencyMap(ings);
            && (r.Planned? <==> AllRegistered(g) && Acyclic(g))
            && (r.Planned? ==> IsPlan(g, r.order))
            && (r.DependencyCycle? ==> !Acyclic(g))
            && (r.UnregisteredDependency? ==> !AllRegistered(g))
  {
    hide OnCycle, Inv, Orderly;
    var g: Adjacency := map[];
    for k := 0 to |ings|
      invariant g == DependencyMap(ings[..k])
    {
      assert ings[..k + 1][..k] == ings[..k];
      g := g[ings[k].id := ings[k].dependencies];
    }
    assert ings[..|ings|] == ings;
    var planner := new Planner(g);
    NothingPlanned(g);
    var ids := g.Keys;
    while ids != {}
      invariant planner.g == g && ids <= g.Keys && planner.Valid([])
      invariant forall u :: u in g && u !in ids ==> u in planner.order
      decreases |ids|
    {
      var id :| id in ids;
      r := planner.Visit(id, []);
      if !r.Planned? {
        return;
      }
      ids := ids - {id};
    }
    InvColors(g, planner.color, planner.order, []);
    PlannedMeansAcyclic(g, planner.order);
    return Planned(planner.order);
  }

  lemma NothingPlanned(g: Adjacency)
    ensures Inv(g, map[], [], [])
  {
  }
}
