/** The N-hop neighbourhood of an entity: what it is, and the breadth-first search that computes it. */
module Neighborhood {
  import opened Records

  datatype Direction = Outbound | Inbound | Both

  /** The origin, the other nodes and the edges, each by id. */
  datatype Hood = Hood(origin: Entity, nodes: map<Id, Entity>, edges: map<Id, Relationship>, maxDepth: nat)

  function ClampDepth(maxDepth: int): (d: nat)
    ensures d <= 5
  {
    if maxDepth < 0 then 0 else if maxDepth > 5 then 5 else maxDepth
  }

  // ---------------------------------------------------------------- distance

  /** The active edge e is followed from x. */
  predicate Expands(e: Relationship, dir: Direction, x: Id) {
    e.isActive &&
    match dir
    case Outbound => e.fromId == x
    case Inbound => e.toId == x
    case Both => e.fromId == x || e.toId == x
  }

  /** The end of e that is not x. */
  function Other(e: Relationship, x: Id): Id {
    if e.toId == x then e.fromId else e.toId
  }

  /** Some active edge leads from x to the stored entity y. */
  ghost predicate StepsTo(db: Db, dir: Direction, x: Id, y: Id) {
    y in db.entities && exists r :: StepBy(db, dir, x, y, r)
  }

  ghost predicate StepBy(db: Db, dir: Direction, x: Id, y: Id, r: Id) {
    r in db.relationships && Expands(db.relationships[r], dir, x) && Other(db.relationships[r], x) == y
  }

  ghost function Neighbors(db: Db, dir: Direction, xs: set<Id>): set<Id> {
    set y | y in db.entities && exists x :: x in xs && StepsTo(db, dir, x, y)
  }

  /** The entities at distance at most k. */
  ghost function Within(db: Db, dir: Direction, o: Id, k: nat): set<Id> {
    if k == 0 then {o} else Within(db, dir, o, k - 1) + Neighbors(db, dir, Within(db, dir, o, k - 1))
  }

  /** The edges followed from any of xs. */
  ghost function EdgesFrom(db: Db, dir: Direction, xs: set<Id>): set<Id> {
    set r | r in db.relationships && exists x :: x in xs && Expands(db.relationships[r], dir, x)
  }

  ghost function EdgesWithin(db: Db, dir: Direction, o: Id, k: nat): set<Id> {
    if k == 0 then {} else EdgesFrom(db, dir, Within(db, dir, o, k - 1))
  }

  ghost predicate IsRoute(db: Db, dir: Direction, p: seq<Id>) {
    |p| > 0 && forall i :: 0 <= i < |p| - 1 ==> StepsTo(db, dir, p[i], p[i + 1])
  }

  /** Distance as the length of a shortest route, the independent definition. */
  lemma {:induction false} WithinIsDistance(db: Db, dir: Direction, o: Id, k: nat, y: Id)
    ensures y in Within(db, dir, o, k)
        <==> exists p :: IsRoute(db, dir, p) && p[0] == o && p[|p| - 1] == y && |p| <= k + 1
  {
    hide StepsTo;
    if y in Within(db, dir, o, k) {
      if k == 0 {
        assert IsRoute(db, dir, [o]);
      } else if y in Within(db, dir, o, k - 1) {
        WithinIsDistance(db, dir, o, k - 1, y);
      } else {
        var x :| x in Within(db, dir, o, k - 1) && StepsTo(db, dir, x, y);
        WithinIsDistance(db, dir, o, k - 1, x);
        var p :| IsRoute(db, dir, p) && p[0] == o && p[|p| - 1] == x && |p| <= k;
        assert IsRoute(db, dir, p + [y]);
      }
    }
    if p :| IsRoute(db, dir, p) && p[0] == o && p[|p| - 1] == y && |p| <= k + 1 {
      if |p| == 1 {
        OriginWithin(db, dir, o, k);
      } else {
        var q := p[..|p| - 1];
        assert IsRoute(db, dir, q);
        WithinIsDistance(db, dir, o, k - 1, q[|q| - 1]);
        assert StepsTo(db, dir, q[|q| - 1], y);
        assert y in Neighbors(db, dir, Within(db, dir, o, k - 1)) by { StepIsStored(db, dir, q[|q| - 1], y); }
      }
    }
  }

  lemma StepIsStored(db: Db, dir: Direction, x: Id, y: Id)
    requires StepsTo(db, dir, x, y)
    ensures y in db.entities
  {
  }

  lemma {:induction false} OriginWithin(db: Db, dir: Direction, o: Id, k: nat)
    ensures o in Within(db, dir, o, k)
  {
    if k > 0 {
      OriginWithin(db, dir, o, k - 1);
    }
  }

  lemma {:induction false} WithinStored(db: Db, dir: Direction, o: Id, k: nat)
    requires o in db.entities
    ensures forall y :: y in Within(db, dir, o, k) ==> y in db.entities
  {
    if k > 0 {
      WithinStored(db, dir, o, k - 1);
    }
  }

  /** What an uncached read returns: the defining answer. */
  ghost function FreshHood(db: Db, o: Id, d: nat, dir: Direction): Hood
    requires o in db.entities
  {
    WithinStored(db, dir, o, d);
    Hood(db.entities[o],
         map y | y in Within(db, dir, o, d) && y != o :: db.entities[y],
         map r | r in EdgesWithin(db, dir, o, d) :: db.relationships[r],
         d)
  }

  // ---------------------------------------------------------------- the answer, said of rows alone

  /** An active edge that may be taken from x, in the direction asked for. */
  ghost predicate Leaves(e: Relationship, dir: Direction, x: Id) {
    e.isActive && ((dir != Inbound && e.fromId == x) || (dir != Outbound && e.toId == x))
  }

  /** Such an edge joins x to the stored entity y. */
  ghost predicate Joins(db: Db, dir: Direction, x: Id, y: Id) {
    y in db.entities && exists r :: r in db.relationships && JoinsBy(db.relationships[r], dir, x, y)
  }

  ghost predicate JoinsBy(e: Relationship, dir: Direction, x: Id, y: Id) {
    && e.isActive
    && ((dir != Inbound && e.fromId == x && e.toId == y) || (dir != Outbound && e.toId == x && e.fromId == y))
  }

  /** At most n edges lead from o to y. */
  ghost predicate Reachable(db: Db, dir: Direction, o: Id, y: Id, n: int) {
    exists p: seq<Id> :: IsTrail(db, dir, o, y, p) && |p| <= n + 1
  }

  ghost predicate IsTrail(db: Db, dir: Direction, o: Id, y: Id, p: seq<Id>) {
    |p| > 0 && p[0] == o && p[|p| - 1] == y && forall i :: 0 <= i < |p| - 1 ==> Joins(db, dir, p[i], p[i + 1])
  }

  /**
   * What a caller may expect of an answer at depth n: the origin's row, the rows of exactly the other nodes that at
   * most n edges lead to, and the rows of exactly the edges that leave a node that fewer lead to.
   */
  ghost predicate IsAnswer(db: Db, o: Id, n: int, dir: Direction, h: Hood) {
    && o in db.entities && h.origin == db.entities[o] && h.maxDepth == n
    && (forall y :: y in h.nodes <==> y != o && Reachable(db, dir, o, y, n))
    && (forall y :: y in h.nodes ==> y in db.entities && h.nodes[y] == db.entities[y])
    && (forall r :: r in h.edges <==> r in db.relationships && LeavesNear(db, o, n, dir, db.relationships[r]))
    && (forall r :: r in h.edges ==> r in db.relationships && h.edges[r] == db.relationships[r])
  }

  ghost predicate LeavesNear(db: Db, o: Id, n: int, dir: Direction, e: Relationship) {
    exists x :: Reachable(db, dir, o, x, n - 1) && Leaves(e, dir, x)
  }

  lemma JoinsIff(db: Db, dir: Direction, x: Id, y: Id)
    ensures Joins(db, dir, x, y) <==> StepsTo(db, dir, x, y)
  {
    if Joins(db, dir, x, y) {
      var r :| r in db.relationships && JoinsBy(db.relationships[r], dir, x, y);
      assert StepBy(db, dir, x, y, r);
    }
    if StepsTo(db, dir, x, y) {
      var r :| StepBy(db, dir, x, y, r);
      assert JoinsBy(db.relationships[r], dir, x, y);
    }
  }

  lemma ReachableIff(db: Db, dir: Direction, o: Id, y: Id, n: nat)
    ensures Reachable(db, dir, o, y, n) <==> y in Within(db, dir, o, n)
  {
    hide StepsTo, Joins;
    WithinIsDistance(db, dir, o, n, y);
    forall a, b ensures Joins(db, dir, a, b) <==> StepsTo(db, dir, a, b) {
      JoinsIff(db, dir, a, b);
    }
    if Reachable(db, dir, o, y, n) {
      var p: seq<Id> :| IsTrail(db, dir, o, y, p) && |p| <= n + 1;
      assert IsRoute(db, dir, p);
    }
    if p :| IsRoute(db, dir, p) && p[0] == o && p[|p| - 1] == y && |p| <= n + 1 {
      assert IsTrail(db, dir, o, y, p);
    }
  }

  lemma LeavesIff(e: Relationship, dir: Direction, x: Id)
    ensures Leaves(e, dir, x) <==> Expands(e, dir, x)
  {
  }

  /** The uncached read gives that answer. */
  lemma FreshIsAnswer(db: Db, o: Id, n: nat, dir: Direction)
    requires o in db.entities
    ensures IsAnswer(db, o, n, dir, FreshHood(db, o, n, dir))
  {
    hide Reachable, Leaves, Expands, Neighbors;
    WithinStored(db, dir, o, n);
    forall y ensures Reachable(db, dir, o, y, n) <==> y in Within(db, dir, o, n) {
      ReachableIff(db, dir, o, y, n);
    }
    forall e, x ensures Leaves(e, dir, x) <==> Expands(e, dir, x) {
      LeavesIff(e, dir, x);
    }
    forall r | r in db.relationships
      ensures LeavesNear(db, o, n, dir, db.relationships[r]) <==> r in EdgesWithin(db, dir, o, n)
    {
      EdgeIsNear(db, o, n, dir, r);
    }
  }

  lemma EdgeIsNear(db: Db, o: Id, n: nat, dir: Direction, r: Id)
    requires r in db.relationships
    ensures LeavesNear(db, o, n, dir, db.relationships[r]) <==> r in EdgesWithin(db, dir, o, n)
  {
    hide Leaves, Expands, Neighbors;
    forall x ensures Leaves(db.relationships[r], dir, x) <==> Expands(db.relationships[r], dir, x) {
      LeavesIff(db.relationships[r], dir, x);
    }
    if n == 0 {
      NobodyNearer(db, dir, o);
    } else {
      hide Reachable;
      var m: nat := n - 1;
      forall x ensures Reachable(db, dir, o, x, m) <==> x in Within(db, dir, o, m) {
        ReachableIff(db, dir, o, x, m);
      }
    }
  }

  lemma NobodyNearer(db: Db, dir: Direction, o: Id)
    ensures forall x :: !Reachable(db, dir, o, x, -1)
  {
  }

  // ---------------------------------------------------------------- breadth-first search

  /** The rows one query returns, in whatever order. */
  method EdgesForNode(db: Db, id: Id, dir: Direction) returns (rows: seq<Id>)
    ensures forall r :: r in rows <==> r in db.relationships && Expands(db.relationships[r], dir, id)
  {
    rows := [];
    var todo := db.relationships.Keys;
    while todo != {}
      invariant todo <= db.relationships.Keys
      invariant forall r :: r in rows <==> r in db.relationships && r !in todo && Expands(db.relationships[r], dir, id)
      decreases |todo|
    {
      var r :| r in todo;
      todo := todo - {r};
      if Expands(db.relationships[r], dir, id) {
        rows := rows + [r];
      }
    }
  }

  /** Nodes and edges hold exactly the given ids, with their stored rows. */
  ghost predicate Rows(db: Db, seenNodes: map<Id, Entity>, edges: map<Id, Relationship>) {
    && (forall y :: y in seenNodes ==> y in db.entities && seenNodes[y] == db.entities[y])
    && (forall r :: r in edges ==> r in db.relationships && edges[r] == db.relationships[r])
  }

  /** The far end of every seen edge, from any seen node that follows it, is seen or not stored. */
  ghost predicate EndsSeen(db: Db, dir: Direction, nodes: set<Id>, edges: set<Id>) {
    forall r, x :: r in edges && r in db.relationships && x in nodes && Expands(db.relationships[r], dir, x) ==>
      Other(db.relationships[r], x) in nodes || Other(db.relationships[r], x) !in db.entities
  }

  /** Every seen edge is followed from some seen node. */
  ghost predicate Rooted(db: Db, dir: Direction, nodes: set<Id>, edges: set<Id>) {
    forall r :: r in edges ==> r in db.relationships && RootedEdge(db.relationships[r], dir, nodes)
  }

  ghost predicate RootedEdge(e: Relationship, dir: Direction, nodes: set<Id>) {
    exists x :: x in nodes && Expands(e, dir, x)
  }

  /** What handling edge r at node n does to the seen nodes. */
  function WithEnd(db: Db, nodes: set<Id>, n: Id, r: Id): set<Id>
    requires r in db.relationships
  {
    var y := Other(db.relationships[r], n);
    nodes + (if y in db.entities then {y} else {})
  }

  /** Handling an edge keeps the bookkeeping; an edge already seen would have changed nothing. */
  lemma AddEdge(db: Db, dir: Direction, nodes: set<Id>, edges: set<Id>, n: Id, r: Id)
    requires EndsSeen(db, dir, nodes, edges) && Rooted(db, dir, nodes, edges)
    requires n in nodes && r in db.relationships && Expands(db.relationships[r], dir, n)
    ensures EndsSeen(db, dir, WithEnd(db, nodes, n, r), edges + {r})
    ensures Rooted(db, dir, WithEnd(db, nodes, n, r), edges + {r})
    ensures r in edges ==> WithEnd(db, nodes, n, r) == nodes
  {
    var nodes' := WithEnd(db, nodes, n, r);
    forall q, x | q in edges + {r} && x in nodes' && Expands(db.relationships[q], dir, x)
                  && Other(db.relationships[q], x) in db.entities
      ensures Other(db.relationships[q], x) in nodes'
    {
      var row := db.relationships[q];
      if q in edges {
        assert RootedEdge(row, dir, nodes);
        var x0 :| x0 in nodes && Expands(row, dir, x0);
        assert Other(row, x0) in nodes || Other(row, x0) !in db.entities;
      }
    }
    forall q | q in edges + {r} ensures RootedEdge(db.relationships[q], dir, nodes') {
      if q in edges {
        assert RootedEdge(db.relationships[q], dir, nodes);
        var x0 :| x0 in nodes && Expands(db.relationships[q], dir, x0);
        assert x0 in nodes';
      }
    }
  }

  /** A node's rows account for all its edges and stored neighbours. */
  lemma NodeExpanded(db: Db, dir: Direction, n: Id, rows: seq<Id>)
    requires forall r :: r in rows <==> r in db.relationships && Expands(db.relationships[r], dir, n)
    ensures (set r | r in rows) == EdgesFrom(db, dir, {n})
    ensures (set r | r in rows && Other(db.relationships[r], n) in db.entities :: Other(db.relationships[r], n))
         == Neighbors(db, dir, {n})
  {
    hide Expands, Other;
    var ns := set r | r in rows && Other(db.relationships[r], n) in db.entities :: Other(db.relationships[r], n);
    forall y ensures y in ns <==> y in Neighbors(db, dir, {n}) {
      if y in ns {
        var r :| r in rows && Other(db.relationships[r], n) == y;
        assert StepBy(db, dir, n, y, r);
      }
      if y in Neighbors(db, dir, {n}) {
        assert StepsTo(db, dir, n, y);
        var r :| StepBy(db, dir, n, y, r);
      }
    }
  }

  /** The frontier at level k: the nodes at distance exactly k. */
  ghost predicate IsFrontier(db: Db, dir: Direction, o: Id, k: nat, frontier: set<Id>) {
    Within(db, dir, o, k) == (if k == 0 then {} else Within(db, dir, o, k - 1)) + frontier
  }

  /** Expanding exactly the frontier completes the next level. */
  lemma LevelDone(db: Db, dir: Direction, o: Id, k: nat, frontier: set<Id>)
    requires IsFrontier(db, dir, o, k, frontier)
    ensures Within(db, dir, o, k) + Neighbors(db, dir, frontier) == Within(db, dir, o, k + 1)
    ensures EdgesWithin(db, dir, o, k) + EdgesFrom(db, dir, frontier) == EdgesWithin(db, dir, o, k + 1)
  {
    hide Neighbors, EdgesFrom;
    if k > 0 {
      NeighborsUnion(db, dir, Within(db, dir, o, k - 1), frontier);
    } else {
      assert {} + frontier == frontier == {o};
    }
  }

  /** An empty frontier ends the search: all further levels are the same. */
  lemma {:induction false} SearchEnds(db: Db, dir: Direction, o: Id, k: nat, d: nat)
    requires IsFrontier(db, dir, o, k, {}) && k <= d
    ensures Within(db, dir, o, d) == Within(db, dir, o, k) && EdgesWithin(db, dir, o, d) == EdgesWithin(db, dir, o, k)
    ensures IsFrontier(db, dir, o, d, {})
    decreases d - k
  {
    hide Neighbors, EdgesFrom;
    NeighborsUnion(db, dir, {}, {});
    NoneFromNone(db, dir);
    if k < d {
      LevelDone(db, dir, o, k, {});
      SearchEnds(db, dir, o, k + 1, d);
    }
  }

  lemma NoneFromNone(db: Db, dir: Direction)
    ensures Neighbors(db, dir, {}) == {} && EdgesFrom(db, dir, {}) == {}
  {
  }

  lemma NeighborsUnion(db: Db, dir: Direction, a: set<Id>, b: set<Id>)
    ensures Neighbors(db, dir, a + b) == Neighbors(db, dir, a) + Neighbors(db, dir, b)
    ensures EdgesFrom(db, dir, a + b) == EdgesFrom(db, dir, a) + EdgesFrom(db, dir, b)
  {
    hide StepsTo, Expands;
  }

  lemma {:induction false} EndsSeenWithin(db: Db, dir: Direction, o: Id, k: nat)
    requires o in db.entities
    ensures EndsSeen(db, dir, Within(db, dir, o, k), EdgesWithin(db, dir, o, k))
  {
    WithinStored(db, dir, o, k);
    if k > 0 {
      var w, e := Within(db, dir, o, k), EdgesWithin(db, dir, o, k);
      forall r, x | r in e && x in w && Expands(db.relationships[r], dir, x)
        && Other(db.relationships[r], x) in db.entities
        ensures Other(db.relationships[r], x) in w
      {
        var row := db.relationships[r];
        var x0 :| x0 in Within(db, dir, o, k - 1) && Expands(row, dir, x0);
        if x0 == x || Other(row, x) != x0 {
          assert StepBy(db, dir, x, Other(row, x), r);
        }
      }
    }
  }
}
