/** Directed graphs as adjacency maps, and reachability over them. */
module Digraph {
  type Node = string
  type Adjacency = map<Node, seq<Node>>

  /** The out-neighbours of a node; a node that is no key has none. */
  function Succ(g: Adjacency, v: Node): seq<Node> {
    if v in g then g[v] else []
  }

  /** Every id that appears as a source or as a sink. */
  ghost function Nodes(g: Adjacency): set<Node> {
    g.Keys + set u, w | u in g && w in g[u] :: w
  }

  ghost predicate IsPath(g: Adjacency, p: seq<Node>) {
    |p| > 0 && forall i :: 0 <= i < |p| - 1 ==> p[i + 1] in Succ(g, p[i])
  }

  /** Every step of a path is an entry of the map. */
  lemma PathsAreEntries(g: Adjacency, p: seq<Node>)
    ensures IsPath(g, p) <==> |p| > 0 && forall i :: 0 <= i < |p| - 1 ==> p[i] in g && p[i + 1] in g[p[i]]
  {
    if IsPath(g, p) {
      forall i | 0 <= i < |p| - 1 ensures p[i] in g && p[i + 1] in g[p[i]] {
        assert p[i + 1] in Succ(g, p[i]);
      }
    }
    if |p| > 0 && forall i :: 0 <= i < |p| - 1 ==> p[i] in g && p[i + 1] in g[p[i]] {
      forall i | 0 <= i < |p| - 1 ensures p[i + 1] in Succ(g, p[i]) {
        assert p[i] in g && p[i + 1] in g[p[i]];
      }
    }
  }

  ghost predicate Reach(g: Adjacency, u: Node, v: Node) {
    exists p :: IsPath(g, p) && p[0] == u && p[|p| - 1] == v
  }

  /** u lies on a directed cycle: a path of at least one edge leads back to it. */
  ghost predicate OnCycle(g: Adjacency, u: Node) {
    exists p :: IsPath(g, p) && |p| >= 2 && p[0] == u && p[|p| - 1] == u
  }

  ghost predicate MutuallyReach(g: Adjacency, u: Node, v: Node) {
    Reach(g, u, v) && Reach(g, v, u)
  }

  lemma ReachSelf(g: Adjacency, u: Node)
    ensures Reach(g, u, u)
  {
    assert IsPath(g, [u]);
  }

  lemma ReachEdge(g: Adjacency, u: Node, v: Node)
    requires v in Succ(g, u)
    ensures Reach(g, u, v)
  {
    var p := [u, v];
    assert IsPath(g, p) && p[0] == u && p[|p| - 1] == v;
  }

  lemma PathConcat(g: Adjacency, p: seq<Node>, q: seq<Node>)
    requires IsPath(g, p) && IsPath(g, q) && p[|p| - 1] == q[0]
    ensures IsPath(g, p + q[1..])
  {
    var r := p + q[1..];
    forall i | 0 <= i < |r| - 1 ensures r[i + 1] in Succ(g, r[i]) {
      if i >= |p| - 1 {
        assert r[i + 1] == q[i + 1 - (|p| - 1)];
        assert r[i] == q[i - (|p| - 1)];
      }
    }
  }

  lemma ReachTrans(g: Adjacency, u: Node, v: Node, w: Node)
    requires Reach(g, u, v) && Reach(g, v, w)
    ensures Reach(g, u, w)
  {
    var p :| IsPath(g, p) && p[0] == u && p[|p| - 1] == v;
    var q :| IsPath(g, q) && q[0] == v && q[|q| - 1] == w;
    PathConcat(g, p, q);
    var r := p + q[1..];
    assert r[0] == u && r[|r| - 1] == w;
  }

  /** A set closed under edges contains everything its members reach. */
  lemma {:induction false} ClosedAlongPath(g: Adjacency, s: set<Node>, p: seq<Node>)
    requires forall x, y :: x in s && y in Succ(g, x) ==> y in s
    requires IsPath(g, p) && p[0] in s
    ensures p[|p| - 1] in s
    decreases |p|
  {
    if |p| > 1 {
      assert p[1] in Succ(g, p[0]);
      ClosedAlongPath(g, s, p[1..]);
    }
  }

  lemma ClosedUnderReach(g: Adjacency, s: set<Node>, u: Node, w: Node)
    requires forall x, y :: x in s && y in Succ(g, x) ==> y in s
    requires u in s && Reach(g, u, w)
    ensures w in s
  {
    var p :| IsPath(g, p) && p[0] == u && p[|p| - 1] == w;
    ClosedAlongPath(g, s, p);
  }

  lemma SuccAreNodes(g: Adjacency, u: Node, w: Node)
    requires w in Succ(g, u)
    ensures u in Nodes(g) && w in Nodes(g)
  {
  }

  /** A cycle through u is either a self-loop or goes through another node of u's component. */
  lemma OnCycleCharacterised(g: Adjacency, u: Node)
    ensures OnCycle(g, u) <==> u in Succ(g, u) || exists v :: v != u && MutuallyReach(g, u, v)
  {
    if OnCycle(g, u) {
      var p :| IsPath(g, p) && |p| >= 2 && p[0] == u && p[|p| - 1] == u;
      var v := p[1];
      if v != u {
        ReachEdge(g, u, v);
        assert IsPath(g, p[1..]) && p[1..][0] == v && p[1..][|p[1..]| - 1] == u;
        assert MutuallyReach(g, u, v);
      }
    }
    if u in Succ(g, u) {
      var p := [u, u];
      assert IsPath(g, p) && p[0] == u && p[|p| - 1] == u;
    } else if exists v :: v != u && MutuallyReach(g, u, v) {
      var v :| v != u && MutuallyReach(g, u, v);
      var p :| IsPath(g, p) && p[0] == u && p[|p| - 1] == v;
      var q :| IsPath(g, q) && q[0] == v && q[|q| - 1] == u;
      PathConcat(g, p, q);
      var r := p + q[1..];
      assert IsPath(g, r) && |r| >= 2 && r[0] == u && r[|r| - 1] == u;
    }
  }
}
