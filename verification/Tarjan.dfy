/** Strongly connected components of a namespace's edge set, by Tarjan's algorithm. */
module Tarjan {
  import opened Digraph

  const UNSET: int := -1

  datatype Meta = Meta(index: int, lowlink: int, onStack: bool)

  /** A snapshot of the variables the recursive closure shares, with the ghost set of nodes still open. */
  datatype Env = Env(
    index: nat,
    stack: seq<Node>,
    sccs: seq<seq<Node>>,
    meta: map<Node, Meta>,
    gray: set<Node>)

  // ---------------------------------------------------------------- what a result must be

  /** i is the position of the one component that holds v. */
  ghost predicate InComponent(sccs: seq<seq<Node>>, i: int, v: Node) {
    0 <= i < |sccs| && v in sccs[i]
  }

  ghost predicate Emitted(sccs: seq<seq<Node>>, v: Node) {
    exists i :: InComponent(sccs, i, v)
  }

  /** v is in component i or an earlier one. */
  ghost predicate EmittedBy(sccs: seq<seq<Node>>, i: int, v: Node) {
    exists j :: j <= i && InComponent(sccs, j, v)
  }

  ghost predicate NoRepeats(s: seq<Node>) {
    forall i, j :: 0 <= i < j < |s| ==> s[i] != s[j]
  }

  /** Each component is a full class of mutual reachability, without repetitions. */
  ghost predicate AreClasses(g: Adjacency, sccs: seq<seq<Node>>) {
    && (forall i :: 0 <= i < |sccs| ==> sccs[i] != [] && NoRepeats(sccs[i]))
    && (forall i, u, w :: InComponent(sccs, i, u) ==> (w in sccs[i] <==> MutuallyReach(g, u, w)))
  }

  /** No node is in two components. */
  ghost predicate Disjoint(sccs: seq<seq<Node>>) {
    forall i, j, v :: InComponent(sccs, i, v) && InComponent(sccs, j, v) ==> i == j
  }

  /** Whatever a component reaches is in it or was emitted earlier. */
  ghost predicate ReachedFirst(g: Adjacency, sccs: seq<seq<Node>>) {
    forall i, u, w {:trigger InComponent(sccs, i, u), EmittedBy(sccs, i, w)} ::
      InComponent(sccs, i, u) && Reach(g, u, w) ==> EmittedBy(sccs, i, w)
  }

  /** The full specification: an ordered partition of the nodes into strongly connected components. */
  ghost predicate IsSccOrder(g: Adjacency, sccs: seq<seq<Node>>) {
    && (forall v :: v in Nodes(g) <==> Emitted(sccs, v))
    && AreClasses(g, sccs)
    && Disjoint(sccs)
    && ReachedFirst(g, sccs)
  }

  // ---------------------------------------------------------------- invariant

  ghost predicate Visited(e: Env, v: Node) {
    v in e.meta && e.meta[v].index != UNSET
  }

  ghost function Num(e: Env, v: Node): int {
    if v in e.meta then e.meta[v].index else UNSET
  }

  /** Bookkeeping: indices, the stack order and the onStack flags agree. */
  ghost predicate Shape(g: Adjacency, e: Env) {
    && e.meta.Keys == Nodes(g)
    && (forall v :: v in e.meta ==> e.meta[v].index == UNSET || 0 <= e.meta[v].index < e.index)
    && (forall v :: v in e.meta ==> (e.meta[v].onStack <==> v in e.stack))
    && (forall v :: v in e.stack ==> Visited(e, v))
    && (forall i, j :: 0 <= i < j < |e.stack| ==> Num(e, e.stack[i]) < Num(e, e.stack[j]))
    && (forall v :: v in e.gray ==> v in e.stack)
    && (forall v :: Emitted(e.sccs, v) <==> Visited(e, v) && v !in e.stack)
  }

  /** A finished node has no edge to an unvisited one. */
  ghost predicate NoBlackToWhite(g: Adjacency, e: Env) {
    forall v, w :: Visited(e, v) && v !in e.gray && w in Succ(g, v) ==> Visited(e, w)
  }

  /** y reaches an open node that was numbered no later than y. */
  ghost predicate Anchored(g: Adjacency, e: Env, y: Node) {
    exists x :: x in e.gray && Num(e, x) <= Num(e, y) && Reach(g, y, x)
  }

  lemma AnchorOf(g: Adjacency, e: Env, y: Node) returns (x: Node)
    requires Anchored(g, e, y)
    ensures x in e.gray && Num(e, x) <= Num(e, y) && Reach(g, y, x)
  {
    hide Reach;
    x :| x in e.gray && Num(e, x) <= Num(e, y) && Reach(g, y, x);
  }

  lemma AnchorAt(g: Adjacency, e: Env, y: Node, x: Node)
    requires x in e.gray && Num(e, x) <= Num(e, y) && Reach(g, y, x)
    ensures Anchored(g, e, y)
  {
    hide Reach;
  }

  /** Open nodes reach everything above them; everything on the stack reaches an open node below it. */
  ghost predicate StackReach(g: Adjacency, e: Env) {
    && (forall x, y :: x in e.gray && y in e.stack && Num(e, x) <= Num(e, y) ==> Reach(g, x, y))
    && (forall y {:trigger Anchored(g, e, y)} :: y in e.stack ==> Anchored(g, e, y))
  }

  ghost predicate SccsOk(g: Adjacency, e: Env) {
    AreClasses(g, e.sccs) && Disjoint(e.sccs) && ReachedFirst(g, e.sccs)
  }

  ghost predicate Inv(g: Adjacency, e: Env) {
    Shape(g, e) && NoBlackToWhite(g, e) && StackReach(g, e) && SccsOk(g, e)
  }

  /** What one call leaves alone: earlier indices and lowlinks, the stack below, the components so far. */
  ghost predicate Extends(e0: Env, e1: Env) {
    && e0.gray == e1.gray && e0.index <= e1.index
    && e0.stack <= e1.stack
    && (forall v :: Visited(e0, v) ==>
          Visited(e1, v) && e1.meta[v].index == e0.meta[v].index && e1.meta[v].lowlink == e0.meta[v].lowlink)
  }

  /** n is the index of a stack node that v reaches. */
  ghost predicate WitnessedLow(g: Adjacency, e: Env, v: Node, n: int) {
    exists y :: y in e.stack && Num(e, y) == n && Reach(g, v, y)
  }

  /** n bounds the index of every node at stack depth below `base` that a node above it has an edge to. */
  ghost predicate BoundsEdgesDown(g: Adjacency, e: Env, base: nat, n: int) {
    forall i, j :: 0 <= j < base <= i < |e.stack| && e.stack[j] in Succ(g, e.stack[i]) ==> n <= Num(e, e.stack[j])
  }

  /** The state when v is entered: pushed, numbered, open. */
  ghost function Entered(e: Env, v: Node): Env {
    Env(e.index + 1, e.stack + [v], e.sccs, e.meta[v := Meta(e.index, e.index, true)], e.gray + {v})
  }

  ghost predicate CanEnter(g: Adjacency, e: Env, v: Node) {
    && Inv(g, e) && v in Nodes(g) && !Visited(e, v)
    && forall x :: x in e.gray ==> Reach(g, x, v)
  }

  lemma EnterKeepsInv(g: Adjacency, e: Env, v: Node)
    requires CanEnter(g, e, v)
    ensures Inv(g, Entered(e, v))
    ensures WitnessedLow(g, Entered(e, v), v, e.index)
  {
    hide Reach, Anchored, SccsOk, Emitted, Nodes;
    var e' := Entered(e, v);
    ReachSelf(g, v);
    assert v !in e.stack;
    assert SccsOk(g, e) && SccsOk(g, e') by {
      EnterKeepsSccs(g, e, v);
    }
    assert Shape(g, e') by {
      forall i, j | 0 <= i < j < |e'.stack| ensures Num(e', e'.stack[i]) < Num(e', e'.stack[j]) {
        assert e'.stack[i] == e.stack[i];
        assert e.stack[i] in e.stack;
      }
    }
    assert StackReach(g, e') by {
      forall y | y in e'.stack ensures Anchored(g, e', y) {
        if y == v {
          AnchorAt(g, e', v, v);
        } else {
          assert y in e.stack;
          var x := AnchorOf(g, e, y);
          assert x in e'.gray && Num(e', x) == Num(e, x);
          AnchorAt(g, e', y, x);
        }
      }
    }
    assert v in e'.stack;
  }

  lemma EnterKeepsSccs(g: Adjacency, e: Env, v: Node)
    requires SccsOk(g, e)
    ensures SccsOk(g, Entered(e, v))
  {
    hide Reach;
  }

  /** v's edges are all done and its lowlink equals its own index. */
  ghost predicate ReadyToEmit(g: Adjacency, e0: Env, e: Env, v: Node) {
    && CanEnter(g, e0, v)
    && Inv(g, e)
    && e.gray == e0.gray + {v}
    && e0.stack + [v] <= e.stack
    && (forall u :: Visited(e0, u) ==> Visited(e, u) && Num(e, u) == Num(e0, u))
    && (forall w :: w in Succ(g, v) ==> Visited(e, w))
    && BoundsEdgesDown(g, e, |e0.stack|, Num(e, v))
  }

  /** The stack slots from v's upward. */
  ghost function Top(e0: Env, e: Env): seq<Node> {
    if |e0.stack| <= |e.stack| then e.stack[|e0.stack|..] else []
  }

  lemma SlotsAboveAreNumberedAbove(g: Adjacency, e0: Env, e: Env, v: Node, y: Node)
    requires Shape(g, e) && e0.stack + [v] <= e.stack && y in Top(e0, e)
    ensures Num(e, v) <= Num(e, y) && v in e.stack && y in e.stack
    ensures y !in e0.stack
  {
    hide Emitted, Nodes, Visited;
    var i :| |e0.stack| <= i < |e.stack| && e.stack[i] == y;
    assert e.stack[|e0.stack|] == v;
    assert forall k :: 0 <= k < |e0.stack| ==> e.stack[k] == e0.stack[k];
  }

  /** Everything above v's slot, v included, is mutually reachable with v. */
  lemma TopIsMutual(g: Adjacency, e0: Env, e: Env, v: Node, y: Node)
    requires ReadyToEmit(g, e0, e, v) && y in Top(e0, e)
    ensures MutuallyReach(g, v, y)
  {
    hide Reach, Anchored, SccsOk, Shape, NoBlackToWhite, BoundsEdgesDown;
    SlotsAboveAreNumberedAbove(g, e0, e, v, y);
    assert v in e.gray;
    var x := AnchorOf(g, e, y);
    if x != v {
      assert x in e0.gray;
      ReachTrans(g, y, x, v);
    }
  }

  lemma TopEdge(g: Adjacency, e0: Env, e: Env, v: Node, x: Node, y: Node)
    requires ReadyToEmit(g, e0, e, v)
    requires x in Top(e0, e) && y in Succ(g, x)
    ensures y in Top(e0, e) || Emitted(e.sccs, y)
    ensures y in e.meta
  {
    hide Reach, Anchored, SccsOk, Emitted, StackReach, Nodes;
    SuccAreNodes(g, x, y);
    SlotsAboveAreNumberedAbove(g, e0, e, v, x);
    assert x !in e0.gray;
    assert Visited(e, y);
    if y in e.stack {
      var i :| |e0.stack| <= i < |e.stack| && e.stack[i] == x;
      var j :| 0 <= j < |e.stack| && e.stack[j] == y;
      assert e.stack[|e0.stack|] == v;
      assert j >= |e0.stack|;
      assert e.stack[j] == Top(e0, e)[j - |e0.stack|];
    }
  }

  lemma EmittedIsClosed(g: Adjacency, e: Env, x: Node, y: Node)
    requires Shape(g, e) && SccsOk(g, e) && Emitted(e.sccs, x) && y in Succ(g, x)
    ensures Emitted(e.sccs, y) && y in e.meta
  {
    hide Reach, Nodes, AreClasses, Disjoint;
    ReachEdge(g, x, y);
    var i :| InComponent(e.sccs, i, x);
    assert EmittedBy(e.sccs, i, y);
  }

  /** Together with what was emitted before, the part above v's slot is closed under edges. */
  lemma TopReachesOnlyTopOrEmitted(g: Adjacency, e0: Env, e: Env, v: Node, u: Node, w: Node)
    requires ReadyToEmit(g, e0, e, v)
    requires u in Top(e0, e) && Reach(g, u, w)
    ensures w in Top(e0, e) || Emitted(e.sccs, w)
  {
    hide Reach, Emitted, ReadyToEmit, Anchored, SccsOk, StackReach, NoBlackToWhite, BoundsEdgesDown, Nodes;
    assert Inv(g, e) && e0.stack + [v] <= e.stack by { ReadyParts(g, e0, e, v); }
    var s := set x | x in e.meta && (x in Top(e0, e) || Emitted(e.sccs, x));
    forall x, y | x in s && y in Succ(g, x) ensures y in s {
      if x in Top(e0, e) {
        TopEdge(g, e0, e, v, x, y);
      } else {
        EmittedIsClosed(g, e, x, y);
      }
    }
    SlotsAboveAreNumberedAbove(g, e0, e, v, u);
    assert u in e.meta;
    ClosedUnderReach(g, s, u, w);
  }

  lemma ReadyParts(g: Adjacency, e0: Env, e: Env, v: Node)
    requires ReadyToEmit(g, e0, e, v)
    ensures Inv(g, e) && e0.stack + [v] <= e.stack
  {
    hide Inv, CanEnter;
  }

  lemma TopNotEmitted(g: Adjacency, e0: Env, e: Env, v: Node, u: Node)
    requires ReadyToEmit(g, e0, e, v) && u in Top(e0, e)
    ensures !Emitted(e.sccs, u)
  {
    hide Reach, Emitted, Anchored, SccsOk, StackReach, NoBlackToWhite, BoundsEdgesDown, Nodes;
    SlotsAboveAreNumberedAbove(g, e0, e, v, u);
  }

  lemma ComponentIsClass(g: Adjacency, e0: Env, e: Env, v: Node, u: Node, w: Node)
    requires ReadyToEmit(g, e0, e, v) && u in Top(e0, e)
    ensures w in Top(e0, e) <==> MutuallyReach(g, u, w)
  {
    hide Reach, ReadyToEmit, Disjoint, ReachedFirst, Shape, NoBlackToWhite, StackReach, Top;
    TopIsMutual(g, e0, e, v, u);
    if w in Top(e0, e) {
      TopIsMutual(g, e0, e, v, w);
      ReachTrans(g, u, v, w);
      ReachTrans(g, w, v, u);
    } else if MutuallyReach(g, u, w) {
      TopReachesOnlyTopOrEmitted(g, e0, e, v, u, w);
      ReadyParts(g, e0, e, v);
      var i :| InComponent(e.sccs, i, w);
      assert MutuallyReach(g, w, u);
      assert u in e.sccs[i];
      assert InComponent(e.sccs, i, u);
      TopNotEmitted(g, e0, e, v, u);
      assert false;
    }
  }

  /** What the pop loop leaves behind. */
  ghost predicate Popped(e0: Env, e: Env, component: seq<Node>, meta: map<Node, Meta>) {
    && (forall u :: u in component <==> u in Top(e0, e))
    && component != [] && NoRepeats(component)
    && meta.Keys == e.meta.Keys
    && (forall u :: u in meta ==>
          meta[u].index == e.meta[u].index && meta[u].lowlink == e.meta[u].lowlink &&
          meta[u].onStack == (u !in component && e.meta[u].onStack))
  }

  /** The state after the pop loop: v and all above it leave the stack as one component. */
  ghost function EmitEnv(e0: Env, e: Env, component: seq<Node>, meta: map<Node, Meta>): Env {
    Env(e.index, e0.stack, e.sccs + [component], meta, e0.gray)
  }

  lemma EmittedSnoc(sccs: seq<seq<Node>>, component: seq<Node>)
    ensures forall u :: Emitted(sccs + [component], u) <==> Emitted(sccs, u) || u in component
    ensures forall i, u :: InComponent(sccs + [component], i, u) <==>
              InComponent(sccs, i, u) || (i == |sccs| && u in component)
  {
    var all := sccs + [component];
    assert all[|sccs|] == component;
    forall u ensures Emitted(all, u) <==> Emitted(sccs, u) || u in component {
      if u in component {
        assert InComponent(all, |sccs|, u);
      }
      if Emitted(sccs, u) {
        var i :| InComponent(sccs, i, u);
        assert InComponent(all, i, u);
      }
      if Emitted(all, u) {
        var i :| InComponent(all, i, u);
        assert i < |sccs| ==> InComponent(sccs, i, u);
      }
    }
  }

  lemma EmitKeepsClasses(g: Adjacency, e0: Env, e: Env, v: Node, component: seq<Node>, meta: map<Node, Meta>)
    requires ReadyToEmit(g, e0, e, v) && Popped(e0, e, component, meta)
    ensures AreClasses(g, e.sccs + [component])
  {
    hide MutuallyReach, ReadyToEmit, Disjoint, ReachedFirst, Shape, NoBlackToWhite, StackReach, Top, Emitted;
    ReadyParts(g, e0, e, v);
    var sccs := e.sccs + [component];
    EmittedSnoc(e.sccs, component);
    assert forall i :: 0 <= i < |e.sccs| ==> sccs[i] == e.sccs[i];
    forall i, u, w | InComponent(sccs, i, u) ensures w in sccs[i] <==> MutuallyReach(g, u, w) {
      if i == |e.sccs| {
        ComponentIsClass(g, e0, e, v, u, w);
      } else {
        assert InComponent(e.sccs, i, u);
      }
    }
  }

  lemma EmitKeepsOrder(g: Adjacency, e0: Env, e: Env, v: Node, component: seq<Node>, meta: map<Node, Meta>)
    requires ReadyToEmit(g, e0, e, v) && Popped(e0, e, component, meta)
    ensures Disjoint(e.sccs + [component]) && ReachedFirst(g, e.sccs + [component])
  {
    hide Reach, ReadyToEmit, AreClasses, Shape, NoBlackToWhite, StackReach, Top;
    ReadyParts(g, e0, e, v);
    var sccs := e.sccs + [component];
    var last := |e.sccs|;
    EmittedSnoc(e.sccs, component);
    forall i, j, u | InComponent(sccs, i, u) && InComponent(sccs, j, u) ensures i == j {
      if (i == last) != (j == last) {
        assert Emitted(e.sccs, u) by { assert InComponent(e.sccs, if i == last then j else i, u); }
        TopNotEmitted(g, e0, e, v, u);
        assert false;
      }
    }
    forall i, u, w | InComponent(sccs, i, u) && Reach(g, u, w) ensures EmittedBy(sccs, i, w) {
      if i == last {
        TopReachesOnlyTopOrEmitted(g, e0, e, v, u, w);
        var j :| InComponent(sccs, j, w);
      } else {
        assert EmittedBy(e.sccs, i, w);
        var j :| j <= i && InComponent(e.sccs, j, w);
        assert InComponent(sccs, j, w);
      }
    }
  }

  lemma StackSplits(g: Adjacency, e0: Env, e: Env, v: Node, component: seq<Node>)
    requires Shape(g, e) && e0.stack + [v] <= e.stack && forall u :: u in component <==> u in Top(e0, e)
    ensures forall u :: u in e.stack <==> u in e0.stack || u in component
    ensures forall u :: u in component ==> u !in e0.stack
    ensures forall i, j :: 0 <= i < j < |e0.stack| ==> Num(e, e0.stack[i]) < Num(e, e0.stack[j])
  {
    hide Shape, Emitted, Num;
    assert e.stack == e0.stack + Top(e0, e);
    forall u | u in component ensures u !in e0.stack {
      SlotsAboveAreNumberedAbove(g, e0, e, v, u);
    }
    forall i, j | 0 <= i < j < |e0.stack| ensures Num(e, e0.stack[i]) < Num(e, e0.stack[j]) {
      StackSorted(g, e, i, j);
    }
  }

  lemma StackSorted(g: Adjacency, e: Env, i: nat, j: nat)
    requires Shape(g, e) && i < j < |e.stack|
    ensures Num(e, e.stack[i]) < Num(e, e.stack[j])
  {
    hide Emitted, Nodes, Visited, Num;
  }

  lemma EmitKeepsShape(g: Adjacency, e0: Env, e: Env, v: Node, component: seq<Node>, meta: map<Node, Meta>)
    requires ReadyToEmit(g, e0, e, v) && Popped(e0, e, component, meta)
    ensures Shape(g, EmitEnv(e0, e, component, meta))
  {
    hide Reach, Emitted, SccsOk, NoBlackToWhite, StackReach, Nodes, BoundsEdgesDown, NoRepeats, Top, InComponent;
    var e' := EmitEnv(e0, e, component, meta);
    EmittedSnoc(e.sccs, component);
    StackSplits(g, e0, e, v, component);
    assert forall u :: Num(e', u) == Num(e, u) && (Visited(e', u) <==> Visited(e, u));
    assert Shape(g, e0) && Shape(g, e);
  }

  lemma EmitKeepsReach(g: Adjacency, e0: Env, e: Env, v: Node, component: seq<Node>, meta: map<Node, Meta>)
    requires ReadyToEmit(g, e0, e, v) && Popped(e0, e, component, meta)
    ensures StackReach(g, EmitEnv(e0, e, component, meta)) && NoBlackToWhite(g, EmitEnv(e0, e, component, meta))
  {
    hide Reach, Emitted, SccsOk, Nodes, BoundsEdgesDown, NoRepeats, Anchored;
    var e' := EmitEnv(e0, e, component, meta);
    assert forall u :: Num(e', u) == Num(e, u) && (Visited(e', u) <==> Visited(e, u));
    forall y | y in e'.stack ensures Anchored(g, e', y) {
      var x := AnchorOf(g, e0, y);
      assert Visited(e0, x) && Visited(e0, y);
      AnchorAt(g, e', y, x);
    }
    forall x, y | x in e'.gray && y in e'.stack && Num(e', x) <= Num(e', y) ensures Reach(g, x, y) {
      assert Visited(e0, x) && Visited(e0, y);
    }
  }

  lemma EmitKeepsInv(g: Adjacency, e0: Env, e: Env, v: Node, component: seq<Node>, meta: map<Node, Meta>)
    requires ReadyToEmit(g, e0, e, v) && Popped(e0, e, component, meta)
    ensures Inv(g, EmitEnv(e0, e, component, meta))
  {
    hide ReadyToEmit, Popped, AreClasses, Disjoint, ReachedFirst, Shape, NoBlackToWhite, StackReach;
    EmitKeepsClasses(g, e0, e, v, component, meta);
    EmitKeepsOrder(g, e0, e, v, component, meta);
    EmitKeepsShape(g, e0, e, v, component, meta);
    EmitKeepsReach(g, e0, e, v, component, meta);
  }

  /** v's lowlink is below its index: v closes but stays on the stack. */
  lemma KeepKeepsInv(g: Adjacency, e0: Env, e: Env, v: Node, low: int)
    requires CanEnter(g, e0, v) && Inv(g, e)
    requires e.gray == e0.gray + {v} && e0.stack + [v] <= e.stack
    requires forall w :: w in Succ(g, v) ==> Visited(e, w)
    requires low < Num(e, v) && WitnessedLow(g, e, v, low)
    ensures Inv(g, e.(gray := e0.gray))
  {
    hide Reach, Emitted, Anchored, AreClasses, Disjoint, ReachedFirst, Nodes;
    var e' := e.(gray := e0.gray);
    var y0 :| y0 in e.stack && Num(e, y0) == low && Reach(g, v, y0);
    var x0 := AnchorOf(g, e, y0);
    assert x0 != v && x0 in e0.gray;
    ReachTrans(g, v, y0, x0);
    assert v !in e0.gray;
    assert forall u :: Visited(e', u) <==> Visited(e, u);
    assert forall u :: Num(e', u) == Num(e, u);
    assert StackReach(g, e') by {
      forall y | y in e'.stack ensures Anchored(g, e', y) {
        var x := AnchorOf(g, e, y);
        if x == v {
          ReachTrans(g, y, v, x0);
          AnchorAt(g, e', y, x0);
        } else {
          AnchorAt(g, e', y, x);
        }
      }
    }
  }

  /** Two snapshots that differ at most in lowlinks satisfy the same invariant. */
  lemma LowlinksAreFree(g: Adjacency, e: Env, m: map<Node, Meta>)
    requires Inv(g, e) && m.Keys == e.meta.Keys
    requires forall u :: u in m ==> m[u].index == e.meta[u].index && m[u].onStack == e.meta[u].onStack
    ensures Inv(g, e.(meta := m))
    ensures forall u :: Num(e.(meta := m), u) == Num(e, u) && (Visited(e.(meta := m), u) <==> Visited(e, u))
    ensures forall u, n :: WitnessedLow(g, e, u, n) ==> WitnessedLow(g, e.(meta := m), u, n)
    ensures forall b: nat, n :: BoundsEdgesDown(g, e, b, n) ==> BoundsEdgesDown(g, e.(meta := m), b, n)
  {
    hide Reach, AreClasses, Disjoint, ReachedFirst, Emitted, Nodes, Anchored, WitnessedLow;
    var e' := e.(meta := m);
    assert forall u :: Num(e', u) == Num(e, u) && (Visited(e', u) <==> Visited(e, u));
    forall u, n | WitnessedLow(g, e, u, n) ensures WitnessedLow(g, e', u, n) {
      WitnessedLowSame(g, e, e', u, n);
    }
    forall y | y in e'.stack ensures Anchored(g, e', y) {
      var x := AnchorOf(g, e, y);
      AnchorAt(g, e', y, x);
    }
  }

  lemma WitnessedLowSame(g: Adjacency, e: Env, e': Env, u: Node, n: int)
    requires WitnessedLow(g, e, u, n)
    requires forall y :: y in e.stack ==> y in e'.stack && Num(e', y) == Num(e, y)
    ensures WitnessedLow(g, e', u, n)
  {
    hide Reach;
  }

  lemma WitnessThroughEdge(g: Adjacency, e: Env, v: Node, w: Node, n: int)
    requires w in Succ(g, v) && WitnessedLow(g, e, w, n)
    ensures WitnessedLow(g, e, v, n)
  {
    hide Reach;
    var y :| y in e.stack && Num(e, y) == n && Reach(g, w, y);
    ReachEdge(g, v, w);
    ReachTrans(g, v, w, y);
  }

  ghost function Unvisited(e: Env): set<Node> {
    set u | u in e.meta && e.meta[u].index == UNSET
  }

  /** What a completed call on v guarantees, from the state e0 at entry to the state e at exit. */
  ghost predicate Connected(g: Adjacency, e0: Env, e: Env, v: Node) {
    && Inv(g, e) && Extends(e0, e) && Visited(e, v)
    && e.meta[v].index == e0.index && e.meta[v].lowlink <= e0.index
    && (v in e.stack ==> WitnessedLow(g, e, v, e.meta[v].lowlink))
    && (v !in e.stack ==> e.meta[v].lowlink == e0.index)
    && BoundsEdgesDown(g, e, |e0.stack|, e.meta[v].lowlink)
  }

  /** The loop over v's edges, with the first k of them done. */
  ghost predicate Scanning(g: Adjacency, e0: Env, e: Env, v: Node, k: nat) {
    && CanEnter(g, e0, v) && Inv(g, e) && e0.index <= e.index
    && e.gray == e0.gray + {v} && e0.stack + [v] <= e.stack
    && Visited(e, v) && e.meta[v].index == e0.index && e.meta[v].lowlink <= e0.index
    && WitnessedLow(g, e, v, e.meta[v].lowlink)
    && BoundsEdgesDown(g, e, |e0.stack| + 1, e.meta[v].lowlink)
    && (forall u :: Visited(e0, u) ==>
          Visited(e, u) && e.meta[u].index == e0.meta[u].index && e.meta[u].lowlink == e0.meta[u].lowlink)
    && k <= |Succ(g, v)|
    && (forall j :: 0 <= j < k ==>
          Visited(e, Succ(g, v)[j]) && (Succ(g, v)[j] in e.stack ==> e.meta[v].lowlink <= Num(e, Succ(g, v)[j])))
  }

  lemma ScanStart(g: Adjacency, e0: Env, v: Node)
    requires CanEnter(g, e0, v)
    ensures Scanning(g, e0, Entered(e0, v), v, 0) && v in e0.meta
  {
    hide Inv, Reach, WitnessedLow, Anchored;
    EnterKeepsInv(g, e0, v);
    assert v in e0.meta by { ShapeOf(g, e0); }
  }

  lemma ShapeOf(g: Adjacency, e: Env)
    requires Inv(g, e)
    ensures e.meta.Keys == Nodes(g) && forall v :: v in e.stack ==> Visited(e, v) && 0 <= Num(e, v) < e.index
    ensures forall v :: v in e.meta ==> (e.meta[v].onStack <==> v in e.stack)
    ensures forall i, j :: 0 <= i < j < |e.stack| ==> Num(e, e.stack[i]) < Num(e, e.stack[j])
  {
    hide Nodes, NoBlackToWhite, StackReach, SccsOk, Emitted;
  }

  lemma ScanFacts(g: Adjacency, e0: Env, e: Env, v: Node, k: nat)
    requires Scanning(g, e0, e, v, k) && k < |Succ(g, v)|
    ensures v in e.meta && Succ(g, v)[k] in e.meta
    ensures e.meta[Succ(g, v)[k]].index != UNSET <==> Visited(e, Succ(g, v)[k])
  {
    hide Inv, CanEnter, WitnessedLow, BoundsEdgesDown, Nodes;
    SuccAreNodes(g, v, Succ(g, v)[k]);
    ShapeOf(g, e);
  }

  lemma ScanCallee(g: Adjacency, e0: Env, e: Env, v: Node, k: nat)
    requires Scanning(g, e0, e, v, k) && k < |Succ(g, v)| && !Visited(e, Succ(g, v)[k])
    ensures CanEnter(g, e, Succ(g, v)[k])
    ensures Unvisited(e) < Unvisited(e0)
  {
    hide Inv, WitnessedLow, BoundsEdgesDown, Nodes, Reach;
    var w := Succ(g, v)[k];
    ShapeOf(g, e);
    ShapeOf(g, e0);
    SuccAreNodes(g, v, w);
    ReachEdge(g, v, w);
    forall x | x in e.gray ensures Reach(g, x, w) {
      if x != v {
        ReachTrans(g, x, v, w);
      }
    }
    assert v in Unvisited(e0) && v !in Unvisited(e);
  }

  ghost function WithLow(e: Env, v: Node, low: int): Env
    requires v in e.meta
  {
    e.(meta := e.meta[v := e.meta[v].(lowlink := if low < e.meta[v].lowlink then low else e.meta[v].lowlink)])
  }

  lemma WithLowSame(e: Env, v: Node, low: int)
    requires v in e.meta
    ensures low >= e.meta[v].lowlink ==> WithLow(e, v, low) == e
  {
    assert e.meta[v := e.meta[v].(lowlink := e.meta[v].lowlink)] == e.meta;
  }

  /** Lowering v's lowlink to `low` and counting edge k as done keeps the loop going. */
  lemma ScanLower(g: Adjacency, e0: Env, e: Env, v: Node, k: nat, low: int)
    requires Scanning(g, e0, e, v, k) && k < |Succ(g, v)|
    requires low < e.meta[v].lowlink ==> WitnessedLow(g, e, v, low)
    requires Visited(e, Succ(g, v)[k])
    requires Succ(g, v)[k] in e.stack ==> low <= Num(e, Succ(g, v)[k]) || e.meta[v].lowlink <= Num(e, Succ(g, v)[k])
    ensures Scanning(g, e0, WithLow(e, v, low), v, k + 1)
  {
    hide Inv, CanEnter, WitnessedLow;
    var e' := WithLow(e, v, low);
    assert !Visited(e0, v) by { CanEnterUnvisited(g, e0, v); }
    LowlinksAreFree(g, e, e'.meta);
    assert BoundsEdgesDown(g, e, |e0.stack| + 1, e'.meta[v].lowlink);
    assert WitnessedLow(g, e, v, e'.meta[v].lowlink);
  }

  lemma CanEnterUnvisited(g: Adjacency, e0: Env, v: Node)
    requires CanEnter(g, e0, v)
    ensures !Visited(e0, v)
  {
    hide Inv, Reach, Nodes;
  }

  lemma ScanVisited(g: Adjacency, e0: Env, e: Env, v: Node, k: nat)
    requires Scanning(g, e0, e, v, k) && k < |Succ(g, v)| && Visited(e, Succ(g, v)[k])
    ensures var w := Succ(g, v)[k];
            w in e.meta && Scanning(g, e0, if e.meta[w].onStack then WithLow(e, v, e.meta[w].index) else e, v, k + 1)
  {
    hide Inv, CanEnter, WitnessedLow, BoundsEdgesDown, Reach;
    var w := Succ(g, v)[k];
    ShapeOf(g, e);
    if e.meta[w].onStack {
      EdgeWitness(g, e, v, w);
      ScanLower(g, e0, e, v, k, e.meta[w].index);
    }
  }

  lemma EdgeWitness(g: Adjacency, e: Env, v: Node, w: Node)
    requires w in Succ(g, v) && w in e.stack
    ensures WitnessedLow(g, e, v, Num(e, w))
  {
    hide Reach;
    ReachEdge(g, v, w);
  }

  ghost function Min(a: int, b: int): int { if a < b then a else b }

  lemma BoundsAfterCallee(g: Adjacency, e0: Env, e1: Env, e2: Env, v: Node, k: nat)
    requires Scanning(g, e0, e1, v, k) && k < |Succ(g, v)| && Connected(g, e1, e2, Succ(g, v)[k])
    requires v in e2.meta && Succ(g, v)[k] in e2.meta
    ensures BoundsEdgesDown(g, e2, |e0.stack| + 1, Min(e2.meta[Succ(g, v)[k]].lowlink, e2.meta[v].lowlink))
  {
    hide Inv, CanEnter, WitnessedLow;
    var base := |e0.stack| + 1;
    var n := Min(e2.meta[Succ(g, v)[k]].lowlink, e2.meta[v].lowlink);
    assert Extends(e1, e2);
    assert forall u :: u in e1.stack ==> Visited(e1, u) by { ShapeOf(g, e1); }
    forall i, j | 0 <= j < base <= i < |e2.stack| && e2.stack[j] in Succ(g, e2.stack[i])
      ensures n <= Num(e2, e2.stack[j])
    {
      assert e2.stack[j] == e1.stack[j] && e1.stack[j] in e1.stack;
      if i < |e1.stack| {
        assert e2.stack[i] == e1.stack[i];
        assert e1.meta[v].lowlink <= Num(e1, e1.stack[j]);
      }
    }
  }

  lemma WitnessAfterCallee(g: Adjacency, e0: Env, e1: Env, e2: Env, v: Node, k: nat)
    requires Scanning(g, e0, e1, v, k) && k < |Succ(g, v)| && Connected(g, e1, e2, Succ(g, v)[k])
    requires v in e2.meta && Succ(g, v)[k] in e2.meta
    ensures WitnessedLow(g, e2, v, Min(e2.meta[Succ(g, v)[k]].lowlink, e2.meta[v].lowlink))
  {
    hide Inv, CanEnter, WitnessedLow, BoundsEdgesDown, Reach;
    var w := Succ(g, v)[k];
    assert forall u :: u in e1.stack ==> Visited(e1, u) by { ShapeOf(g, e1); }
    assert e1.stack <= e2.stack;
    WitnessedLowSame(g, e1, e2, v, e1.meta[v].lowlink);
    if w in e2.stack {
      WitnessThroughEdge(g, e2, v, w, e2.meta[w].lowlink);
    }
  }

  lemma SuccsAfterCallee(g: Adjacency, e0: Env, e1: Env, e2: Env, v: Node, k: nat, j: nat)
    requires Scanning(g, e0, e1, v, k) && k < |Succ(g, v)| && Connected(g, e1, e2, Succ(g, v)[k])
    requires v in e2.meta && j <= k
    ensures Visited(e2, Succ(g, v)[j])
    ensures Succ(g, v)[j] in e2.stack ==> e2.meta[v].lowlink <= Num(e2, Succ(g, v)[j])
  {
    hide Inv, CanEnter, WitnessedLow, BoundsEdgesDown, Reach;
    var u := Succ(g, v)[j];
    if u in e2.stack && j < k {
      ShapeOf(g, e1);
      ShapeOf(g, e2);
      var i :| 0 <= i < |e2.stack| && e2.stack[i] == u;
      if i < |e1.stack| {
        assert e1.stack[i] == u && u in e1.stack;
      } else {
        assert e2.stack[|e0.stack|] == v;
        assert Num(e2, e2.stack[|e0.stack|]) < Num(e2, e2.stack[i]);
      }
    }
  }

  lemma ScanAfterCallee(g: Adjacency, e0: Env, e1: Env, e2: Env, v: Node, k: nat)
    requires Scanning(g, e0, e1, v, k) && k < |Succ(g, v)|
    requires Connected(g, e1, e2, Succ(g, v)[k])
    ensures v in e2.meta && Succ(g, v)[k] in e2.meta
    ensures Scanning(g, e0, WithLow(e2, v, e2.meta[Succ(g, v)[k]].lowlink), v, k + 1)
  {
    hide Inv, CanEnter, WitnessedLow, BoundsEdgesDown, Reach;
    var w := Succ(g, v)[k];
    var e' := WithLow(e2, v, e2.meta[w].lowlink);
    assert !Visited(e0, v) by { CanEnterUnvisited(g, e0, v); }
    BoundsAfterCallee(g, e0, e1, e2, v, k);
    WitnessAfterCallee(g, e0, e1, e2, v, k);
    forall j: nat | j <= k
      ensures Visited(e2, Succ(g, v)[j]) && (Succ(g, v)[j] in e2.stack ==> e2.meta[v].lowlink <= Num(e2, Succ(g, v)[j]))
    {
      SuccsAfterCallee(g, e0, e1, e2, v, k, j);
    }
    LowlinksAreFree(g, e2, e'.meta);
  }

  /** All edges done: either v roots a component, or it stays on the stack with a lower lowlink. */
  lemma ScanDone(g: Adjacency, e0: Env, e: Env, v: Node)
    requires Scanning(g, e0, e, v, |Succ(g, v)|)
    ensures v in e.meta && v !in e0.gray && e0.stack + [v] <= e.stack && Shape(g, e) && e.gray == e0.gray + {v}
    ensures BoundsEdgesDown(g, e, |e0.stack|, e.meta[v].lowlink)
    ensures e.meta[v].lowlink == e.meta[v].index ==> ReadyToEmit(g, e0, e, v)
    ensures forall w :: w in Succ(g, v) ==> Visited(e, w)
  {
    hide Reach, WitnessedLow, NoBlackToWhite, StackReach, SccsOk, Emitted, Nodes;
    var base := |e0.stack|;
    var n := e.meta[v].lowlink;
    assert e.stack[base] == v;
    forall i, j | 0 <= j < base <= i < |e.stack| && e.stack[j] in Succ(g, e.stack[i])
      ensures n <= Num(e, e.stack[j])
    {
      if i == base {
        var m :| 0 <= m < |Succ(g, v)| && Succ(g, v)[m] == e.stack[j];
        assert e.stack[j] in e.stack;
      }
    }
  }

  lemma EmitExtends(g: Adjacency, e0: Env, e: Env, v: Node, component: seq<Node>, meta: map<Node, Meta>)
    requires Scanning(g, e0, e, v, |Succ(g, v)|) && Popped(e0, e, component, meta)
    ensures Extends(e0, EmitEnv(e0, e, component, meta))
  {
    hide Reach, WitnessedLow, Inv, CanEnter, NoRepeats, BoundsEdgesDown, Top;
  }

  lemma EmitLeavesV(g: Adjacency, e0: Env, e: Env, v: Node, component: seq<Node>, meta: map<Node, Meta>)
    requires Scanning(g, e0, e, v, |Succ(g, v)|) && Shape(g, e) && Popped(e0, e, component, meta)
    ensures var e' := EmitEnv(e0, e, component, meta);
      && Visited(e', v) && v !in e'.stack && e'.meta[v].index == e0.index && e'.meta[v].lowlink == e.meta[v].lowlink
      && BoundsEdgesDown(g, e', |e0.stack|, e.meta[v].lowlink)
  {
    hide Reach, WitnessedLow, Inv, CanEnter, NoRepeats, Shape;
    assert v in Top(e0, e) by { assert e.stack[|e0.stack|] == v; assert Top(e0, e)[0] == v; }
    SlotsAboveAreNumberedAbove(g, e0, e, v, v);
  }

  lemma EmitConnects(g: Adjacency, e0: Env, e: Env, v: Node, component: seq<Node>, meta: map<Node, Meta>)
    requires Scanning(g, e0, e, v, |Succ(g, v)|) && v in e.meta && e.meta[v].lowlink == e.meta[v].index
    requires Popped(e0, e, component, meta)
    ensures Connected(g, e0, EmitEnv(e0, e, component, meta), v)
  {
    ScanIndex(g, e0, e, v);
    hide Reach, WitnessedLow, Inv, ReadyToEmit, Shape, Scanning, Popped, BoundsEdgesDown, Extends, EmitEnv, Succ;
    ScanDone(g, e0, e, v);
    EmitKeepsInv(g, e0, e, v, component, meta);
    EmitExtends(g, e0, e, v, component, meta);
    EmitLeavesV(g, e0, e, v, component, meta);
  }

  lemma ScanIndex(g: Adjacency, e0: Env, e: Env, v: Node)
    requires Scanning(g, e0, e, v, |Succ(g, v)|)
    ensures v in e.meta && e.meta[v].index == e0.index
  {
    hide Reach, WitnessedLow, Inv, CanEnter, BoundsEdgesDown;
  }

  lemma KeepConnects(g: Adjacency, e0: Env, e: Env, v: Node)
    requires Scanning(g, e0, e, v, |Succ(g, v)|) && v in e.meta && e.meta[v].lowlink != e.meta[v].index
    ensures Connected(g, e0, e.(gray := e0.gray), v)
  {
    hide Reach, Inv, CanEnter, ReadyToEmit, Shape;
    ScanDone(g, e0, e, v);
    KeepKeepsInv(g, e0, e, v, e.meta[v].lowlink);
    assert v in e.stack by { assert e.stack[|e0.stack|] == v; }
  }

  lemma StackDistinct(g: Adjacency, e: Env)
    requires Shape(g, e)
    ensures NoRepeats(e.stack) && (forall i, j :: 0 <= i < j < |e.stack| ==> e.stack[i] != e.stack[j])
    ensures forall u :: u in e.stack ==> u in e.meta
  {
    hide Emitted, Nodes;
  }

  /** Part of the way through the pop loop: `stack` is what is left of e's stack, `component` the rest reversed. */
  ghost predicate Popping(e: Env, stack: seq<Node>, component: seq<Node>) {
    && NoRepeats(e.stack) && (forall u :: u in e.stack ==> u in e.meta)
    && stack <= e.stack && |component| == |e.stack| - |stack|
    && forall i :: 0 <= i < |component| ==> component[i] == e.stack[|e.stack| - 1 - i]
  }

  /** Exactly the members of `component` had their onStack flag cleared. */
  ghost predicate Cleared(m0: map<Node, Meta>, m: map<Node, Meta>, component: seq<Node>) {
    && m.Keys == m0.Keys
    && forall u :: u in m ==>
         m[u].index == m0[u].index && m[u].lowlink == m0[u].lowlink &&
         m[u].onStack == (u !in component && m0[u].onStack)
  }

  lemma PopStart(g: Adjacency, e0: Env, e: Env, v: Node)
    requires Shape(g, e) && e0.stack + [v] <= e.stack
    ensures Popping(e, e.stack, []) && Cleared(e.meta, e.meta, [])
  {
    hide Shape;
    StackDistinct(g, e);
  }

  lemma PopStep(e0: Env, e: Env, v: Node, stack: seq<Node>, component: seq<Node>, m: map<Node, Meta>)
    requires e0.stack + [v] <= stack && Popping(e, stack, component) && Cleared(e.meta, m, component)
    ensures stack[|stack| - 1] in m
    ensures var top := stack[|stack| - 1];
            && Popping(e, stack[..|stack| - 1], component + [top])
            && Cleared(e.meta, m[top := m[top].(onStack := false)], component + [top])
            && (if top == v then stack[..|stack| - 1] == e0.stack else e0.stack + [v] <= stack[..|stack| - 1])
  {
    var top := stack[|stack| - 1];
    assert top == e.stack[|stack| - 1] && top in e.stack;
    var base := |e0.stack|;
    assert e.stack[base] == stack[base] == v;
    assert top == v <==> |stack| - 1 == base;
  }

  lemma PopEnd(e0: Env, e: Env, component: seq<Node>, m: map<Node, Meta>)
    requires |e0.stack| < |e.stack| && Popping(e, e0.stack, component) && Cleared(e.meta, m, component)
    ensures Popped(e0, e, component, m)
  {
    var n, base := |e.stack|, |e0.stack|;
    assert forall i :: 0 <= i < |component| ==> component[i] == Top(e0, e)[n - 1 - i - base];
    forall u | u in Top(e0, e) ensures u in component {
      var i :| 0 <= i < n - base && Top(e0, e)[i] == u;
      assert component[n - 1 - base - i] == u;
    }
  }

  /** The closure `strongconnect` and the variables it captures. */
  class Finder {
    const g: Adjacency
    var index: nat
    var stack: seq<Node>
    var sccs: seq<seq<Node>>
    var meta: map<Node, Meta>
    ghost var gray: set<Node>

    ghost function E(): Env
      reads this
    {
      Env(index, stack, sccs, meta, gray)
    }

    constructor (g: Adjacency, nodes: set<Node>)
      requires nodes == Nodes(g)
      ensures this.g == g && Inv(g, E()) && gray == {} && stack == [] && sccs == []
      ensures Unvisited(E()) == nodes
    {
      this.g := g;
      index, stack, sccs, gray := 0, [], [], {};
      meta := map v | v in nodes :: Meta(UNSET, UNSET, false);
    }

    /** The pop loop: everything from v's slot upward leaves the stack as one component. */
    method PopComponent(v: Node, ghost e0: Env) returns (component: seq<Node>)
      requires Shape(g, E()) && e0.stack + [v] <= stack
      modifies this`stack, this`meta
      ensures stack == e0.stack && Popped(e0, old(E()), component, meta)
    {
      hide Shape, Top, NoRepeats, Popping, Cleared;
      component := [];
      ghost var e := E();
      PopStart(g, e0, e, v);
      while true
        invariant e0.stack + [v] <= stack && Popping(e, stack, component) && Cleared(e.meta, meta, component)
        decreases |stack|
      {
        var top := stack[|stack| - 1];
        PopStep(e0, e, v, stack, component, meta);
        stack := stack[..|stack| - 1];
        meta := meta[top := meta[top].(onStack := false)];
        component := component + [top];
        if top == v {
          break;
        }
      }
      PopEnd(e0, e, component, meta);
    }

    method StrongConnect(v: Node)
      requires CanEnter(g, E(), v)
      modifies this
      ensures Connected(g, old(E()), E(), v)
      decreases Unvisited(E())
    {
      hide Inv, Scanning, Connected, Visited, Num, WitnessedLow, CanEnter, Popped;
      ghost var e0 := E();
      ScanStart(g, e0, v);
      meta := meta[v := Meta(index, index, true)];
      index := index + 1;
      stack := stack + [v];
      gray := gray + {v};
      assert E() == Entered(e0, v);

      var outs := Succ(g, v);
      for k := 0 to |outs|
        invariant Scanning(g, e0, E(), v, k)
      {
        var w := outs[k];
        ghost var e1 := E();
        ScanFacts(g, e0, e1, v, k);
        if w in meta {
          if meta[w].index == UNSET {
            ScanCallee(g, e0, e1, v, k);
            StrongConnect(w);
            ScanAfterCallee(g, e0, e1, E(), v, k);
            ghost var e2 := E();
            if meta[w].lowlink < meta[v].lowlink {
              meta := meta[v := meta[v].(lowlink := meta[w].lowlink)];
            }
            assert E() == WithLow(e2, v, e2.meta[w].lowlink) by { WithLowSame(e2, v, e2.meta[w].lowlink); }
          } else {
            ScanVisited(g, e0, e1, v, k);
            if meta[w].onStack {
              if meta[w].index < meta[v].lowlink {
                meta := meta[v := meta[v].(lowlink := meta[w].index)];
              }
              assert E() == WithLow(e1, v, e1.meta[w].index) by { WithLowSame(e1, v, e1.meta[w].index); }
            }
          }
        }
      }

      ghost var e1 := E();
      ScanDone(g, e0, e1, v);
      if meta[v].lowlink == meta[v].index {
        var component := PopComponent(v, e0);
        sccs := sccs + [component];
        gray := gray - {v};
        EmitConnects(g, e0, e1, v, component, meta);
        assert E() == EmitEnv(e0, e1, component, meta);
      } else {
        gray := gray - {v};
        KeepConnects(g, e0, e1, v);
      }
    }
  }

  lemma OpenIsEmpty(g: Adjacency, e: Env)
    requires Inv(g, e) && e.gray == {}
    ensures e.stack == []
  {
    hide Reach, SccsOk, Shape, NoBlackToWhite;
    if e.stack != [] {
      var x := AnchorOf(g, e, e.stack[0]);
      assert false;
    }
  }

  lemma AllVisitedMeansDone(g: Adjacency, e: Env)
    requires Inv(g, e) && e.gray == {} && Unvisited(e) == {}
    ensures IsSccOrder(g, e.sccs)
  {
    hide Reach, Nodes, AreClasses, Disjoint, ReachedFirst, Emitted, StackReach, NoBlackToWhite;
    OpenIsEmpty(g, e);
    forall v ensures v in Nodes(g) <==> Emitted(e.sccs, v) {
      assert v in e.meta ==> v !in Unvisited(e);
    }
  }

  /** The components of g, whatever the order in which the node set is enumerated. */
  method TarjanScc(g: Adjacency) returns (sccs: seq<seq<Node>>)
    ensures IsSccOrder(g, sccs)
  {
    hide Inv, Nodes, IsSccOrder, Extends, Visited;
    var nodes := g.Keys + set u, w | u in g && w in g[u] :: w;
    assert nodes == Nodes(g) by { NodesDef(g); }
    var finder := new Finder(g, nodes);
    var todo := nodes;
    while todo != {}
      invariant todo <= nodes && finder.g == g
      invariant Inv(g, finder.E()) && finder.gray == {}
      invariant Unvisited(finder.E()) <= todo
      decreases |todo|
    {
      var id :| id in todo;
      todo := todo - {id};
      assert id in finder.meta by { ShapeOf(g, finder.E()); }
      if finder.meta[id].index == UNSET {
        ghost var e0 := finder.E();
        assert CanEnter(g, e0, id) by { RootCanEnter(g, e0, id); }
        finder.StrongConnect(id);
        ConnectedVisits(g, e0, finder.E(), id);
      }
    }
    AllVisitedMeansDone(g, finder.E());
    sccs := finder.sccs;
  }

  lemma NodesDef(g: Adjacency)
    ensures Nodes(g) == g.Keys + set u, w | u in g && w in g[u] :: w
  {
  }

  lemma RootCanEnter(g: Adjacency, e: Env, v: Node)
    requires Inv(g, e) && e.gray == {} && v in Nodes(g) && v in e.meta && e.meta[v].index == UNSET
    ensures CanEnter(g, e, v)
  {
    hide Inv, Nodes;
  }

  lemma ConnectedVisits(g: Adjacency, e0: Env, e: Env, v: Node)
    requires Connected(g, e0, e, v) && Inv(g, e0)
    ensures Inv(g, e) && e.gray == e0.gray && Unvisited(e) <= Unvisited(e0) - {v}
  {
    hide Inv, BoundsEdgesDown, WitnessedLow, Nodes;
    ShapeOf(g, e);
    ShapeOf(g, e0);
  }

  // ---------------------------------------------------------------- what the specification determines

  /** Two nodes share a component exactly when each reaches the other. */
  lemma SharedComponent(g: Adjacency, sccs: seq<seq<Node>>, u: Node, w: Node)
    requires IsSccOrder(g, sccs) && u in Nodes(g)
    ensures (exists i :: InComponent(sccs, i, u) && InComponent(sccs, i, w)) <==> MutuallyReach(g, u, w)
  {
    hide MutuallyReach, Nodes, ReachedFirst;
    assert Emitted(sccs, u);
    var i :| InComponent(sccs, i, u);
    if MutuallyReach(g, u, w) {
      assert InComponent(sccs, i, w);
    }
  }

  ghost predicate SameMembers(s: seq<Node>, t: seq<Node>) {
    |s| == |t| && forall v :: v in s <==> v in t
  }

  /** The visiting order cannot matter: any two results hold the same components, up to their order. */
  lemma ComponentsAreDetermined(g: Adjacency, a: seq<seq<Node>>, b: seq<seq<Node>>, i: int)
    requires IsSccOrder(g, a) && IsSccOrder(g, b) && 0 <= i < |a|
    ensures exists j :: 0 <= j < |b| && SameMembers(a[i], b[j])
  {
    hide MutuallyReach, Nodes, ReachedFirst, Disjoint;
    var u := a[i][0];
    assert InComponent(a, i, u);
    assert Emitted(a, u) && Emitted(b, u);
    var j :| InComponent(b, j, u);
    forall v ensures v in a[i] <==> v in b[j] {
      assert v in a[i] <==> MutuallyReach(g, u, v);
      assert v in b[j] <==> MutuallyReach(g, u, v);
    }
    SameSetSameLength(a[i], b[j]);
    assert SameMembers(a[i], b[j]);
  }

  lemma NoRepeatsLength(s: seq<Node>)
    requires NoRepeats(s)
    ensures |s| == |set v | v in s|
  {
    if s != [] {
      var init := s[..|s| - 1];
      NoRepeatsLength(init);
      assert (set v | v in s) == (set v | v in init) + {s[|s| - 1]};
    }
  }

  lemma SameSetSameLength(s: seq<Node>, t: seq<Node>)
    requires NoRepeats(s) && NoRepeats(t) && forall v :: v in s <==> v in t
    ensures |s| == |t|
  {
    NoRepeatsLength(s);
    NoRepeatsLength(t);
    assert (set v | v in s) == (set v | v in t);
  }
}
