/** The architecture health audit: circular dependencies and supernodes of one namespace. */
module Health {
  import opened Digraph
  import Tarjan

  datatype Entity = Entity(id: Node, kind: string)
  datatype Relationship = Relationship(fromId: Node, toId: Node, kind: string)
  datatype Listing = Listing(entities: seq<Entity>, relationships: seq<Relationship>)

  datatype SmellKind = CircularDependency | Supernode | SharedDatabase
  datatype Smell = Smell(kind: SmellKind, nodeIds: seq<Node>)
  datatype Report = Report(smells: seq<Smell>, cyclesFound: nat, supernodes: nat)

  // ---------------------------------------------------------------- circular dependencies

  /** The adjacency map of a relationship list: targets in list order under each source. */
  function AdjacencyOf(rels: seq<Relationship>): Adjacency {
    if rels == [] then map[]
    else
      var r, g := rels[|rels| - 1], AdjacencyOf(rels[..|rels| - 1]);
      g[r.fromId := Succ(g, r.fromId) + [r.toId]]
  }

  /** It has exactly the edges of the list. */
  lemma {:induction false} AdjacencyEdges(rels: seq<Relationship>, u: Node, w: Node)
    ensures w in Succ(AdjacencyOf(rels), u) <==> exists r :: r in rels && r.fromId == u && r.toId == w
  {
    if rels != [] {
      var init, last := rels[..|rels| - 1], rels[|rels| - 1];
      AdjacencyEdges(init, u, w);
      assert rels == init + [last];
      assert forall r :: r in rels <==> r in init || r == last;
    }
  }

  method BuildAdjacency(rels: seq<Relationship>) returns (g: Adjacency)
    ensures g == AdjacencyOf(rels)
  {
    g := map[];
    for k := 0 to |rels|
      invariant g == AdjacencyOf(rels[..k])
    {
      var r := rels[k];
      assert rels[..k + 1][..k] == rels[..k];
      g := g[r.fromId := Succ(g, r.fromId) + [r.toId]];
    }
    assert rels[..|rels|] == rels;
  }

  method ContainsSelfLoop(g: Adjacency, id: Node) returns (found: bool)
    ensures found <==> id in Succ(g, id)
  {
    var outs := Succ(g, id);
    for k := 0 to |outs|
      invariant id !in outs[..k]
    {
      if outs[k] == id {
        return true;
      }
    }
    return false;
  }

  /** v is named by the j-th smell, which reports a circular dependency. */
  ghost predicate InCycleSmell(smells: seq<Smell>, j: int, v: Node) {
    0 <= j < |smells| && smells[j].kind == CircularDependency && v in smells[j].nodeIds
  }

  /** The smells report exactly the nodes on cycles, each once, each smell one whole component. */
  ghost predicate CyclesExact(g: Adjacency, smells: seq<Smell>) {
    && (forall v :: OnCycle(g, v) <==> exists j :: InCycleSmell(smells, j, v))
    && (forall i, j, v :: InCycleSmell(smells, i, v) && InCycleSmell(smells, j, v) ==> i == j)
    && (forall j, v, w :: InCycleSmell(smells, j, v) ==> (w in smells[j].nodeIds <==> MutuallyReach(g, v, w)))
  }

  /** The cyclic components among the first k, in order. */
  ghost predicate ReportsCyclic(g: Adjacency, sccs: seq<seq<Node>>, k: nat, smells: seq<Smell>) {
    && k <= |sccs|
    && (forall j :: 0 <= j < |smells| ==> smells[j].kind == CircularDependency)
    && (forall i, v :: i < k && Tarjan.InComponent(sccs, i, v) && OnCycle(g, v) ==>
          exists j :: InCycleSmell(smells, j, v))
    && (forall j :: 0 <= j < |smells| ==> IsComponentSmell(g, sccs, k, smells[j]))
    && (forall i, j, v :: InCycleSmell(smells, i, v) && InCycleSmell(smells, j, v) ==> i == j)
  }

  ghost predicate IsComponentSmell(g: Adjacency, sccs: seq<seq<Node>>, k: nat, s: Smell) {
    exists i :: FromComponent(g, sccs, k, s, i)
  }

  ghost predicate FromComponent(g: Adjacency, sccs: seq<seq<Node>>, k: nat, s: Smell, i: int) {
    0 <= i < k <= |sccs| && s.nodeIds == sccs[i] && forall v :: v in sccs[i] ==> OnCycle(g, v)
  }

  /** A component is cyclic as a whole or not at all: two members, or one with a self-loop. */
  lemma CyclicComponent(g: Adjacency, sccs: seq<seq<Node>>, i: nat, v: Node)
    requires Tarjan.IsSccOrder(g, sccs) && Tarjan.InComponent(sccs, i, v)
    ensures OnCycle(g, v) <==> |sccs[i]| >= 2 || sccs[i][0] in Succ(g, sccs[i][0])
  {
    hide MutuallyReach, OnCycle, Tarjan.ReachedFirst, Tarjan.Disjoint, Nodes;
    OnCycleCharacterised(g, v);
    var c := sccs[i];
    assert Tarjan.NoRepeats(c);
    if |c| >= 2 {
      var w := if c[0] == v then c[1] else c[0];
      assert w in c && w != v && MutuallyReach(g, v, w);
    } else {
      assert c == [v];
    }
  }

  lemma AppendSmell(g: Adjacency, sccs: seq<seq<Node>>, k: nat, smells: seq<Smell>)
    requires Tarjan.IsSccOrder(g, sccs) && k < |sccs| && ReportsCyclic(g, sccs, k, smells)
    requires forall v :: v in sccs[k] ==> OnCycle(g, v)
    ensures ReportsCyclic(g, sccs, k + 1, smells + [Smell(CircularDependency, sccs[k])])
  {
    hide OnCycle, Nodes, Tarjan.AreClasses, Tarjan.ReachedFirst;
    var s := Smell(CircularDependency, sccs[k]);
    var smells' := smells + [s];
    var n := |smells|;
    forall i, v | i < k + 1 && Tarjan.InComponent(sccs, i, v) && OnCycle(g, v)
      ensures exists j :: InCycleSmell(smells', j, v)
    {
      if i == k {
        assert InCycleSmell(smells', n, v);
      } else {
        var j :| InCycleSmell(smells, j, v);
        assert InCycleSmell(smells', j, v);
      }
    }
    forall j | 0 <= j < |smells'| ensures IsComponentSmell(g, sccs, k + 1, smells'[j]) {
      if j == n {
        assert FromComponent(g, sccs, k + 1, s, k);
      } else {
        assert IsComponentSmell(g, sccs, k, smells[j]);
        var i :| FromComponent(g, sccs, k, smells[j], i);
        assert FromComponent(g, sccs, k + 1, smells'[j], i);
      }
    }
    forall j, v | InCycleSmell(smells', j, v) && v in sccs[k] ensures j == n {
      if j < n {
        assert IsComponentSmell(g, sccs, k, smells[j]);
        var i :| FromComponent(g, sccs, k, smells[j], i);
        OneComponent(sccs, i, k, v);
      }
    }
    forall i, j, v | InCycleSmell(smells', i, v) && InCycleSmell(smells', j, v) ensures i == j {
      if i < n && j < n {
        assert InCycleSmell(smells, i, v) && InCycleSmell(smells, j, v);
      }
    }
  }

  lemma OneComponent(sccs: seq<seq<Node>>, i: nat, k: nat, v: Node)
    requires Tarjan.Disjoint(sccs) && i < |sccs| && k < |sccs| && v in sccs[i] && v in sccs[k]
    ensures i == k
  {
    assert Tarjan.InComponent(sccs, i, v) && Tarjan.InComponent(sccs, k, v);
  }

  lemma SkipComponent(g: Adjacency, sccs: seq<seq<Node>>, k: nat, smells: seq<Smell>)
    requires k < |sccs| && ReportsCyclic(g, sccs, k, smells)
    requires forall v :: v in sccs[k] ==> !OnCycle(g, v)
    ensures ReportsCyclic(g, sccs, k + 1, smells)
  {
    hide OnCycle;
    forall j | 0 <= j < |smells| ensures IsComponentSmell(g, sccs, k + 1, smells[j]) {
      assert IsComponentSmell(g, sccs, k, smells[j]);
      var i :| FromComponent(g, sccs, k, smells[j], i);
      assert FromComponent(g, sccs, k + 1, smells[j], i);
    }
  }

  lemma AllReportedIsExact(g: Adjacency, sccs: seq<seq<Node>>, smells: seq<Smell>)
    requires Tarjan.IsSccOrder(g, sccs) && ReportsCyclic(g, sccs, |sccs|, smells)
    ensures CyclesExact(g, smells)
  {
    hide OnCycle, Nodes, MutuallyReach, Tarjan.ReachedFirst, Tarjan.Disjoint;
    forall v ensures OnCycle(g, v) <==> exists j :: InCycleSmell(smells, j, v) {
      if OnCycle(g, v) {
        OnCycleIsNode(g, v);
        assert Tarjan.Emitted(sccs, v);
        var i :| Tarjan.InComponent(sccs, i, v);
      }
    }
    forall j, v, w | InCycleSmell(smells, j, v) ensures w in smells[j].nodeIds <==> MutuallyReach(g, v, w) {
      assert IsComponentSmell(g, sccs, |sccs|, smells[j]);
      var i :| FromComponent(g, sccs, |sccs|, smells[j], i);
      assert Tarjan.InComponent(sccs, i, v);
    }
  }

  lemma OnCycleIsNode(g: Adjacency, v: Node)
    requires OnCycle(g, v)
    ensures v in Nodes(g)
  {
    var p :| IsPath(g, p) && |p| >= 2 && p[0] == v && p[|p| - 1] == v;
    assert p[1] in Succ(g, p[0]);
  }

  /** The cycle rule of the audit. */
  method CycleSmells(g: Adjacency) returns (smells: seq<Smell>)
    ensures CyclesExact(g, smells)
    ensures forall j :: 0 <= j < |smells| ==> smells[j].kind == CircularDependency
  {
    hide CyclesExact, ReportsCyclic, OnCycle, Tarjan.IsSccOrder;
    var sccs := Tarjan.TarjanScc(g);
    smells := [];
    NothingReported(g, sccs);
    for k := 0 to |sccs|
      invariant ReportsCyclic(g, sccs, k, smells)
      invariant forall j :: 0 <= j < |smells| ==> smells[j].kind == CircularDependency
    {
      var scc := sccs[k];
      NonEmpty(g, sccs, k);
      var isCycle := |scc| >= 2;
      if !isCycle && |scc| == 1 {
        isCycle := ContainsSelfLoop(g, scc[0]);
      }
      forall v | v in scc ensures OnCycle(g, v) <==> isCycle {
        CyclicComponent(g, sccs, k, v);
      }
      if isCycle {
        AppendSmell(g, sccs, k, smells);
        smells := smells + [Smell(CircularDependency, scc)];
      } else {
        SkipComponent(g, sccs, k, smells);
      }
    }
    AllReportedIsExact(g, sccs, smells);
  }

  lemma NothingReported(g: Adjacency, sccs: seq<seq<Node>>)
    ensures ReportsCyclic(g, sccs, 0, [])
  {
    hide OnCycle;
  }

  lemma NonEmpty(g: Adjacency, sccs: seq<seq<Node>>, k: nat)
    requires Tarjan.IsSccOrder(g, sccs) && k < |sccs|
    ensures sccs[k] != []
  {
    hide Tarjan.ReachedFirst, Tarjan.Disjoint, Nodes, MutuallyReach;
  }

  // ---------------------------------------------------------------- supernodes

  /** How many relationship ends touch an id; a self-loop counts twice. */
  function Degree(rels: seq<Relationship>, id: Node): nat {
    if rels == [] then 0
    else
      var r := rels[|rels| - 1];
      Degree(rels[..|rels| - 1], id) + (if r.fromId == id then 1 else 0) + (if r.toId == id then 1 else 0)
  }

  function DegreeOf(degrees: map<Node, nat>, id: Node): nat {
    if id in degrees then degrees[id] else 0
  }

  method CountDegrees(rels: seq<Relationship>) returns (degrees: map<Node, nat>)
    ensures forall id :: DegreeOf(degrees, id) == Degree(rels, id)
  {
    degrees := map[];
    for k := 0 to |rels|
      invariant forall id :: DegreeOf(degrees, id) == Degree(rels[..k], id)
    {
      var r := rels[k];
      assert rels[..k + 1][..k] == rels[..k];
      degrees := degrees[r.fromId := DegreeOf(degrees, r.fromId) + 1];
      degrees := degrees[r.toId := DegreeOf(degrees, r.toId) + 1];
    }
    assert rels[..|rels|] == rels;
  }

  function Degrees(l: Listing): (ds: seq<real>)
    ensures |ds| == |l.entities|
  {
    seq(|l.entities|, i requires 0 <= i < |l.entities| => Degree(l.relationships, l.entities[i].id) as real)
  }

  function Sum(xs: seq<real>): real {
    if xs == [] then 0.0 else Sum(xs[..|xs| - 1]) + xs[|xs| - 1]
  }

  function SumSq(xs: seq<real>): real {
    if xs == [] then 0.0 else SumSq(xs[..|xs| - 1]) + xs[|xs| - 1] * xs[|xs| - 1]
  }

  function Mean(xs: seq<real>): real
    requires xs != []
  {
    Sum(xs) / |xs| as real
  }

  function Variance(xs: seq<real>): real
    requires xs != []
  {
    SumSq(xs) / |xs| as real - Mean(xs) * Mean(xs)
  }

  /** What `math.Sqrt` returns on positive reals, rounding aside. */
  ghost predicate IsSqrt(sqrt: real -> real) {
    forall x :: x > 0.0 ==> sqrt(x) >= 0.0 && sqrt(x) * sqrt(x) == x
  }

  function Deviation(xs: seq<real>, sqrt: real -> real): real
    requires xs != []
  {
    if Variance(xs) > 0.0 then sqrt(Variance(xs)) else 0.0
  }

  /** The i-th value is far above the rest: over mean plus four sigma, and over 3. */
  predicate IsOutlier(xs: seq<real>, sqrt: real -> real, i: nat)
    requires i < |xs|
  {
    xs[i] > Mean(xs) + 4.0 * Deviation(xs, sqrt) && xs[i] > 3.0
  }

  function Outliers(xs: seq<real>, sqrt: real -> real, k: nat): seq<nat>
    requires k <= |xs|
  {
    if k == 0 then []
    else Outliers(xs, sqrt, k - 1) + (if IsOutlier(xs, sqrt, k - 1) then [k - 1] else [])
  }

  /** The three accumulators of the statistics loop. */
  method SumDegrees(l: Listing, degrees: map<Node, nat>) returns (sum: real, sumSq: real, n: real)
    requires forall id :: DegreeOf(degrees, id) == Degree(l.relationships, id)
    ensures n == |l.entities| as real && sum == Sum(Degrees(l)) && sumSq == SumSq(Degrees(l))
  {
    ghost var ds := Degrees(l);
    sum, sumSq, n := 0.0, 0.0, 0.0;
    for k := 0 to |l.entities|
      invariant n == k as real && sum == Sum(ds[..k]) && sumSq == SumSq(ds[..k])
    {
      var d := DegreeOf(degrees, l.entities[k].id) as real;
      assert ds[..k + 1][..k] == ds[..k] && ds[k] == d;
      sum, sumSq, n := sum + d, sumSq + d * d, n + 1.0;
    }
    assert ds[..|ds|] == ds;
  }

  /** Mean plus four sigma of the entity degrees. */
  method Threshold(l: Listing, degrees: map<Node, nat>, sqrt: real -> real) returns (threshold: real)
    requires |l.entities| > 0 && forall id :: DegreeOf(degrees, id) == Degree(l.relationships, id)
    ensures threshold == Mean(Degrees(l)) + 4.0 * Deviation(Degrees(l), sqrt)
  {
    hide Degree, Sum, SumSq;
    var sum, sumSq, n := SumDegrees(l, degrees);
    var mean := sum / n;
    var variance := sumSq / n - mean * mean;
    var std := 0.0;
    if variance > 0.0 {
      std := sqrt(variance);
    }
    threshold := mean + 4.0 * std;
  }

  /** smells reports, one by one and in order, the entities at the given positions. */
  ghost predicate ReportsAt(l: Listing, positions: seq<nat>, smells: seq<Smell>) {
    |smells| == |positions| &&
    forall j :: 0 <= j < |positions| ==>
      positions[j] < |l.entities| && smells[j] == Smell(Supernode, [l.entities[positions[j]].id])
  }

  /** The positions of the supernodes: the outliers, among four entities or more. */
  function Supernodes(l: Listing, sqrt: real -> real): seq<nat> {
    if |l.entities| < 4 then [] else Outliers(Degrees(l), sqrt, |l.entities|)
  }

  /** The supernode rule: fewer than four entities are never judged. */
  method SupernodeSmells(l: Listing, sqrt: real -> real) returns (smells: seq<Smell>)
    ensures ReportsAt(l, Supernodes(l, sqrt), smells)
  {
    smells := [];
    if |l.entities| < 4 {
      return;
    }
    var degrees := CountDegrees(l.relationships);
    ghost var ds := Degrees(l);
    var threshold := Threshold(l, degrees, sqrt);
    hide Degree, Mean, Deviation;
    for k := 0 to |l.entities|
      invariant ReportsAt(l, Outliers(ds, sqrt, k), smells)
    {
      var d := DegreeOf(degrees, l.entities[k].id) as real;
      assert ds[k] == d;
      if d > threshold && d > 3.0 {
        smells := smells + [Smell(Supernode, [l.entities[k].id])];
      }
    }
  }

  /** Named, so that larger proofs can treat products as wholes. */
  function Mul(a: real, b: real): real {
    a * b
  }

  /** Square of a sum against the sum of squares (Cauchy and Schwarz). */
  lemma {:induction false} SquareOfSum(xs: seq<real>)
    ensures Mul(Sum(xs), Sum(xs)) <= Mul(|xs| as real, SumSq(xs))
  {
    if xs != [] {
      var n := |xs| - 1;
      SquareOfSum(xs[..n]);
      SquareStep(Sum(xs[..n]), SumSq(xs[..n]), n as real, xs[n]);
    }
  }

  lemma SquareStep(s: real, q: real, n: real, x: real)
    requires n >= 0.0 && s * s <= n * q && (n >= 1.0 || n == 0.0 == s == q)
    ensures (s + x) * (s + x) <= (n + 1.0) * (q + x * x)
  {
    if n >= 1.0 {
      var y := n * x;
      assert (s - y) * (s - y) >= 0.0;
      assert 2.0 * (s * y) <= s * s + y * y;
      assert y * y == n * (n * (x * x));
      assert s * y == n * (s * x);
      assert n * (2.0 * (s * x)) <= n * (q + n * (x * x));
      assert n * (q + n * (x * x) - 2.0 * (s * x)) >= 0.0;
    }
  }

  function Above(xs: seq<real>, t: real): seq<real> {
    if xs == [] then [] else Above(xs[..|xs| - 1], t) + (if xs[|xs| - 1] > t then [xs[|xs| - 1]] else [])
  }

  function NotAbove(xs: seq<real>, t: real): seq<real> {
    if xs == [] then [] else NotAbove(xs[..|xs| - 1], t) + (if xs[|xs| - 1] > t then [] else [xs[|xs| - 1]])
  }

  lemma SumSnoc(xs: seq<real>, x: real)
    ensures Sum(xs + [x]) == Sum(xs) + x && SumSq(xs + [x]) == SumSq(xs) + x * x
  {
    assert (xs + [x])[..|xs|] == xs;
  }

  lemma SumOfNone()
    ensures Sum([]) == 0.0 == SumSq([])
  {
  }

  /** A threshold splits count, sum and sum of squares. */
  lemma {:induction false} SplitAt(xs: seq<real>, t: real)
    ensures |Above(xs, t)| + |NotAbove(xs, t)| == |xs|
    ensures Sum(Above(xs, t)) + Sum(NotAbove(xs, t)) == Sum(xs)
    ensures SumSq(Above(xs, t)) + SumSq(NotAbove(xs, t)) == SumSq(xs)
  {
    hide Sum, SumSq;
    SumOfNone();
    if xs != [] {
      var init, x := xs[..|xs| - 1], xs[|xs| - 1];
      SplitAt(init, t);
      assert xs == init + [x];
      SumSnoc(init, x);
      if x > t {
        SumSnoc(Above(init, t), x);
        assert NotAbove(xs, t) == NotAbove(init, t);
      } else {
        SumSnoc(NotAbove(init, t), x);
        assert Above(xs, t) == Above(init, t);
      }
    }
  }

  lemma OneMoreMultiple(k: nat, t: real)
    ensures Mul(0.0, t) == 0.0 && Mul((k + 1) as real, t) == Mul(k as real, t) + t
  {
    assert (k as real + 1.0) * t == k as real * t + t;
  }

  lemma {:induction false} AboveSum(xs: seq<real>, t: real)
    ensures Sum(Above(xs, t)) >= Mul(|Above(xs, t)| as real, t)
    ensures Above(xs, t) != [] ==> Sum(Above(xs, t)) > Mul(|Above(xs, t)| as real, t)
  {
    hide Sum, SumSq, Mul;
    SumOfNone();
    OneMoreMultiple(0, t);
    if xs != [] {
      var init, x := xs[..|xs| - 1], xs[|xs| - 1];
      AboveSum(init, t);
      if x > t {
        SumSnoc(Above(init, t), x);
        OneMoreMultiple(|Above(init, t)|, t);
      } else {
        assert Above(xs, t) == Above(init, t);
      }
    }
  }

  /** The outliers are at most the values above the threshold. */
  lemma {:induction false} OutliersAreAbove(xs: seq<real>, sqrt: real -> real, k: nat)
    requires xs != [] && k <= |xs|
    ensures |Outliers(xs, sqrt, k)| <= |Above(xs[..k], Mean(xs) + 4.0 * Deviation(xs, sqrt))|
  {
    hide Mean, Deviation;
    if k > 0 {
      OutliersAreAbove(xs, sqrt, k - 1);
      assert xs[..k][..k - 1] == xs[..k - 1];
    }
  }

  lemma Scale(c: real, a: real, b: real)
    requires c >= 0.0 && a <= b
    ensures Mul(c, a) <= Mul(c, b)
  {
    assert c * (b - a) >= 0.0;
  }

  lemma ScaleStrictly(c: real, a: real, b: real)
    requires c > 0.0 && a < b
    ensures Mul(c, a) < Mul(c, b)
  {
    assert c * (b - a) > 0.0;
  }

  lemma Cancel(c: real, a: real, b: real)
    requires c > 0.0 && Mul(c, a) <= Mul(c, b)
    ensures a <= b
  {
    hide Mul;
    if b < a {
      ScaleStrictly(c, b, a);
      assert false;
    }
  }

  lemma SquareGrows(x: real, y: real)
    requires 0.0 <= x < y
    ensures Mul(x, x) < Mul(y, y)
  {
    var d := y - x;
    assert d * (y + x) > 0.0;
    assert y * y == (x + d) * y == x * y + d * y;
    assert x * y == x * x + x * d;
  }

  /** n squared deviations around m, in terms of the sum a and the sum of squares q. */
  function Spread(n: real, a: real, q: real, m: real): real {
    q - 2.0 * (m * a) + n * (m * m)
  }

  lemma SpreadBound(n: real, a: real, q: real, m: real)
    requires Mul(a, a) <= Mul(n, q)
    ensures Mul(a - Mul(n, m), a - Mul(n, m)) <= Mul(n, Spread(n, a, q, m))
  {
    var y := n * m;
    assert (a - y) * (a - y) == a * a - 2.0 * (a * y) + y * y;
    assert a * y == n * (m * a);
    assert y * y == n * (n * (m * m));
    assert n * Spread(n, a, q, m) == n * q - 2.0 * (n * (m * a)) + n * (n * (m * m));
  }

  lemma SpreadsAdd(k: real, l: real, a: real, q: real, b: real, r: real, m: real)
    requires a + b == Mul(k + l, m)
    ensures Spread(k, a, q, m) + Spread(l, b, r, m) == q + r - Mul(k + l, Mul(m, m))
  {
    assert m * a + m * b == m * (a + b);
    assert m * (a + b) == (k + l) * (m * m) by { assert m * ((k + l) * m) == (k + l) * (m * m); }
    assert k * (m * m) + l * (m * m) == (k + l) * (m * m);
  }

  /** dd is the squared total deviation of k values above, and of the l others; p and r are their spreads. */
  lemma SpreadsMeet(k: real, l: real, dd: real, p: real, r: real)
    requires k >= 0.0 && l >= 0.0 && dd <= Mul(k, p) && dd <= Mul(l, r)
    ensures Mul(k + l, dd) <= Mul(Mul(k, l), p + r)
  {
    Scale(l, dd, Mul(k, p));
    Scale(k, dd, Mul(l, r));
    assert l * (k * p) == (k * l) * p;
    assert k * (l * r) == (k * l) * r;
    assert (k + l) * dd == k * dd + l * dd;
    assert (k * l) * (p + r) == (k * l) * p + (k * l) * r;
  }

  lemma Regroup(a: real, n: real, b: real)
    ensures Mul(a, Mul(n, b)) == Mul(n, Mul(a, b))
  {
  }

  lemma Compare(k: real, l: real, t: real)
    requires t >= 0.0 && 16.0 * Mul(k, t) < Mul(l, t)
    ensures l > 16.0 * k
  {
    assert t * (16.0 * k) == 16.0 * (k * t);
    if l <= 16.0 * k {
      Scale(t, l, 16.0 * k);
      assert false;
    }
  }

  lemma FourfoldSquare(k: real, s: real)
    requires k >= 0.0 && s >= 0.0
    ensures Mul(k, s) >= 0.0 && Mul(k, Mul(s, s)) >= 0.0
    ensures Mul(4.0 * Mul(k, s), 4.0 * Mul(k, s)) == 16.0 * Mul(k, Mul(k, Mul(s, s)))
  {
    var ks := k * s;
    assert s * s >= 0.0 && ks >= 0.0;
    assert (4.0 * ks) * (4.0 * ks) == 16.0 * (ks * ks);
    assert ks * ks == k * (k * (s * s));
  }

  lemma Swap(k: real, l: real, x: real)
    ensures Mul(Mul(k, l), x) == Mul(l, Mul(k, x))
  {
  }

  /** The arithmetic core: k values over mean plus four sigma leave more than 16k others. */
  lemma CantelliCore(k: real, l: real, d: real, p: real, r: real, s: real)
    requires k >= 1.0 && l >= 0.0 && s >= 0.0
    requires d > 4.0 * Mul(k, s) && Mul(d, d) <= Mul(k, p) && Mul(d, d) <= Mul(l, r)
    requires p + r == Mul(k + l, Mul(s, s))
    ensures l > 16.0 * k
  {
    hide Mul;
    var n, ss, dd := k + l, Mul(s, s), Mul(d, d);
    FourfoldSquare(k, s);
    SquareGrows(4.0 * Mul(k, s), d);
    SpreadsMeet(k, l, dd, p, r);
    Regroup(Mul(k, l), n, ss);
    Cancel(n, dd, Mul(Mul(k, l), ss));
    Swap(k, l, ss);
    Compare(k, l, Mul(k, ss));
  }

  /** At most one entity in eighteen can be a supernode. */
  lemma SupernodeBound(xs: seq<real>, sqrt: real -> real)
    requires xs != [] && IsSqrt(sqrt)
    ensures var k := |Outliers(xs, sqrt, |xs|)|; k > 0 ==> 17 * k < |xs|
  {
    var t := Mean(xs) + 4.0 * Deviation(xs, sqrt);
    OutliersAreAbove(xs, sqrt, |xs|);
    assert xs[..|xs|] == xs;
    if Above(xs, t) != [] {
      AboveBound(xs, sqrt);
    }
  }

  lemma AboveBound(xs: seq<real>, sqrt: real -> real)
    requires xs != [] && IsSqrt(sqrt)
    requires Above(xs, Mean(xs) + 4.0 * Deviation(xs, sqrt)) != []
    ensures 17 * |Above(xs, Mean(xs) + 4.0 * Deviation(xs, sqrt))| < |xs|
  {
    hide *;
    var m, s := Mean(xs), Deviation(xs, sqrt);
    var t := m + 4.0 * s;
    var hi, lo := Above(xs, t), NotAbove(xs, t);
    var k, l := |hi| as real, |lo| as real;
    var a, q, b, r := Sum(hi), SumSq(hi), Sum(lo), SumSq(lo);
    assert |hi| + |lo| == |xs| && a + b == Sum(xs) && q + r == SumSq(xs) by { SplitAt(xs, t); }
    assert a > Mul(k, t) by { AboveSum(xs, t); }
    assert Mul(a, a) <= Mul(k, q) by { SquareOfSum(hi); }
    assert Mul(b, b) <= Mul(l, r) by { SquareOfSum(lo); }
    var n := |xs| as real;
    assert n == k + l;
    VarianceFacts(xs, sqrt, n, m, s, a + b, q + r);
    FewAbove(k, l, n, a, q, b, r, m, s, t);
  }

  /** Values over the threshold exceed their share of the mean by four sigma each. */
  lemma Surplus(k: real, m: real, s: real, t: real, a: real)
    requires t == m + 4.0 * s && a > Mul(k, t)
    ensures a - Mul(k, m) > 4.0 * Mul(k, s)
  {
    assert k * t == k * m + k * (4.0 * s);
    assert k * (4.0 * s) == 4.0 * (k * s);
  }

  /** What is above the mean on one side is below it on the other. */
  lemma Balance(k: real, l: real, m: real, a: real, b: real)
    requires Mul(k + l, m) == a + b
    ensures Mul(b - Mul(l, m), b - Mul(l, m)) == Mul(a - Mul(k, m), a - Mul(k, m))
  {
    var d := a - k * m;
    assert (k + l) * m == k * m + l * m;
    assert b - l * m == -d;
    NegSquare(d);
  }

  lemma FewAbove(k: real, l: real, n: real, a: real, q: real, b: real, r: real, m: real, s: real, t: real)
    requires k >= 1.0 && l >= 0.0 && n == k + l && s >= 0.0 && t == m + 4.0 * s && a > Mul(k, t)
    requires Mul(a, a) <= Mul(k, q) && Mul(b, b) <= Mul(l, r)
    requires Mul(n, m) == a + b && Mul(n, Mul(s, s)) == q + r - Mul(n, Mul(m, m))
    ensures l > 16.0 * k
  {
    hide Spread, Mul;
    SpreadBound(k, a, q, m);
    SpreadBound(l, b, r, m);
    SpreadsAdd(k, l, a, q, b, r, m);
    Surplus(k, m, s, t, a);
    Balance(k, l, m, a, b);
    CantelliCore(k, l, a - Mul(k, m), Spread(k, a, q, m), Spread(l, b, r, m), s);
  }

  lemma NegSquare(d: real)
    ensures (-d) * (-d) == d * d
  {
  }

  /** Over exact reals the variance is never negative, so sigma is its root. */
  lemma VarianceFacts(xs: seq<real>, sqrt: real -> real, n: real, m: real, s: real, sum: real, sumSq: real)
    requires xs != [] && IsSqrt(sqrt)
    requires n == |xs| as real && m == Mean(xs) && s == Deviation(xs, sqrt) && sum == Sum(xs) && sumSq == SumSq(xs)
    ensures s >= 0.0 && Mul(n, m) == sum && Mul(n, Mul(s, s)) == sumSq - Mul(n, Mul(m, m))
  {
    hide Sum, SumSq;
    var v := Variance(xs);
    SquareOfSum(xs);
    DivMul(sum, n);
    DivMul(sumSq, n);
    ScaledVariance(n, m, sumSq / n, v);
    SquareScaled(n, m);
    Cancel(n, n * (m * m), sumSq);
    Cancel(n, 0.0, v);
  }

  lemma DivMul(a: real, n: real)
    requires n != 0.0
    ensures n * (a / n) == a
  {
  }

  lemma ScaledVariance(n: real, m: real, a: real, v: real)
    requires v == a - m * m
    ensures n * v == n * a - n * (m * m)
  {
  }

  lemma SquareScaled(n: real, m: real)
    ensures (n * m) * (n * m) == n * (n * (m * m))
  {
  }

  // ---------------------------------------------------------------- supernodes, in numbers

  ghost function Starting(rels: seq<Relationship>, id: Node): set<nat> {
    set k: nat | k < |rels| && rels[k].fromId == id
  }

  ghost function Ending(rels: seq<Relationship>, id: Node): set<nat> {
    set k: nat | k < |rels| && rels[k].toId == id
  }

  /** The relationships that start at an id, and those that end at it; a self-loop is among both. */
  ghost function EndsAt(rels: seq<Relationship>, id: Node): nat {
    |Starting(rels, id)| + |Ending(rels, id)|
  }

  lemma StartingSnoc(rels: seq<Relationship>, r: Relationship, id: Node)
    ensures |Starting(rels + [r], id)| == |Starting(rels, id)| + if r.fromId == id then 1 else 0
  {
    var n, was, now := |rels|, Starting(rels, id), Starting(rels + [r], id);
    forall k: nat ensures k in now <==> k in was || (k == n && r.fromId == id) {
      assert k < n ==> (rels + [r])[k] == rels[k];
    }
    assert n !in was;
    hide Starting;
    assert now == if r.fromId == id then was + {n} else was;
  }

  lemma EndingSnoc(rels: seq<Relationship>, r: Relationship, id: Node)
    ensures |Ending(rels + [r], id)| == |Ending(rels, id)| + if r.toId == id then 1 else 0
  {
    var n, was, now := |rels|, Ending(rels, id), Ending(rels + [r], id);
    forall k: nat ensures k in now <==> k in was || (k == n && r.toId == id) {
      assert k < n ==> (rels + [r])[k] == rels[k];
    }
    assert n !in was;
    hide Ending;
    assert now == if r.toId == id then was + {n} else was;
  }

  lemma NoEnds(id: Node)
    ensures EndsAt([], id) == 0
  {
    assert Starting([], id) == {} && Ending([], id) == {};
  }

  lemma {:induction false} DegreeIs(rels: seq<Relationship>, id: Node)
    ensures Degree(rels, id) == EndsAt(rels, id)
  {
    hide Starting, Ending;
    if rels == [] {
      NoEnds(id);
    } else {
      var init, r := rels[..|rels| - 1], rels[|rels| - 1];
      DegreeIs(init, id);
      StartingSnoc(init, r, id);
      EndingSnoc(init, r, id);
      assert rels == init + [r];
    }
  }

  /** mean is the average of the values, and sigma the root of their mean square less the mean's square. */
  ghost predicate AreMoments(xs: seq<real>, mean: real, sigma: real) {
    var n := |xs| as real;
    && Mul(n, mean) == Sum(xs) && sigma >= 0.0
    && Mul(n, Mul(sigma, sigma)) == SumSq(xs) - Mul(n, Mul(mean, mean))
  }

  /** A degree over the mean plus four sigma, and over three. */
  ghost predicate StandsOut(l: Listing, i: nat)
    requires i < |l.entities|
  {
    var d := EndsAt(l.relationships, l.entities[i].id) as real;
    d > 3.0 && exists mean, sigma :: AreMoments(EntityEnds(l), mean, sigma) && d > mean + 4.0 * sigma
  }

  /** The degrees of the listed entities, in order. */
  ghost function EntityEnds(l: Listing): seq<real> {
    seq(|l.entities|, i requires 0 <= i < |l.entities| => EndsAt(l.relationships, l.entities[i].id) as real)
  }

  /** The smells are, in order, those of the entities that stand out among four or more. */
  ghost predicate ReportsSupernodes(l: Listing, smells: seq<Smell>) {
    exists at :: ReportsAt(l, at, smells) && AreSupernodes(l, at)
  }

  ghost predicate AreSupernodes(l: Listing, at: seq<nat>) {
    && (forall j, k :: 0 <= j < k < |at| ==> at[j] < at[k])
    && (forall i: nat :: i < |l.entities| ==> (i in at <==> |l.entities| >= 4 && StandsOut(l, i)))
    && (forall k :: 0 <= k < |at| ==> at[k] < |l.entities|)
  }

  lemma SameRoot(x: real, y: real)
    requires x >= 0.0 && y >= 0.0 && Mul(x, x) == Mul(y, y)
    ensures x == y
  {
    if x < y {
      SquareGrows(x, y);
      assert false;
    } else if y < x {
      SquareGrows(y, x);
      assert false;
    }
  }

  lemma SameFactor(n: real, x: real, y: real)
    requires n > 0.0 && Mul(n, x) == Mul(n, y)
    ensures x == y
  {
    hide Mul;
    Cancel(n, x, y);
    Cancel(n, y, x);
  }

  /** There is one mean and one sigma, and they are the ones the rule computes. */
  lemma MomentsAre(xs: seq<real>, sqrt: real -> real, mean: real, sigma: real)
    requires xs != [] && IsSqrt(sqrt)
    ensures AreMoments(xs, mean, sigma) <==> mean == Mean(xs) && sigma == Deviation(xs, sqrt)
  {
    hide Mul, Sum, SumSq, Mean, Deviation, Variance, IsSqrt;
    var n, m, s := |xs| as real, Mean(xs), Deviation(xs, sqrt);
    VarianceFacts(xs, sqrt, n, m, s, Sum(xs), SumSq(xs));
    if AreMoments(xs, mean, sigma) {
      SameFactor(n, mean, m);
      SameFactor(n, Mul(sigma, sigma), Mul(s, s));
      SameRoot(sigma, s);
    }
  }

  lemma DegreesAre(l: Listing)
    ensures Degrees(l) == EntityEnds(l)
  {
    hide Degree, EndsAt;
    forall i | 0 <= i < |l.entities| ensures Degrees(l)[i] == EntityEnds(l)[i] {
      DegreeIs(l.relationships, l.entities[i].id);
    }
  }

  lemma OutlierStandsOut(l: Listing, sqrt: real -> real, i: nat)
    requires IsSqrt(sqrt) && i < |l.entities|
    ensures IsOutlier(Degrees(l), sqrt, i) <==> StandsOut(l, i)
  {
    hide Mean, Deviation, Degree, EndsAt, AreMoments, IsSqrt;
    DegreesAre(l);
    var ds := EntityEnds(l);
    assert ds[i] == EndsAt(l.relationships, l.entities[i].id) as real;
    forall mean, sigma ensures AreMoments(ds, mean, sigma) <==> mean == Mean(ds) && sigma == Deviation(ds, sqrt) {
      MomentsAre(ds, sqrt, mean, sigma);
    }
    assert AreMoments(ds, Mean(ds), Deviation(ds, sqrt));
  }

  lemma {:induction false} OutliersArePositions(xs: seq<real>, sqrt: real -> real, k: nat)
    requires k <= |xs|
    ensures var at := Outliers(xs, sqrt, k);
      && (forall j, m :: 0 <= j < m < |at| ==> at[j] < at[m]) && (forall j :: 0 <= j < |at| ==> at[j] < k)
      && (forall i: nat :: i < k ==> (i in at <==> IsOutlier(xs, sqrt, i)))
  {
    hide IsOutlier;
    if k > 0 {
      OutliersArePositions(xs, sqrt, k - 1);
    }
  }

  /** The rule's positions are those of the entities that stand out. */
  lemma SupernodesStandOut(l: Listing, sqrt: real -> real)
    requires IsSqrt(sqrt)
    ensures AreSupernodes(l, Supernodes(l, sqrt))
  {
    hide IsSqrt, IsOutlier, StandsOut, Outliers, Degrees;
    var n, at := |l.entities|, Supernodes(l, sqrt);
    if n >= 4 {
      OutliersArePositions(Degrees(l), sqrt, n);
      assert at == Outliers(Degrees(l), sqrt, n);
      forall i: nat | i < n ensures i in at <==> StandsOut(l, i) {
        OutlierStandsOut(l, sqrt, i);
      }
    } else {
      assert at == [];
    }
  }

  // ---------------------------------------------------------------- the bound is sharp

  const KINDS: seq<string> := ["IMPORTS", "CALLS", "DEPENDS_ON", "OWNS"]

  function Name(i: nat): Node {
    seq(i, _ => 'x')
  }

  /** n entities; the first k have an edge of each kind to an entity that was deleted, the others have none. */
  function Hubs(k: nat, n: nat): Listing {
    Listing(seq(n, i requires 0 <= i < n => Entity(Name(i), "SERVICE")), HubEdges(k))
  }

  function HubEdges(k: nat): seq<Relationship> {
    if k == 0 then []
    else
      var id := Name(k - 1);
      HubEdges(k - 1) + [Relationship(id, "-", KINDS[0])] + [Relationship(id, "-", KINDS[1])]
        + [Relationship(id, "-", KINDS[2])] + [Relationship(id, "-", KINDS[3])]
  }

  lemma DegreeSnoc(rels: seq<Relationship>, r: Relationship, id: Node)
    ensures Degree(rels + [r], id) == Degree(rels, id) + (if r.fromId == id then 1 else 0)
        + (if r.toId == id then 1 else 0)
  {
    assert (rels + [r])[..|rels|] == rels;
  }

  lemma NamesDiffer(i: nat, j: nat)
    ensures Name(i) == Name(j) <==> i == j
    ensures Name(i) != "-"
  {
    assert |Name(i)| == i && |Name(j)| == j;
    if i > 0 {
      assert Name(i)[0] == 'x';
    }
  }

  lemma {:induction false} HubDegree(k: nat, i: nat)
    ensures Degree(HubEdges(k), Name(i)) == if i < k then 4 else 0
  {
    if k > 0 {
      var id, rels := Name(k - 1), HubEdges(k - 1);
      HubDegree(k - 1, i);
      NamesDiffer(i, k - 1);
      hide Name, Degree;
      DegreeSnoc(rels, Relationship(id, "-", KINDS[0]), Name(i));
      rels := rels + [Relationship(id, "-", KINDS[0])];
      DegreeSnoc(rels, Relationship(id, "-", KINDS[1]), Name(i));
      rels := rels + [Relationship(id, "-", KINDS[1])];
      DegreeSnoc(rels, Relationship(id, "-", KINDS[2]), Name(i));
      rels := rels + [Relationship(id, "-", KINDS[2])];
      DegreeSnoc(rels, Relationship(id, "-", KINDS[3]), Name(i));
    }
  }

  /** Degree 4 for the first k, none for the others. */
  lemma HubDegrees(k: nat, n: nat)
    requires k <= n
    ensures forall i :: 0 <= i < n ==> Degrees(Hubs(k, n))[i] == if i < k then 4.0 else 0.0
  {
    hide Degree, HubEdges;
    forall i | 0 <= i < n ensures Degrees(Hubs(k, n))[i] == if i < k then 4.0 else 0.0 {
      HubDegree(k, i);
    }
  }

  lemma {:induction false} TwoLevelSums(xs: seq<real>, k: nat, j: nat)
    requires k <= |xs| && j <= |xs| && forall i :: 0 <= i < |xs| ==> xs[i] == if i < k then 4.0 else 0.0
    ensures Sum(xs[..j]) == 4.0 * (if j < k then j else k) as real
    ensures SumSq(xs[..j]) == 16.0 * (if j < k then j else k) as real
  {
    if j > 0 {
      TwoLevelSums(xs, k, j - 1);
      assert xs[..j][..j - 1] == xs[..j - 1];
    }
  }

  /** A variance of 16 q - (4 q)^2 keeps four sigma below 4 - 4 q when 17 q < 1. */
  lemma FourSigmaBelow(q: real, s: real)
    requires 0.0 < q && 17.0 * q < 1.0 && s >= 0.0 && s * s == 16.0 * q - (4.0 * q) * (4.0 * q)
    ensures 4.0 * q + 4.0 * s < 4.0
  {
    var u := 1.0 - q;
    assert s * s == 16.0 * (q * u);
    assert 16.0 * q < u;
    assert (u - 16.0 * q) * u > 0.0;
    assert s * s < u * u;
    assert u * s == s * u;
    if s >= u {
      Scale(u, u, s);
      Scale(s, u, s);
      assert false;
    }
  }

  lemma Ratio(k: real, n: real)
    requires k > 0.0 && 17.0 * k < n
    ensures 0.0 < k / n && 17.0 * (k / n) < 1.0 && 4.0 * k / n == 4.0 * (k / n) && 16.0 * k / n == 16.0 * (k / n)
    ensures 16.0 * (k / n) - (4.0 * (k / n)) * (4.0 * (k / n)) > 0.0
  {
    var q := k / n;
    var qn := n * q;
    assert qn == k;
    assert n * 0.0 == 0.0 && n * (17.0 * q) == 17.0 * qn;
    if q <= 0.0 {
      Scale(n, q, 0.0);
      assert false;
    }
    if 17.0 * q >= 1.0 {
      Scale(n, 1.0, 17.0 * q);
      assert false;
    }
    assert q * (1.0 - q) > 0.0;
  }

  /** Two levels, few enough on the upper one: exactly those are outliers. */
  lemma UpperLevelOut(xs: seq<real>, k: nat, sqrt: real -> real, i: nat)
    requires IsSqrt(sqrt) && 0 < 17 * k < |xs| && i < |xs|
    requires forall j :: 0 <= j < |xs| ==> xs[j] == if j < k then 4.0 else 0.0
    ensures IsOutlier(xs, sqrt, i) <==> i < k
  {
    var n, q := |xs| as real, k as real / |xs| as real;
    TwoLevelSums(xs, k, |xs|);
    assert xs[..|xs|] == xs;
    Ratio(k as real, n);
    hide Sum, SumSq;
    assert Mean(xs) == 4.0 * q;
    var v := Variance(xs);
    assert v == 16.0 * q - (4.0 * q) * (4.0 * q);
    FourSigmaBelow(q, sqrt(v));
  }

  lemma {:induction false} OutliersAre(xs: seq<real>, k: nat, sqrt: real -> real, j: nat)
    requires IsSqrt(sqrt) && 0 < 17 * k < |xs| && j <= |xs|
    requires forall i :: 0 <= i < |xs| ==> xs[i] == if i < k then 4.0 else 0.0
    ensures |Outliers(xs, sqrt, j)| == if j < k then j else k
  {
    hide IsOutlier, IsSqrt;
    if j > 0 {
      OutliersAre(xs, k, sqrt, j - 1);
      UpperLevelOut(xs, k, sqrt, j - 1);
    }
  }

  /** The bound is sharp for every k: among 17 k + 1 entities, k hubs are all reported. */
  lemma HubsAreReported(k: nat, sqrt: real -> real)
    requires k > 0 && IsSqrt(sqrt)
    ensures |Hubs(k, 17 * k + 1).entities| == 17 * k + 1
    ensures |Supernodes(Hubs(k, 17 * k + 1), sqrt)| == k
  {
    hide IsSqrt, Outliers, HubEdges;
    var n := 17 * k + 1;
    HubDegrees(k, n);
    OutliersAre(Degrees(Hubs(k, n)), k, sqrt, n);
  }

  // ---------------------------------------------------------------- shared databases

  /** The listed entity of an id; the last one wins. */
  function Index(es: seq<Entity>): map<Node, Entity> {
    if es == [] then map[] else Index(es[..|es| - 1])[es[|es| - 1].id := es[|es| - 1]]
  }

  predicate IsAccess(l: Listing, r: Relationship) {
    && (r.kind == "READS_FROM" || r.kind == "WRITES_TO")
    && r.fromId in Index(l.entities) && Index(l.entities)[r.fromId].kind == "SERVICE"
  }

  /** Listed, and a service by the last entry of that id. */
  ghost predicate IsService(l: Listing, id: Node) {
    exists i :: ServiceAt(l, id, i)
  }

  ghost predicate ServiceAt(l: Listing, id: Node, i: int) {
    && 0 <= i < |l.entities| && l.entities[i].id == id && l.entities[i].kind == "SERVICE"
    && forall k :: i < k < |l.entities| ==> l.entities[k].id != id
  }

  /** A listed service reads from the table or writes to it. */
  ghost predicate Accesses(l: Listing, rels: seq<Relationship>, service: Node, table: Node) {
    && IsService(l, service)
    && exists r :: r in rels && r.fromId == service && r.toId == table
         && (r.kind == "READS_FROM" || r.kind == "WRITES_TO")
  }

  lemma {:induction false} IndexFinds(es: seq<Entity>, id: Node)
    ensures id in Index(es) <==> exists i :: 0 <= i < |es| && es[i].id == id
    ensures forall i :: 0 <= i < |es| && es[i].id == id && (forall k :: i < k < |es| ==> es[k].id != id) ==>
        id in Index(es) && Index(es)[id] == es[i]
  {
    if es != [] {
      var init := es[..|es| - 1];
      IndexFinds(init, id);
      assert forall i :: 0 <= i < |init| ==> init[i] == es[i];
    }
  }

  lemma LastOf(es: seq<Entity>, id: Node) returns (i: nat)
    requires exists i :: 0 <= i < |es| && es[i].id == id
    ensures i < |es| && es[i].id == id && forall k :: i < k < |es| ==> es[k].id != id
  {
    i := |es| - 1;
    while es[i].id != id
      invariant i < |es| && forall k :: i < k < |es| ==> es[k].id != id
      decreases i
    {
      i := i - 1;
    }
  }

  /** What the rule looks for in one relationship. */
  lemma IsAccessIff(l: Listing, r: Relationship)
    ensures IsAccess(l, r) <==> IsService(l, r.fromId) && (r.kind == "READS_FROM" || r.kind == "WRITES_TO")
  {
    hide Index;
    IndexFinds(l.entities, r.fromId);
    if IsService(l, r.fromId) {
      var i :| ServiceAt(l, r.fromId, i);
    }
    if IsAccess(l, r) {
      var i := LastOf(l.entities, r.fromId);
      assert ServiceAt(l, r.fromId, i);
    }
  }

  method IndexEntities(es: seq<Entity>) returns (index: map<Node, Entity>)
    ensures index == Index(es)
  {
    index := map[];
    for k := 0 to |es|
      invariant index == Index(es[..k])
    {
      assert es[..k + 1][..k] == es[..k];
      index := index[es[k].id := es[k]];
    }
    assert es[..|es|] == es;
  }

  ghost predicate Gathered(l: Listing, rels: seq<Relationship>, access: map<Node, seq<Node>>) {
    && (forall t, s :: t in access && s in access[t] ==> Accesses(l, rels, s, t))
    && (forall t, s :: Accesses(l, rels, s, t) ==> t in access && s in access[t])
  }

  lemma AccessesSnoc(l: Listing, rels: seq<Relationship>, r: Relationship, s: Node, t: Node)
    ensures Accesses(l, rels + [r], s, t)
        <==> Accesses(l, rels, s, t) || (IsAccess(l, r) && r.fromId == s && r.toId == t)
  {
    hide IsAccess, IsService;
    IsAccessIff(l, r);
    var more := rels + [r];
    assert forall x :: x in more <==> x in rels || x == r;
  }

  function WithAccess(access: map<Node, seq<Node>>, r: Relationship): map<Node, seq<Node>> {
    access[r.toId := (if r.toId in access then access[r.toId] else []) + [r.fromId]]
  }

  /** One relationship either is an access and is recorded, or changes nothing. */
  lemma GatherNext(l: Listing, rels: seq<Relationship>, r: Relationship, access: map<Node, seq<Node>>)
    requires Gathered(l, rels, access)
    ensures Gathered(l, rels + [r], if IsAccess(l, r) then WithAccess(access, r) else access)
  {
    hide Accesses, IsAccess;
    var next := if IsAccess(l, r) then WithAccess(access, r) else access;
    forall s, t
      ensures Accesses(l, rels + [r], s, t)
          <==> Accesses(l, rels, s, t) || (IsAccess(l, r) && r.fromId == s && r.toId == t)
    {
      AccessesSnoc(l, rels, r, s, t);
    }
    forall s, t ensures Accesses(l, rels + [r], s, t) <==> t in next && s in next[t] {
      assert Accesses(l, rels, s, t) <==> t in access && s in access[t];
    }
  }

  /** Which services access each table, with repetitions. */
  method GatherAccess(l: Listing, index: map<Node, Entity>) returns (access: map<Node, seq<Node>>)
    requires index == Index(l.entities)
    ensures Gathered(l, l.relationships, access)
  {
    hide Index, Accesses, WithAccess;
    access := map[];
    assert Gathered(l, [], access) by { NoAccess(l); }
    hide Gathered;
    for k := 0 to |l.relationships|
      invariant Gathered(l, l.relationships[..k], access)
    {
      var r := l.relationships[k];
      assert l.relationships[..k + 1] == l.relationships[..k] + [r];
      GatherNext(l, l.relationships[..k], r, access);
      if r.kind != "READS_FROM" && r.kind != "WRITES_TO" {
        continue;
      }
      if r.fromId !in index || index[r.fromId].kind != "SERVICE" {
        continue;
      }
      access := WithAccess(access, r);
    }
    assert l.relationships[..|l.relationships|] == l.relationships;
  }

  lemma NoAccess(l: Listing)
    ensures forall s, t :: !Accesses(l, [], s, t)
  {
  }

  /** The smell names the table, then each service that accesses it exactly once. */
  ghost predicate Names(l: Listing, smell: Smell, table: Node) {
    && smell.kind == SharedDatabase && |smell.nodeIds| >= 3 && smell.nodeIds[0] == table
    && (forall i, j :: 1 <= i < j < |smell.nodeIds| ==> smell.nodeIds[i] != smell.nodeIds[j])
    && (forall s :: s in smell.nodeIds[1..] <==> Accesses(l, l.relationships, s, table))
  }

  ghost predicate Shared(l: Listing, table: Node) {
    exists s, s' :: s != s' && Accesses(l, l.relationships, s, table) && Accesses(l, l.relationships, s', table)
  }

  /** One smell for each table of the given ones that two different services access, and no others. */
  ghost predicate SharedAmong(l: Listing, tables: set<Node>, smells: seq<Smell>) {
    && (forall i :: 0 <= i < |smells| ==> smells[i].nodeIds != [] && smells[i].nodeIds[0] in tables)
    && (forall i :: 0 <= i < |smells| ==> Names(l, smells[i], smells[i].nodeIds[0]))
    && (forall i, j :: 0 <= i < j < |smells| ==> smells[i].nodeIds[0] != smells[j].nodeIds[0])
    && (forall t :: t in tables && Shared(l, t) ==> exists i :: 0 <= i < |smells| && smells[i].nodeIds[0] == t)
  }

  /** A table is reported exactly when two different services access it, and then once. */
  ghost predicate SharedExact(l: Listing, smells: seq<Smell>) {
    && (forall i :: 0 <= i < |smells| ==> smells[i].nodeIds != [] && Names(l, smells[i], smells[i].nodeIds[0]))
    && (forall i, j :: 0 <= i < j < |smells| ==> smells[i].nodeIds[0] != smells[j].nodeIds[0])
    && (forall t :: Shared(l, t) <==> exists i :: 0 <= i < |smells| && smells[i].nodeIds[0] == t)
  }

  /** The distinct members of a list, in any order. */
  method Distinct(xs: seq<Node>) returns (ys: seq<Node>)
    ensures forall i, j :: 0 <= i < j < |ys| ==> ys[i] != ys[j]
    ensures forall x :: x in ys <==> x in xs
  {
    ys := [];
    for k := 0 to |xs|
      invariant forall i, j :: 0 <= i < j < |ys| ==> ys[i] != ys[j]
      invariant forall x :: x in ys <==> x in xs[..k]
    {
      if xs[k] !in ys {
        ys := ys + [xs[k]];
      }
    }
  }

  /** The rule for one table. */
  method TableSmell(l: Listing, table: Node, accesses: seq<Node>) returns (smells: seq<Smell>)
    requires forall s :: s in accesses <==> Accesses(l, l.relationships, s, table)
    ensures smells == [] ==> !Shared(l, table)
    ensures smells != [] ==> |smells| == 1 && Names(l, smells[0], table)
  {
    hide Accesses;
    var services := Distinct(accesses);
    if |services| < 2 {
      return [];
    }
    smells := [Smell(SharedDatabase, [table] + services)];
    assert smells[0].nodeIds[1..] == services;
  }

  lemma NamedIsShared(l: Listing, smell: Smell, table: Node)
    requires Names(l, smell, table)
    ensures Shared(l, table)
  {
    hide Accesses;
    var ids := smell.nodeIds;
    assert ids[1..][0] == ids[1] && ids[1..][1] == ids[2];
    assert Accesses(l, l.relationships, ids[1], table) && Accesses(l, l.relationships, ids[2], table);
  }

  /** The shared database rule, over the tables in any order. */
  method SharedDatabaseSmells(l: Listing) returns (smells: seq<Smell>)
    ensures SharedExact(l, smells)
    ensures forall i :: 0 <= i < |smells| ==> smells[i].kind == SharedDatabase
  {
    hide Accesses, Index, Shared, Names;
    var index := IndexEntities(l.entities);
    var access := GatherAccess(l, index);
    smells := [];
    var rest := access.Keys;
    while rest != {}
      invariant rest <= access.Keys
      invariant SharedAmong(l, access.Keys - rest, smells)
      decreases |rest|
    {
      var table :| table in rest;
      ghost var seen, was := access.Keys - rest, smells;
      rest := rest - {table};
      assert access.Keys - rest == seen + {table};
      var found := TableSmell(l, table, access[table]);
      smells := smells + found;
      OneMoreTable(l, seen, was, table, found);
    }
    assert access.Keys - rest == access.Keys;
    AllTables(l, access, smells);
  }

  lemma OneMoreTable(l: Listing, seen: set<Node>, was: seq<Smell>, table: Node, found: seq<Smell>)
    requires SharedAmong(l, seen, was) && table !in seen
    requires found == [] ==> !Shared(l, table)
    requires found != [] ==> |found| == 1 && Names(l, found[0], table)
    ensures SharedAmong(l, seen + {table}, was + found)
  {
    hide Shared;
    var all := was + found;
    assert forall i :: 0 <= i < |was| ==> all[i] == was[i];
    if found != [] {
      assert all[|was|] == found[0] && found[0].nodeIds[0] == table by { NamesTable(l, found[0], table); }
      hide Names;
      assert forall i :: 0 <= i < |all| ==> i == |was| || all[i] == was[i];
    }
    hide Names;
    forall t | t in seen + {table} && Shared(l, t) ensures exists i :: 0 <= i < |all| && all[i].nodeIds[0] == t {
      if t != table {
        var i :| 0 <= i < |was| && was[i].nodeIds[0] == t;
        assert all[i].nodeIds[0] == t;
      }
    }
  }

  lemma NamesTable(l: Listing, smell: Smell, table: Node)
    requires Names(l, smell, table)
    ensures smell.nodeIds != [] && smell.nodeIds[0] == table
  {
  }

  lemma AllTables(l: Listing, access: map<Node, seq<Node>>, smells: seq<Smell>)
    requires Gathered(l, l.relationships, access) && SharedAmong(l, access.Keys, smells)
    ensures SharedExact(l, smells)
    ensures forall i :: 0 <= i < |smells| ==> smells[i].kind == SharedDatabase
  {
    hide Accesses;
    forall t ensures Shared(l, t) <==> exists i :: 0 <= i < |smells| && smells[i].nodeIds[0] == t {
      if Shared(l, t) {
        assert t in access;
      }
      forall i | 0 <= i < |smells| && smells[i].nodeIds[0] == t ensures Shared(l, t) {
        NamedIsShared(l, smells[i], t);
      }
    }
  }

  // ---------------------------------------------------------------- the audit

  /** The audit: all three rules over one listing. */
  method Audit(listing: Listing, sqrt: real -> real) returns (report: Report)
    requires IsSqrt(sqrt)
    ensures report.cyclesFound + report.supernodes <= |report.smells|
    ensures CyclesExact(AdjacencyOf(listing.relationships), report.smells[..report.cyclesFound])
    ensures ReportsAt(listing, Supernodes(listing, sqrt),
                      report.smells[report.cyclesFound..report.cyclesFound + report.supernodes])
    ensures ReportsSupernodes(listing, report.smells[report.cyclesFound..report.cyclesFound + report.supernodes])
    ensures SharedExact(listing, report.smells[report.cyclesFound + report.supernodes..])
    ensures report.supernodes > 0 ==> 17 * report.supernodes < |listing.entities| && |listing.entities| >= 18
  {
    hide CyclesExact, IsSqrt, Outliers, SharedExact, AreSupernodes;
    var adj := BuildAdjacency(listing.relationships);
    var cycles := CycleSmells(adj);
    var supers := SupernodeSmells(listing, sqrt);
    var shared := SharedDatabaseSmells(listing);
    SupernodesStandOut(listing, sqrt);
    if |listing.entities| >= 4 {
      SupernodeBound(Degrees(listing), sqrt);
    }
    report := Report(cycles + supers + shared, |cycles|, |supers|);
    var c, s := |cycles|, |cycles| + |supers|;
    assert report.smells[..c] == cycles && report.smells[c..s] == supers && report.smells[s..] == shared;
  }
}
