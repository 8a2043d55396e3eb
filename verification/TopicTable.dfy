/**
 * The table of contents in numbers: where every directory goes and what every topic holds, said of positions in the
 * listing alone.
 */
module TopicTable {
  import opened Wrappers
  import opened Sorting
  import opened Topics

  // ---------------------------------------------------------------- counting positions

  /** Where the listing has entities of a directory. */
  ghost function Listed(es: seq<Option<Entity>>, d: Dir): set<nat> {
    set i: nat | i < |es| && es[i].Some? && es[i].value.dir == d
  }

  /** The last entity of an id says where the id lives. */
  ghost predicate LastAt(es: seq<Option<Entity>>, id: Id, i: nat) {
    && i < |es| && es[i].Some? && es[i].value.id == id
    && forall k :: i < k < |es| && es[k].Some? ==> es[k].value.id != id
  }

  ghost predicate LivesIn(es: seq<Option<Entity>>, id: Id, d: Dir) {
    exists i: nat :: LastAt(es, id, i) && es[i].value.dir == d
  }

  /** One end lives in one directory, the other in the other. */
  ghost predicate Joins(es: seq<Option<Entity>>, r: Option<Relationship>, a: Dir, b: Dir) {
    && r.Some? && a != b
    && ((LivesIn(es, r.value.fromId, a) && LivesIn(es, r.value.toId, b))
        || (LivesIn(es, r.value.fromId, b) && LivesIn(es, r.value.toId, a)))
  }

  ghost function Joining(j: Job, a: Dir, b: Dir): set<nat> {
    set k: nat | k < |j.rels| && Joins(j.es, j.rels[k], a, b)
  }

  // ---------------------------------------------------------------- where a directory goes

  /** The order of names: a proper beginning comes first, and otherwise the first difference decides. */
  ghost predicate ByName(a: string, b: string) {
    a <= b || exists i :: DiffersAt(a, b, i)
  }

  ghost predicate DiffersAt(a: string, b: string, i: int) {
    0 <= i < |a| && i < |b| && a[..i] == b[..i] && a[i] < b[i]
  }

  ghost predicate IsLarge(j: Job, d: Dir) {
    |Listed(j.es, d)| >= j.minSize
  }

  /** A large directory other than misc with a relationship to d. */
  ghost predicate Attracts(j: Job, d: Dir, u: Dir) {
    u != "misc" && Listed(j.es, u) != {} && IsLarge(j, u) && Joining(j, d, u) != {}
  }

  /** No large directory has more relationships to d, and none with as many has an earlier name. */
  ghost predicate AttractsMost(j: Job, d: Dir, t: Dir) {
    && Attracts(j, d, t)
    && forall u :: Attracts(j, d, u) ==> !Outdoes(j, d, u, t)
  }

  ghost predicate Outdoes(j: Job, d: Dir, u: Dir, t: Dir) {
    || |Joining(j, d, u)| > |Joining(j, d, t)|
    || (|Joining(j, d, u)| == |Joining(j, d, t)| && u != t && ByName(u, t))
  }

  /** misc and the large directories stay; a small one goes where it is drawn most, or to misc. */
  ghost predicate GoesTo(j: Job, d: Dir, t: Dir) {
    if d == "misc" || IsLarge(j, d) then t == d
    else if exists u :: Attracts(j, d, u) then AttractsMost(j, d, t)
    else t == "misc"
  }

  // ---------------------------------------------------------------- the cap

  /** The positions whose directory goes to t. */
  ghost function Folded(j: Job, t: Dir): set<nat> {
    set i: nat | i < |j.es| && j.es[i].Some? && GoesTo(j, j.es[i].value.dir, t)
  }

  /** u is in use and comes before t: larger, or as large with an earlier name. */
  ghost predicate Before(j: Job, u: Dir, t: Dir) {
    && u != t && Folded(j, u) != {}
    && (|Folded(j, u)| > |Folded(j, t)| || (|Folded(j, u)| == |Folded(j, t)| && ByName(u, t)))
  }

  /** Fewer than the maximal number come before t. */
  ghost predicate Stays(j: Job, t: Dir) {
    exists s: set<Dir> :: (forall u :: u in s <==> Before(j, u, t)) && |s| < j.maxTopics
  }

  ghost predicate PlacedAt(j: Job, d: Dir, t: Dir) {
    exists h :: GoesTo(j, d, h) && t == if Stays(j, h) then h else "misc"
  }

  ghost function Holding(j: Job, t: Dir): set<nat> {
    set i: nat | i < |j.es| && j.es[i].Some? && PlacedAt(j, j.es[i].value.dir, t)
  }

  ghost function HoldingId(j: Job, t: Dir, id: Id): set<nat> {
    set i: nat | i < |j.es| && j.es[i].Some? && PlacedAt(j, j.es[i].value.dir, t) && j.es[i].value.id == id
  }

  // ---------------------------------------------------------------- the table

  /** a may stand before b: misc comes last, otherwise the larger first, and by name among equals. */
  ghost predicate MayPrecede(a: Topic, b: Topic) {
    || b.dir == "misc"
    || (a.dir != "misc" && |a.entityIds| > |b.entityIds|)
    || (a.dir != "misc" && |a.entityIds| == |b.entityIds| && ByName(a.dir, b.dir))
  }

  /** One topic for each place in use, holding its ids as often as the listing does, all in order. */
  ghost predicate Tabulates(j: Job, topics: seq<Topic>) {
    && (forall i, k :: 0 <= i < k < |topics| ==>
          topics[i].dir != topics[k].dir && MayPrecede(topics[i], topics[k]))
    && (forall t :: Holding(j, t) != {} <==> HasTopic(topics, t))
    && (forall i :: 0 <= i < |topics| ==> HoldsIds(j, topics[i]))
  }

  ghost predicate HoldsIds(j: Job, topic: Topic) {
    && (forall i, k :: 0 <= i < k < |topic.entityIds| ==> ByName(topic.entityIds[i], topic.entityIds[k]))
    && (forall id :: multiset(topic.entityIds)[id] == |HoldingId(j, topic.dir, id)|)
  }

  /** The job the options stand for: topics of three, and at most twenty-five of them, unless said otherwise. */
  ghost function Asked(listing: Option<Listing>, opts: Options): Job {
    Job(if listing.Some? then listing.value.entities else [], if listing.Some? then listing.value.relationships else [],
        if opts.minTopicSize > 0 then opts.minTopicSize else 3, if opts.maxTopics > 0 then opts.maxTopics else 25)
  }

  // ---------------------------------------------------------------- names

  lemma {:induction false} ByNameIff(a: string, b: string)
    ensures ByName(a, b) <==> StrLeq(a, b)
  {
    if a != [] && b != [] && a[0] == b[0] {
      var a', b' := a[1..], b[1..];
      ByNameIff(a', b');
      assert a == [a[0]] + a' && b == [b[0]] + b';
      assert a <= b <==> a' <= b';
      if i :| DiffersAt(a, b, i) {
        assert i > 0 && a[..i][1..] == a'[..i - 1] && b[..i][1..] == b'[..i - 1];
        assert DiffersAt(a', b', i - 1);
      }
      if i :| DiffersAt(a', b', i) {
        assert a[..i + 1] == [a[0]] + a'[..i] && b[..i + 1] == [b[0]] + b'[..i];
        assert DiffersAt(a, b, i + 1);
      }
    } else if a != [] && b != [] {
      FirstDecides(a, b);
    }
  }

  lemma FirstDecides(a: string, b: string)
    requires a != [] && b != [] && a[0] != b[0]
    ensures ByName(a, b) <==> a[0] < b[0]
  {
    if a[0] < b[0] {
      assert DiffersAt(a, b, 0);
    }
    assert forall i :: 0 < i <= |a| && i <= |b| ==> a[..i][0] == a[0] && b[..i][0] == b[0];
  }

  // ---------------------------------------------------------------- counts

  ghost function Placed(es: seq<Option<Entity>>, place: map<Dir, Dir>, t: Dir): set<nat> {
    set i: nat | i < |es| && IdIn(es[i], place, t) != multiset{}
  }

  ghost function PlacedId(es: seq<Option<Entity>>, place: map<Dir, Dir>, t: Dir, id: Id): set<nat> {
    set i: nat | i < |es| && id in IdIn(es[i], place, t)
  }

  lemma PlacedSnoc(es: seq<Option<Entity>>, e: Option<Entity>, place: map<Dir, Dir>, t: Dir)
    ensures Placed(es + [e], place, t)
         == Placed(es, place, t) + if IdIn(e, place, t) != multiset{} then {|es|} else {}
    ensures |es| !in Placed(es, place, t)
  {
    hide IdIn;
    var all := es + [e];
    forall i: nat ensures i in Placed(all, place, t)
                     <==> i in Placed(es, place, t) || (i == |es| && IdIn(e, place, t) != multiset{}) {
      assert i < |es| ==> all[i] == es[i];
    }
  }

  lemma PlacedIdSnoc(es: seq<Option<Entity>>, e: Option<Entity>, place: map<Dir, Dir>, t: Dir, id: Id)
    ensures PlacedId(es + [e], place, t, id)
         == PlacedId(es, place, t, id) + if id in IdIn(e, place, t) then {|es|} else {}
    ensures |es| !in PlacedId(es, place, t, id)
  {
    hide IdIn;
    var all := es + [e];
    forall i: nat ensures i in PlacedId(all, place, t, id)
                     <==> i in PlacedId(es, place, t, id) || (i == |es| && id in IdIn(e, place, t)) {
      assert i < |es| ==> all[i] == es[i];
    }
  }

  lemma OneOrNone(e: Option<Entity>, place: map<Dir, Dir>, t: Dir, id: Id)
    ensures |IdIn(e, place, t)| == if IdIn(e, place, t) != multiset{} then 1 else 0
    ensures IdIn(e, place, t)[id] == if id in IdIn(e, place, t) then 1 else 0
  {
  }

  lemma {:induction false} IdsAreCounted(es: seq<Option<Entity>>, place: map<Dir, Dir>, t: Dir, id: Id)
    ensures |IdsIn(es, place, t)| == |Placed(es, place, t)|
    ensures IdsIn(es, place, t)[id] == |PlacedId(es, place, t, id)|
  {
    hide IdIn;
    if es == [] {
      assert Placed(es, place, t) == {} && PlacedId(es, place, t, id) == {};
    } else {
      var init, e := es[..|es| - 1], es[|es| - 1];
      IdsAreCounted(init, place, t, id);
      assert es == init + [e];
      PlacedSnoc(init, e, place, t);
      PlacedIdSnoc(init, e, place, t, id);
      OneOrNone(e, place, t, id);
      hide Placed, PlacedId;
    }
  }

  ghost function Crossing(rels: seq<Option<Relationship>>, dirs: map<Id, Dir>, a: Dir, b: Dir): set<nat> {
    set k: nat | k < |rels| && Crosses(dirs, rels[k], a, b)
  }

  lemma {:induction false} LinksAreCounted(rels: seq<Option<Relationship>>, dirs: map<Id, Dir>, a: Dir, b: Dir)
    ensures Cross(rels, dirs, a, b) == |Crossing(rels, dirs, a, b)|
  {
    hide Crosses;
    if rels == [] {
      assert Crossing(rels, dirs, a, b) == {};
    } else {
      var n := |rels| - 1;
      var init := rels[..n];
      LinksAreCounted(init, dirs, a, b);
      var was, now := Crossing(init, dirs, a, b), Crossing(rels, dirs, a, b);
      forall k: nat ensures k in now <==> k in was || (k == n && Crosses(dirs, rels[n], a, b)) {
        assert k < n ==> init[k] == rels[k];
      }
      assert now == if Crosses(dirs, rels[n], a, b) then was + {n} else was;
    }
  }

  lemma {:induction false} DirOfIs(es: seq<Option<Entity>>, id: Id, d: Dir)
    ensures LivesIn(es, id, d) <==> id in DirOf(es) && DirOf(es)[id] == d
  {
    if es != [] {
      var n := |es| - 1;
      var init, e := es[..n], es[n];
      DirOfIs(init, id, d);
      assert forall i :: 0 <= i < n ==> init[i] == es[i];
      if e.Some? && e.value.id == id {
        assert LastAt(es, id, n);
        assert forall i: nat :: LastAt(es, id, i) ==> i == n;
      } else {
        assert forall i: nat :: LastAt(es, id, i) <==> LastAt(init, id, i);
      }
    }
  }

  lemma JoiningIs(j: Job, a: Dir, b: Dir)
    ensures Joining(j, a, b) == Crossing(j.rels, DirOf(j.es), a, b) && |Joining(j, a, b)| == Links(j, a, b)
  {
    hide LivesIn, DirOf, Cross;
    LinksAreCounted(j.rels, DirOf(j.es), a, b);
    forall k: nat | k < |j.rels|
      ensures Joins(j.es, j.rels[k], a, b) <==> Crosses(DirOf(j.es), j.rels[k], a, b)
    {
      JoinsIff(j.es, j.rels[k], a, b);
    }
  }

  lemma JoinsIff(es: seq<Option<Entity>>, r: Option<Relationship>, a: Dir, b: Dir)
    ensures Joins(es, r, a, b) <==> Crosses(DirOf(es), r, a, b)
  {
    hide LivesIn, DirOf;
    if r.Some? {
      DirOfIs(es, r.value.fromId, a);
      DirOfIs(es, r.value.fromId, b);
      DirOfIs(es, r.value.toId, a);
      DirOfIs(es, r.value.toId, b);
      var dirs := DirOf(es);
      if r.value.fromId in dirs && r.value.toId in dirs {
        SamePair(dirs[r.value.fromId], dirs[r.value.toId], a, b);
      }
    }
  }

  lemma SamePair(x: Dir, y: Dir, a: Dir, b: Dir)
    ensures x != y && {x, y} == {a, b} <==> a != b && ((x == a && y == b) || (x == b && y == a))
  {
    if {x, y} == {a, b} {
      assert a in {x, y} && b in {x, y} && x in {a, b} && y in {a, b};
    }
  }

  lemma DirIsListed(j: Job, i: nat)
    requires i < |j.es| && j.es[i].Some?
    ensures j.es[i].value.dir in Dirs(j.es)
  {
    assert j.es[i] in j.es;
  }

  lemma InIdIn(e: Option<Entity>, place: map<Dir, Dir>, t: Dir, id: Id)
    ensures IdIn(e, place, t) != multiset{} <==> e.Some? && e.value.dir in place && place[e.value.dir] == t
    ensures id in IdIn(e, place, t) <==>
            e.Some? && e.value.dir in place && place[e.value.dir] == t && e.value.id == id
  {
  }

  lemma ListedIs(j: Job, d: Dir)
    ensures Listed(j.es, d) == Placed(j.es, Identity(j.es), d)
    ensures |Listed(j.es, d)| == |IdsIn(j.es, Identity(j.es), d)|
    ensures Listed(j.es, d) != {} <==> d in Dirs(j.es)
  {
    hide IdsIn, IdIn, Dirs;
    forall i: nat | i < |j.es|
      ensures IdIn(j.es[i], Identity(j.es), d) != multiset{} <==> j.es[i].Some? && j.es[i].value.dir == d
    {
      InIdIn(j.es[i], Identity(j.es), d, "");
      if j.es[i].Some? {
        DirIsListed(j, i);
      }
    }
    hide Identity;
    IdsAreCounted(j.es, Identity(j.es), d, "");
    ListedInDirs(j.es, d);
  }

  lemma ListedInDirs(es: seq<Option<Entity>>, d: Dir)
    ensures Listed(es, d) != {} <==> d in Dirs(es)
  {
    if d in Dirs(es) {
      var e :| e in es && e.Some? && e.value.dir == d;
      var i: nat :| i < |es| && es[i] == e;
      assert i in Listed(es, d);
    }
    if i :| i in Listed(es, d) {
      assert es[i] in es;
    }
  }

  // ---------------------------------------------------------------- homes

  lemma AttractsIff(j: Job, d: Dir, u: Dir)
    ensures Attracts(j, d, u) <==> Candidate(j, d, u)
    ensures |Joining(j, d, u)| == Links(j, d, u)
  {
    hide Listed, Joining, Dirs, IdsIn, Links;
    ListedIs(j, u);
    JoiningIs(j, d, u);
  }

  lemma MostIsBest(j: Job, d: Dir, t: Dir)
    ensures AttractsMost(j, d, t) <==> BestNeighbor(j, d, t)
  {
    hide Attracts, Candidate, Joining, Links, ByName, StrLeq;
    forall u ensures (Attracts(j, d, u) <==> Candidate(j, d, u)) && |Joining(j, d, u)| == Links(j, d, u) {
      AttractsIff(j, d, u);
    }
    forall u ensures !Outdoes(j, d, u, t) <==> RankLeq(Links(j, d, t), t, Links(j, d, u), u) {
      ByNameIff(u, t);
      StrTotal(t, u);
      if StrLeq(t, u) && StrLeq(u, t) {
        StrAntisymmetric(t, u);
      }
    }
  }

  lemma BestIsOne(j: Job, d: Dir, t: Dir, u: Dir)
    requires BestNeighbor(j, d, t) && BestNeighbor(j, d, u)
    ensures t == u
  {
    hide Candidate, Links, RankLeq;
    RankIsOrder(Links(j, d, t), t, Links(j, d, u), u, 0, t);
  }

  /** Where a directory goes is its home. */
  lemma GoesHome(j: Job, d: Dir, t: Dir)
    requires d in Dirs(j.es)
    ensures GoesTo(j, d, t) <==> t == Home(j, d)
  {
    hide AttractsMost, BestNeighbor, Attracts, Candidate, Dirs, Listed, IdsIn;
    ListedIs(j, d);
    if d != MISC && !Large(j, d) {
      forall u ensures AttractsMost(j, d, u) <==> BestNeighbor(j, d, u) {
        MostIsBest(j, d, u);
      }
      forall u ensures Attracts(j, d, u) <==> Candidate(j, d, u) {
        AttractsIff(j, d, u);
      }
      if u :| Candidate(j, d, u) {
        var best := BestExists(j, d, u);
        forall x, y | BestNeighbor(j, d, x) && BestNeighbor(j, d, y) ensures x == y {
          BestIsOne(j, d, x, y);
        }
      } else {
        NoBest(j, d);
      }
    }
  }

  lemma NoBest(j: Job, d: Dir)
    requires forall u :: !Candidate(j, d, u)
    ensures forall t :: !BestNeighbor(j, d, t)
  {
  }

  /** Among finitely many candidates one is best. */
  lemma BestExists(j: Job, d: Dir, u: Dir) returns (t: Dir)
    requires Candidate(j, d, u)
    ensures BestNeighbor(j, d, t)
  {
    hide Large, Links;
    t := u;
    var rest := Dirs(j.es);
    while rest != {}
      invariant Candidate(j, d, t) && rest <= Dirs(j.es)
      invariant forall x :: Candidate(j, d, x) && x !in rest ==> RankLeq(Links(j, d, t), t, Links(j, d, x), x)
      decreases |rest|
    {
      var x :| x in rest;
      rest := rest - {x};
      Better(j, d, t, x);
      var was := t;
      if Candidate(j, d, x) && !RankLeq(Links(j, d, t), t, Links(j, d, x), x) {
        t := x;
      }
      StillBest(j, d, was, t, x, rest);
    }
  }

  lemma Better(j: Job, d: Dir, t: Dir, x: Dir)
    ensures RankLeq(Links(j, d, t), t, Links(j, d, x), x) || RankLeq(Links(j, d, x), x, Links(j, d, t), t)
    ensures RankLeq(Links(j, d, x), x, Links(j, d, x), x)
  {
    hide RankLeq, Links;
    RankIsOrder(Links(j, d, t), t, Links(j, d, x), x, 0, t);
    RankIsOrder(Links(j, d, x), x, Links(j, d, x), x, 0, t);
  }

  lemma StillBest(j: Job, d: Dir, was: Dir, t: Dir, x: Dir, rest: set<Dir>)
    requires forall y :: Candidate(j, d, y) && y !in rest && y != x ==>
               RankLeq(Links(j, d, was), was, Links(j, d, y), y)
    requires t == was || (t == x && RankLeq(Links(j, d, x), x, Links(j, d, was), was))
    requires Candidate(j, d, x) ==> RankLeq(Links(j, d, t), t, Links(j, d, x), x)
    ensures forall y :: Candidate(j, d, y) && y !in rest ==> RankLeq(Links(j, d, t), t, Links(j, d, y), y)
  {
    hide RankLeq, Links, Candidate;
    forall y | Candidate(j, d, y) && y !in rest ensures RankLeq(Links(j, d, t), t, Links(j, d, y), y) {
      if y != x {
        RankIsOrder(Links(j, d, t), t, Links(j, d, was), was, Links(j, d, y), y);
      }
    }
  }

  // ---------------------------------------------------------------- places

  lemma FoldedIs(j: Job, t: Dir)
    ensures Folded(j, t) == Placed(j.es, Homes(j), t) && |Folded(j, t)| == HomeSize(j, t)
    ensures Folded(j, t) != {} <==> t in Homes(j).Values
  {
    hide GoesTo, Home, IdIn, IdsIn, Dirs;
    forall i: nat | i < |j.es|
      ensures j.es[i].Some? && GoesTo(j, j.es[i].value.dir, t) <==> IdIn(j.es[i], Homes(j), t) != multiset{}
    {
      InIdIn(j.es[i], Homes(j), t, "");
      if j.es[i].Some? {
        DirIsListed(j, i);
        GoesHome(j, j.es[i].value.dir, t);
      }
    }
    IdsAreCounted(j.es, Homes(j), t, "");
    InUse(j.es, Homes(j), Dirs(j.es), t);
  }

  lemma InUse(es: seq<Option<Entity>>, place: map<Dir, Dir>, dirs: set<Dir>, t: Dir)
    requires place.Keys == dirs == Dirs(es)
    ensures Placed(es, place, t) != {} <==> t in place.Values
  {
    hide IdIn;
    if t in place.Values {
      var d :| d in place && place[d] == t;
      var e :| e in es && e.Some? && e.value.dir == d;
      var i: nat :| i < |es| && es[i] == e;
      InIdIn(es[i], place, t, "");
      assert i in Placed(es, place, t);
    }
    if i :| i in Placed(es, place, t) {
      InIdIn(es[i], place, t, "");
    }
  }

  lemma BeforeIff(j: Job, u: Dir, t: Dir)
    ensures Before(j, u, t) <==> u in Ahead(j, t)
  {
    hide Folded, HomeSize, Homes, ByName, StrLeq;
    FoldedIs(j, u);
    FoldedIs(j, t);
    ByNameIff(u, t);
  }

  lemma StaysIff(j: Job, t: Dir)
    ensures Stays(j, t) <==> Kept(j, t)
  {
    hide Before, Ahead;
    forall u ensures Before(j, u, t) <==> u in Ahead(j, t) {
      BeforeIff(j, u, t);
    }
    if s: set<Dir> :| (forall u :: u in s <==> Before(j, u, t)) && |s| < j.maxTopics {
      assert s == Ahead(j, t);
    }
  }

  lemma PlacedAtIff(j: Job, d: Dir, t: Dir)
    requires d in Dirs(j.es)
    ensures PlacedAt(j, d, t) <==> t == Places(j)[d]
  {
    hide GoesTo, Home, Stays, Kept, Dirs;
    StaysIff(j, Home(j, d));
    forall h ensures GoesTo(j, d, h) <==> h == Home(j, d) {
      GoesHome(j, d, h);
    }
  }

  lemma HoldingIs(j: Job, t: Dir, id: Id)
    ensures Holding(j, t) == Placed(j.es, Places(j), t)
    ensures HoldingId(j, t, id) == PlacedId(j.es, Places(j), t, id)
    ensures Holding(j, t) != {} <==> t in Places(j).Values
  {
    hide PlacedAt, Places, IdIn, Dirs;
    PlacesKeys(j);
    forall i: nat | i < |j.es|
      ensures j.es[i].Some? && PlacedAt(j, j.es[i].value.dir, t) <==> IdIn(j.es[i], Places(j), t) != multiset{}
      ensures j.es[i].Some? && PlacedAt(j, j.es[i].value.dir, t) && j.es[i].value.id == id
         <==> id in IdIn(j.es[i], Places(j), t)
    {
      InIdIn(j.es[i], Places(j), t, id);
      if j.es[i].Some? {
        DirIsListed(j, i);
        PlacedAtIff(j, j.es[i].value.dir, t);
      }
    }
    InUse(j.es, Places(j), Dirs(j.es), t);
  }

  lemma PlacesKeys(j: Job)
    ensures Places(j).Keys == Dirs(j.es)
  {
    hide Home, Kept, Dirs;
  }

  // ---------------------------------------------------------------- the theorem

  lemma HoldsInNumbers(j: Job, topic: Topic)
    requires Holds(j, topic)
    ensures HoldsIds(j, topic)
  {
    hide Holding, HoldingId, IdsIn, Places, StrLeq, ByName;
    forall i, k | 0 <= i < k < |topic.entityIds| ensures ByName(topic.entityIds[i], topic.entityIds[k]) {
      ByNameIff(topic.entityIds[i], topic.entityIds[k]);
    }
    forall id ensures multiset(topic.entityIds)[id] == |HoldingId(j, topic.dir, id)| {
      HoldingIs(j, topic.dir, id);
      IdsAreCounted(j.es, Places(j), topic.dir, id);
    }
  }

  lemma PrecedesInNumbers(a: Topic, b: Topic)
    requires TopicLeq(a, b)
    ensures MayPrecede(a, b)
  {
    hide StrLeq, ByName;
    ByNameIff(a.dir, b.dir);
  }

  lemma JobIsAsked(listing: Option<Listing>, opts: Options)
    ensures JobOf(listing, opts) == Asked(listing, opts)
  {
  }

  /** What a segmentation is, counted in the listing: every table of contents the options ask for is this one. */
  lemma SegmentationTabulates(listing: Option<Listing>, opts: Options, topics: seq<Topic>)
    requires IsSegmentation(JobOf(listing, opts), topics)
    ensures Tabulates(Asked(listing, opts), topics)
  {
    hide Holds, HoldsIds, Places, Holding, TopicLeq, MayPrecede, HasTopic, StrLeq;
    JobIsAsked(listing, opts);
    var j := JobOf(listing, opts);
    forall i, k | 0 <= i < k < |topics|
      ensures topics[i].dir != topics[k].dir && MayPrecede(topics[i], topics[k])
    {
      PrecedesInNumbers(topics[i], topics[k]);
    }
    forall t ensures Holding(j, t) != {} <==> HasTopic(topics, t) {
      HoldingIs(j, t, "");
      TopicIsPlace(j, topics, t);
    }
    forall i | 0 <= i < |topics| ensures HoldsIds(j, topics[i]) {
      HoldsInNumbers(j, topics[i]);
    }
  }

  lemma TopicIsPlace(j: Job, topics: seq<Topic>, t: Dir)
    requires IsSegmentation(j, topics)
    ensures HasTopic(topics, t) <==> t in Places(j).Values
  {
    hide Places, Holds, TopicLeq;
  }
}
