/** What the wiki's table of contents guarantees: a determined partition of the entities, bounded and ordered. */
module TopicLaws {
  import opened Wrappers
  import opened Sorting
  import opened Topics

  /** The table of contents depends on nothing but the listing and the options: map iteration order cannot show. */
  lemma SegmentationIsDetermined(j: Job, a: seq<Topic>, b: seq<Topic>)
    requires IsSegmentation(j, a) && IsSegmentation(j, b)
    ensures a == b
  {
    hide Places, IdsIn, TopicLeq, StrLeq, SortedBy, Holds;
    forall i | 0 <= i < |a| ensures a[i] in b {
      FoundInBoth(j, a, b, i);
    }
    forall i | 0 <= i < |b| ensures b[i] in a {
      FoundInBoth(j, b, a, i);
    }
    forall x ensures multiset(a)[x] == multiset(b)[x] {
      OncePerDir(a, x);
      OncePerDir(b, x);
      assert x in a <==> x in multiset(a);
      assert x in b <==> x in multiset(b);
    }
    assert multiset(a) == multiset(b);
    forall i, k | 0 <= i < |a| && 0 <= k < |a| && TopicLeq(a[i], a[k]) && TopicLeq(a[k], a[i]) ensures a[i] == a[k] {
      SameDir(a[i], a[k]);
    }
    assert NoTies(a, TopicLeq);
    TopicLeqIsPreorder();
    SortedIsUnique(a, b, TopicLeq);
  }

  lemma SameDir(x: Topic, y: Topic)
    requires TopicLeq(x, y) && TopicLeq(y, x)
    ensures x.dir == y.dir
  {
    hide RankLeq;
    RankIsOrder(|x.entityIds|, x.dir, |y.entityIds|, y.dir, 0, x.dir);
  }

  lemma FoundInBoth(j: Job, a: seq<Topic>, b: seq<Topic>, i: nat)
    requires IsSegmentation(j, a) && IsSegmentation(j, b) && i < |a|
    ensures a[i] in b
  {
    hide Places, IdsIn, TopicLeq, SortedBy, StrLeq;
    assert HasTopic(b, a[i].dir);
    var k :| 0 <= k < |b| && b[k].dir == a[i].dir;
    assert Holds(j, a[i]) && Holds(j, b[k]);
    StrIsPreorder();
    forall x, y | StrLeq(x, y) && StrLeq(y, x) ensures x == y {
      StrAntisymmetric(x, y);
    }
    SortedIsUnique(a[i].entityIds, b[k].entityIds, StrLeq);
  }

  ghost function AllIds(es: seq<Option<Entity>>): multiset<Id> {
    if es == [] then multiset{}
    else
      var e := es[|es| - 1];
      AllIds(es[..|es| - 1]) + if e.Some? then multiset{e.value.id} else multiset{}
  }

  /** All the ids of the table of contents together. */
  ghost function Union(topics: seq<Topic>): multiset<Id> {
    if topics == [] then multiset{} else multiset(topics[0].entityIds) + Union(topics[1..])
  }

  ghost function SumOver(es: seq<Option<Entity>>, place: map<Dir, Dir>, topics: seq<Topic>): multiset<Id> {
    if topics == [] then multiset{} else IdsIn(es, place, topics[0].dir) + SumOver(es, place, topics[1..])
  }

  /** Segmentation is a partition: together the topics hold every entity id, as often as the listing does. */
  lemma TopicsPartitionIds(j: Job, topics: seq<Topic>)
    requires IsSegmentation(j, topics)
    ensures Union(topics) == AllIds(j.es)
  {
    hide IdsIn, SumOver, Union, AllIds, TopicLeq, SortedBy, Home, Kept;
    UnionIsSum(j, topics);
    forall d | d in Dirs(j.es) ensures HasTopic(topics, Places(j)[d]) {
      assert Places(j)[d] in Places(j).Values;
    }
    SumIsAll(j.es, Places(j), topics);
  }

  lemma {:induction false} UnionIsSum(j: Job, topics: seq<Topic>)
    requires forall i :: 0 <= i < |topics| ==> Holds(j, topics[i])
    ensures Union(topics) == SumOver(j.es, Places(j), topics)
  {
    hide IdsIn, Places, SortedBy;
    if topics != [] {
      assert Holds(j, topics[0]);
      UnionIsSum(j, topics[1..]);
    }
  }

  lemma {:induction false} SumIsAll(es: seq<Option<Entity>>, place: map<Dir, Dir>, topics: seq<Topic>)
    requires forall i, k :: 0 <= i < k < |topics| ==> topics[i].dir != topics[k].dir
    requires forall d :: d in Dirs(es) ==> d in place && HasTopic(topics, place[d])
    ensures SumOver(es, place, topics) == AllIds(es)
  {
    if es == [] {
      SumOfNobody(place, topics);
    } else {
      var init, e := es[..|es| - 1], es[|es| - 1];
      assert forall d :: d in Dirs(init) ==> d in Dirs(es);
      SumIsAll(init, place, topics);
      assert es == init + [e];
      if e.Some? {
        assert e.value.dir in Dirs(es);
      }
      SumGrows(init, e, place, topics);
    }
  }

  lemma {:induction false} SumOfNobody(place: map<Dir, Dir>, topics: seq<Topic>)
    ensures SumOver([], place, topics) == multiset{}
  {
    if topics != [] {
      SumOfNobody(place, topics[1..]);
    }
  }

  /** One more entity adds its id to exactly one topic. */
  lemma {:induction false} SumGrows(es: seq<Option<Entity>>, e: Option<Entity>, place: map<Dir, Dir>,
                                    topics: seq<Topic>)
    requires forall i, k :: 0 <= i < k < |topics| ==> topics[i].dir != topics[k].dir
    ensures SumOver(es + [e], place, topics) == SumOver(es, place, topics)
      + if e.Some? && e.value.dir in place && HasTopic(topics, place[e.value.dir])
        then multiset{e.value.id} else multiset{}
  {
    hide IdsIn;
    if topics != [] {
      IdsInSnoc(es, e, place, topics[0].dir);
      SumGrows(es, e, place, topics[1..]);
      if e.Some? && e.value.dir in place {
        HasTopicTail(topics, place[e.value.dir]);
      }
    }
  }

  lemma HasTopicTail(topics: seq<Topic>, t: Dir)
    requires topics != []
    ensures HasTopic(topics, t) <==> topics[0].dir == t || HasTopic(topics[1..], t)
  {
    if HasTopic(topics, t) && topics[0].dir != t {
      var i :| 0 <= i < |topics| && topics[i].dir == t;
      assert topics[1..][i - 1].dir == t;
    }
    if HasTopic(topics[1..], t) {
      var i :| 0 <= i < |topics[1..]| && topics[1..][i].dir == t;
      assert topics[i + 1].dir == t;
    }
  }

  /** This topic holds the id, once, and no other topic holds it. */
  ghost predicate LandsIn(topics: seq<Topic>, id: Id, i: int) {
    && 0 <= i < |topics| && multiset(topics[i].entityIds)[id] == 1
    && forall k :: 0 <= k < |topics| && k != i ==> id !in topics[k].entityIds
  }

  /** An id listed once lands in exactly one topic, once. */
  lemma ListedOnceLandsOnce(j: Job, topics: seq<Topic>, id: Id)
    requires IsSegmentation(j, topics) && AllIds(j.es)[id] == 1
    ensures exists i :: LandsIn(topics, id, i)
  {
    hide IsSegmentation, AllIds, Union;
    TopicsPartitionIds(j, topics);
    LandsOnce(topics, id);
  }

  lemma {:induction false} LandsOnce(topics: seq<Topic>, id: Id)
    requires Union(topics)[id] == 1
    ensures exists i :: LandsIn(topics, id, i)
  {
    var rest := topics[1..];
    assert forall k :: 0 <= k < |rest| ==> rest[k] == topics[k + 1];
    if id in topics[0].entityIds {
      assert id in multiset(topics[0].entityIds);
      forall k | 0 < k < |topics| ensures id !in topics[k].entityIds {
        if id in rest[k - 1].entityIds {
          UnionHolds(rest, k - 1, id);
        }
      }
      assert LandsIn(topics, id, 0);
    } else {
      assert id !in multiset(topics[0].entityIds);
      LandsOnce(rest, id);
      var i :| LandsIn(rest, id, i);
      forall k | 0 <= k < |topics| && k != i + 1 ensures id !in topics[k].entityIds {
        assert k > 0 ==> topics[k] == rest[k - 1];
      }
      assert LandsIn(topics, id, i + 1);
    }
  }

  lemma {:induction false} UnionHolds(topics: seq<Topic>, k: nat, id: Id)
    requires k < |topics| && id in topics[k].entityIds
    ensures Union(topics)[id] >= 1
  {
    if k == 0 {
      assert id in multiset(topics[0].entityIds);
    } else {
      UnionHolds(topics[1..], k - 1, id);
    }
  }

  /** Only misc may be small: folding leaves every other topic at or above the minimum size. */
  lemma TopicsAreLarge(j: Job, topics: seq<Topic>, i: nat)
    requires IsSegmentation(j, topics) && i < |topics| && topics[i].dir != MISC
    requires j.minSize > 0
    ensures |topics[i].entityIds| >= j.minSize
  {
    hide IdsIn, TopicLeq, SortedBy, Home, Kept, Large, Dirs;
    var t := topics[i].dir;
    assert Holds(j, topics[i]);
    var d :| d in Places(j) && Places(j)[d] == t;
    HomeIsStable(j, d);
    SmallGoesHome(j, d);
    HomeIsStable(j, t);
    assert Large(j, t) && Places(j)[t] == t;
    IdsInMono(j.es, Identity(j.es), Places(j), t);
    LargeMeans(j, t);
    assert |multiset(topics[i].entityIds)| == |topics[i].entityIds|;
  }

  lemma LargeMeans(j: Job, t: Dir)
    requires Large(j, t)
    ensures |IdsIn(j.es, Identity(j.es), t)| >= j.minSize
  {
  }

  lemma SmallGoesHome(j: Job, d: Dir)
    requires d in Dirs(j.es) && Home(j, d) != MISC
    ensures Large(j, Home(j, d)) && Home(j, d) in Dirs(j.es)
  {
    hide Large, Links, Dirs;
  }

  /** Sizes never rise along the table of contents until misc, which comes last if it comes at all. */
  lemma TopicsAreOrdered(j: Job, topics: seq<Topic>, i: nat, k: nat)
    requires IsSegmentation(j, topics) && i < k < |topics|
    ensures topics[i].dir != MISC
    ensures topics[k].dir == MISC ==> k == |topics| - 1
    ensures topics[k].dir != MISC ==> |topics[i].entityIds| >= |topics[k].entityIds|
  {
    hide Places, Holds, StrLeq;
    assert TopicLeq(topics[i], topics[k]);
    if k < |topics| - 1 {
      assert TopicLeq(topics[k], topics[k + 1]);
    }
  }

  /** How many topics come out: one more than the cap when misc has to be added. */
  ghost function TopicCount(j: Job): nat {
    var folded := Homes(j).Values;
    if |folded| <= j.maxTopics then |folded|
    else if MISC in folded && Kept(j, MISC) then j.maxTopics
    else j.maxTopics + 1
  }

  lemma OneTopicPerPlace(j: Job, topics: seq<Topic>)
    requires IsSegmentation(j, topics)
    ensures |topics| == |Places(j).Values|
  {
    hide Places, Holds, TopicLeq;
    var dirs := seq(|topics|, i requires 0 <= i < |topics| => topics[i].dir);
    forall t ensures t in Places(j).Values <==> t in dirs[..|dirs|] {
      assert dirs[..|dirs|] == dirs;
      if t in Places(j).Values {
        var i :| 0 <= i < |topics| && topics[i].dir == t;
        assert dirs[i] == t;
      }
    }
    SetOfPrefix(dirs, |dirs|, Places(j).Values);
  }

  lemma PlacesAre(j: Job, keys: seq<Dir>)
    requires |keys| > j.maxTopics && forall k :: k in keys <==> k in Homes(j).Values
    requires forall i, k :: 0 <= i < k < |keys| ==> keys[i] != keys[k]
    requires CappedBy(j, keys[j.maxTopics..]) == Places(j)
    ensures Places(j).Values == (set t | t in keys[..j.maxTopics]) + {MISC}
  {
    hide Home, Dirs, Places;
    var m := j.maxTopics;
    forall t ensures t in Places(j).Values <==> t in (set t | t in keys[..m]) + {MISC} {
      if t in keys[..m] {
        assert t in keys && t !in keys[m..];
        var d :| d in Homes(j) && Homes(j)[d] == t;
        assert CappedBy(j, keys[m..])[d] == t;
      }
      if t == MISC {
        assert keys[m] in keys && keys[m] in keys[m..];
        var d :| d in Homes(j) && Homes(j)[d] == keys[m];
        assert CappedBy(j, keys[m..])[d] == MISC;
      }
      if t in Places(j).Values && t != MISC {
        var d :| d in Places(j) && Places(j)[d] == t;
        assert Homes(j)[d] == t;
        assert t in keys && t !in keys[m..];
        assert keys == keys[..m] + keys[m..];
      }
    }
  }

  /** The exact number of places: with misc to be added, one more than the cap. */
  lemma PlacesAreCounted(j: Job)
    ensures |Places(j).Values| == TopicCount(j)
  {
    hide Home, Homes, Dirs, HomeOrder, SortedBy, Kept, CappedBy, Places, TotalPreorder, IsRanking;
    var m := j.maxTopics;
    if |Homes(j).Values| <= m {
      FewAreAllKept(j);
    } else {
      HomeOrderIsPreorder(j);
      var keys := ListingExists(Homes(j).Values, HomeOrder(j));
      assert IsRanking(j, keys) by { RankingIs(j, keys); }
      ListsOnce(keys, Homes(j).Values);
      CappedIsPlaces(j, keys);
      PlacesAre(j, keys);
      var kept := set t | t in keys[..m];
      SetOfPrefix(keys, m, kept);
      if MISC in keys {
        var i :| 0 <= i < |keys| && keys[i] == MISC;
        KeptIsEarly(j, keys, i);
        assert MISC in keys[..m] <==> i < m;
      }
    }
  }

  lemma RankingIs(j: Job, keys: seq<Dir>)
    requires multiset(keys) == multiset(Homes(j).Values) && SortedBy(keys, HomeOrder(j))
    ensures IsRanking(j, keys)
  {
  }

  lemma HomeOrderIsPreorder(j: Job)
    ensures TotalPreorder(HomeOrder(j))
  {
    hide RankLeq, HomeSize;
    var leq := HomeOrder(j);
    forall x, y ensures leq(x, y) || leq(y, x) {
      RankIsOrder(HomeSize(j, x), x, HomeSize(j, y), y, 0, x);
    }
    forall x, y, z | leq(x, y) && leq(y, z) ensures leq(x, z) {
      RankIsOrder(HomeSize(j, x), x, HomeSize(j, y), y, HomeSize(j, z), z);
    }
  }

  /**
   * The number of topics, exactly. The cap can be exceeded by one, misc, and by no more: that happens when more
   * directories than the cap are left after folding and misc is not among those the cap keeps.
   */
  lemma TopicsAreCounted(j: Job, topics: seq<Topic>)
    requires IsSegmentation(j, topics)
    ensures |topics| == TopicCount(j) <= j.maxTopics + 1
    ensures |topics| == j.maxTopics + 1
        <==> |Homes(j).Values| > j.maxTopics && !(MISC in Homes(j).Values && Kept(j, MISC))
  {
    hide Homes, Kept, Places, IsSegmentation;
    OneTopicPerPlace(j, topics);
    PlacesAreCounted(j);
  }

  const PAIR := Listing([Some(Entity("1", "x")), Some(Entity("2", "y"))], [])

  /** Two directories, each large enough, under a cap of one: two topics come out. */
  lemma CapIsExceeded(topics: seq<Topic>)
    requires IsSegmentation(JobOf(Some(PAIR), Options(1, 1)), topics)
    ensures |topics| == 2
  {
    var j := JobOf(Some(PAIR), Options(1, 1));
    PairHomes();
    hide *;
    TopicsAreCounted(j, topics);
    TwoHomes(j);
  }

  lemma TwoHomes(j: Job)
    requires Homes(j).Values == {"x", "y"} && j.maxTopics == 1
    ensures TopicCount(j) == 2
  {
    hide Homes;
  }

  lemma PairHomes()
    ensures var j := JobOf(Some(PAIR), Options(1, 1)); Homes(j).Values == {"x", "y"} && j.maxTopics == 1
  {
    var j := JobOf(Some(PAIR), Options(1, 1));
    PairIsLarge();
    PairDirs();
    hide Large, Links, BestNeighbor, Dirs;
    var homes := Homes(j);
    assert homes.Keys == {"x", "y"} && homes["x"] == "x" && homes["y"] == "y";
    hide Homes, Home;
    assert forall t :: t in homes.Values <==> t == "x" || t == "y";
  }

  lemma PairDirs()
    ensures Dirs(PAIR.entities) == {"x", "y"}
  {
    var es := PAIR.entities;
    assert es[0] in es && es[1] in es;
  }

  lemma PairIsLarge()
    ensures var j := JobOf(Some(PAIR), Options(1, 1)); Large(j, "x") && Large(j, "y")
  {
    var es := PAIR.entities;
    var id := Identity(es);
    PairDirs();
    assert id["x"] == "x" && id["y"] == "y";
    hide Identity, IdsIn, Dirs;
    assert es == [es[0], es[1]];
    IdsInTwo(es[0], es[1], id, "x");
    IdsInTwo(es[0], es[1], id, "y");
    OneIsEnough(IdsIn(es, id, "x"), "1");
    OneIsEnough(IdsIn(es, id, "y"), "2");
  }

  lemma IdsInTwo(e: Option<Entity>, f: Option<Entity>, place: map<Dir, Dir>, t: Dir)
    ensures IdsIn([e, f], place, t) == IdIn(e, place, t) + IdIn(f, place, t)
  {
    hide IdIn;
    assert [e, f] == [e] + [f] && [e] == [] + [e];
    IdsInSnoc([e], f, place, t);
    IdsInSnoc([], e, place, t);
    assert IdsIn([], place, t) == multiset{};
  }

  lemma OneIsEnough(ids: multiset<Id>, id: Id)
    requires id in ids
    ensures |ids| >= 1
  {
    assert ids == multiset{id} + (ids - multiset{id});
  }
}
