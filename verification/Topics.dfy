/** The wiki's table of contents: directories grouped into topics, small ones folded into their neighbours. */
module Topics {
  import opened Wrappers
  import opened Sorting

  type Id = string
  type Dir = string

  /** An entity with the directory key derived from its provenance. */
  datatype Entity = Entity(id: Id, dir: Dir)

  datatype Relationship = Relationship(fromId: Id, toId: Id)

  datatype Listing = Listing(entities: seq<Option<Entity>>, relationships: seq<Option<Relationship>>)

  datatype Options = Options(minTopicSize: int, maxTopics: int)

  datatype Topic = Topic(dir: Dir, entityIds: seq<Id>)

  type Buckets = map<Dir, seq<Id>>

  const MISC: Dir := "misc"

  function WithDefaults(o: Options): (r: Options)
    ensures r.minTopicSize > 0 && r.maxTopics > 0
  {
    Options(if o.minTopicSize <= 0 then 3 else o.minTopicSize, if o.maxTopics <= 0 then 25 else o.maxTopics)
  }

  // ---------------------------------------------------------------- orders

  /** Lexicographic order of strings. */
  predicate StrLeq(a: string, b: string) {
    a == [] || (b != [] && (a[0] < b[0] || (a[0] == b[0] && StrLeq(a[1..], b[1..]))))
  }

  lemma {:induction false} StrTotal(a: string, b: string)
    ensures StrLeq(a, b) || StrLeq(b, a)
  {
    if a != [] && b != [] && a[0] == b[0] {
      StrTotal(a[1..], b[1..]);
    }
  }

  lemma {:induction false} StrAntisymmetric(a: string, b: string)
    requires StrLeq(a, b) && StrLeq(b, a)
    ensures a == b
  {
    if a != [] && b != [] {
      StrAntisymmetric(a[1..], b[1..]);
      assert a == [a[0]] + a[1..] && b == [b[0]] + b[1..];
    }
  }

  lemma {:induction false} StrTransitive(a: string, b: string, c: string)
    requires StrLeq(a, b) && StrLeq(b, c)
    ensures StrLeq(a, c)
  {
    if a != [] && b != [] && c != [] && a[0] == b[0] == c[0] {
      StrTransitive(a[1..], b[1..], c[1..]);
    }
  }

  /** Larger first, then by name. */
  predicate RankLeq(sizeA: int, a: Dir, sizeB: int, b: Dir) {
    sizeA > sizeB || (sizeA == sizeB && StrLeq(a, b))
  }

  lemma RankIsOrder(sa: int, a: Dir, sb: int, b: Dir, sc: int, c: Dir)
    ensures RankLeq(sa, a, sb, b) || RankLeq(sb, b, sa, a)
    ensures RankLeq(sa, a, sb, b) && RankLeq(sb, b, sc, c) ==> RankLeq(sa, a, sc, c)
    ensures RankLeq(sa, a, sb, b) && RankLeq(sb, b, sa, a) ==> a == b
  {
    hide StrLeq;
    StrTotal(a, b);
    if StrLeq(a, b) && StrLeq(b, c) {
      StrTransitive(a, b, c);
    }
    if StrLeq(a, b) && StrLeq(b, a) {
      StrAntisymmetric(a, b);
    }
  }

  lemma StrIsPreorder()
    ensures TotalPreorder(StrLeq)
  {
    forall a, b ensures StrLeq(a, b) || StrLeq(b, a) {
      StrTotal(a, b);
    }
    forall a, b, c | StrLeq(a, b) && StrLeq(b, c) ensures StrLeq(a, c) {
      StrTransitive(a, b, c);
    }
  }

  function Size(b: Buckets, d: Dir): nat {
    if d in b then |b[d]| else 0
  }

  function KeyOrder(b: Buckets): (Dir, Dir) -> bool {
    (x: Dir, y: Dir) => RankLeq(Size(b, x), x, Size(b, y), y)
  }

  lemma KeyOrderIsPreorder(b: Buckets)
    ensures TotalPreorder(KeyOrder(b))
  {
    hide RankLeq;
    var leq := KeyOrder(b);
    forall x, y ensures leq(x, y) || leq(y, x) {
      RankIsOrder(Size(b, x), x, Size(b, y), y, 0, x);
    }
    forall x, y, z | leq(x, y) && leq(y, z) ensures leq(x, z) {
      RankIsOrder(Size(b, x), x, Size(b, y), y, Size(b, z), z);
    }
  }

  /** Largest topic first, misc last. */
  predicate TopicLeq(a: Topic, b: Topic) {
    if (a.dir == MISC) != (b.dir == MISC) then b.dir == MISC
    else RankLeq(|a.entityIds|, a.dir, |b.entityIds|, b.dir)
  }

  lemma TopicLeqIsPreorder()
    ensures TotalPreorder(TopicLeq)
  {
    hide RankLeq;
    forall x, y ensures TopicLeq(x, y) || TopicLeq(y, x) {
      RankIsOrder(|x.entityIds|, x.dir, |y.entityIds|, y.dir, 0, x.dir);
    }
    forall x, y, z | TopicLeq(x, y) && TopicLeq(y, z) ensures TopicLeq(x, z) {
      RankIsOrder(|x.entityIds|, x.dir, |y.entityIds|, y.dir, |z.entityIds|, z.dir);
    }
  }

  // ---------------------------------------------------------------- where every directory ends up

  /** A listing with the defaults applied. */
  datatype Job = Job(es: seq<Option<Entity>>, rels: seq<Option<Relationship>>, minSize: nat, maxTopics: nat)

  /** Directory keys are never empty. */
  ghost predicate Named(es: seq<Option<Entity>>) {
    forall e :: e in es && e.Some? ==> e.value.dir != ""
  }

  ghost function Dirs(es: seq<Option<Entity>>): set<Dir> {
    set e | e in es && e.Some? :: e.value.dir
  }

  /** The directory of each id; the last entity of an id wins. */
  ghost function DirOf(es: seq<Option<Entity>>): map<Id, Dir> {
    if es == [] then map[]
    else
      var e := es[|es| - 1];
      if e.None? then DirOf(es[..|es| - 1]) else DirOf(es[..|es| - 1])[e.value.id := e.value.dir]
  }

  ghost predicate Crosses(dirs: map<Id, Dir>, r: Option<Relationship>, a: Dir, b: Dir) {
    && r.Some? && r.value.fromId in dirs && r.value.toId in dirs
    && dirs[r.value.fromId] != dirs[r.value.toId]
    && {dirs[r.value.fromId], dirs[r.value.toId]} == {a, b}
  }

  /** How many relationships join the two directories, in either direction. */
  ghost function Cross(rels: seq<Option<Relationship>>, dirs: map<Id, Dir>, a: Dir, b: Dir): nat {
    if rels == [] then 0
    else Cross(rels[..|rels| - 1], dirs, a, b) + if Crosses(dirs, rels[|rels| - 1], a, b) then 1 else 0
  }

  /** The ids of the entities whose directory is placed at t. */
  ghost function IdsIn(es: seq<Option<Entity>>, place: map<Dir, Dir>, t: Dir): multiset<Id> {
    if es == [] then multiset{}
    else
      var e := es[|es| - 1];
      IdsIn(es[..|es| - 1], place, t) + IdIn(e, place, t)
  }

  ghost function IdIn(e: Option<Entity>, place: map<Dir, Dir>, t: Dir): multiset<Id> {
    if e.Some? && e.value.dir in place && place[e.value.dir] == t then multiset{e.value.id} else multiset{}
  }

  lemma IdsInSnoc(es: seq<Option<Entity>>, e: Option<Entity>, place: map<Dir, Dir>, t: Dir)
    ensures IdsIn(es + [e], place, t) == IdsIn(es, place, t) + IdIn(e, place, t)
  {
    assert (es + [e])[..|es|] == es;
  }

  ghost function Identity(es: seq<Option<Entity>>): map<Dir, Dir> {
    map d | d in Dirs(es) :: d
  }

  ghost predicate Large(j: Job, d: Dir) {
    |IdsIn(j.es, Identity(j.es), d)| >= j.minSize
  }

  ghost function Links(j: Job, a: Dir, b: Dir): nat {
    Cross(j.rels, DirOf(j.es), a, b)
  }

  ghost predicate Candidate(j: Job, d: Dir, t: Dir) {
    t != MISC && t in Dirs(j.es) && Large(j, t) && Links(j, d, t) > 0
  }

  /** The large directory d is most connected to, the first by name among equals. */
  ghost predicate BestNeighbor(j: Job, d: Dir, t: Dir) {
    && Candidate(j, d, t)
    && forall u {:trigger Candidate(j, d, u)} :: Candidate(j, d, u) ==> RankLeq(Links(j, d, t), t, Links(j, d, u), u)
  }

  /** Small directories go to their best neighbour, or to misc when they have none. */
  ghost function Home(j: Job, d: Dir): Dir {
    if d == MISC || Large(j, d) then d
    else if exists t :: BestNeighbor(j, d, t) then var t :| BestNeighbor(j, d, t); t
    else MISC
  }

  ghost function Homes(j: Job): map<Dir, Dir> {
    map d | d in Dirs(j.es) :: Home(j, d)
  }

  ghost function HomeSize(j: Job, t: Dir): nat {
    |IdsIn(j.es, Homes(j), t)|
  }

  /** Folded directories that come before t: larger, or as large with a smaller name. */
  ghost function Ahead(j: Job, t: Dir): set<Dir> {
    set u | u in Homes(j).Values && u != t && RankLeq(HomeSize(j, u), u, HomeSize(j, t), t)
  }

  ghost predicate Kept(j: Job, t: Dir) {
    |Ahead(j, t)| < j.maxTopics
  }

  /** After the cap: folded directories ranked past it go to misc. */
  ghost function Places(j: Job): map<Dir, Dir> {
    map d | d in Dirs(j.es) :: if Kept(j, Home(j, d)) then Home(j, d) else MISC
  }

  /** One topic per place, holding exactly the ids placed there, in the promised order. */
  ghost predicate IsSegmentation(j: Job, topics: seq<Topic>) {
    && SortedBy(topics, TopicLeq)
    && (forall i, k :: 0 <= i < k < |topics| ==> topics[i].dir != topics[k].dir)
    && (forall i :: 0 <= i < |topics| ==> topics[i].dir in Places(j).Values)
    && (forall t :: t in Places(j).Values ==> HasTopic(topics, t))
    && (forall i :: 0 <= i < |topics| ==> Holds(j, topics[i]))
  }

  ghost predicate HasTopic(topics: seq<Topic>, t: Dir) {
    exists i :: 0 <= i < |topics| && topics[i].dir == t
  }

  ghost predicate Holds(j: Job, topic: Topic) {
    SortedBy(topic.entityIds, StrLeq) && multiset(topic.entityIds) == IdsIn(j.es, Places(j), topic.dir)
  }

  // ---------------------------------------------------------------- counting ids

  lemma SubBag<T>(a: multiset<T>, b: multiset<T>)
    requires a <= b
    ensures |a| <= |b|
  {
    assert b == a + (b - a);
  }

  lemma {:induction false} IdsInMono(es: seq<Option<Entity>>, p: map<Dir, Dir>, q: map<Dir, Dir>, t: Dir)
    requires forall d :: d in Dirs(es) && d in p && p[d] == t ==> d in q && q[d] == t
    ensures IdsIn(es, p, t) <= IdsIn(es, q, t) && |IdsIn(es, p, t)| <= |IdsIn(es, q, t)|
  {
    if es != [] {
      assert es[|es| - 1].Some? ==> es[|es| - 1].value.dir in Dirs(es);
      assert forall d :: d in Dirs(es[..|es| - 1]) ==> d in Dirs(es);
      IdsInMono(es[..|es| - 1], p, q, t);
    }
    SubBag(IdsIn(es, p, t), IdsIn(es, q, t));
  }

  lemma IdsInSame(es: seq<Option<Entity>>, p: map<Dir, Dir>, q: map<Dir, Dir>, t: Dir)
    requires forall d :: d in Dirs(es) ==> ((d in p && p[d] == t) <==> (d in q && q[d] == t))
    ensures IdsIn(es, p, t) == IdsIn(es, q, t)
  {
    hide IdsIn, Dirs;
    IdsInMono(es, p, q, t);
    IdsInMono(es, q, p, t);
  }

  ghost function Redirect(place: map<Dir, Dir>, from: Dir, to: Dir): map<Dir, Dir> {
    map d | d in place :: if place[d] == from then to else place[d]
  }

  lemma {:induction false} RedirectIds(es: seq<Option<Entity>>, place: map<Dir, Dir>, from: Dir, to: Dir, t: Dir)
    requires from != to
    ensures IdsIn(es, Redirect(place, from, to), t)
         == if t == from then multiset{} else if t == to then IdsIn(es, place, to) + IdsIn(es, place, from)
            else IdsIn(es, place, t)
  {
    hide Redirect, IdIn;
    if es != [] {
      var init, e := es[..|es| - 1], es[|es| - 1];
      RedirectIds(init, place, from, to, t);
      RedirectId(e, place, from, to, t);
      var r := Redirect(place, from, to);
      assert IdsIn(es, r, t) == IdsIn(init, r, t) + IdIn(e, r, t);
      assert IdsIn(es, place, t) == IdsIn(init, place, t) + IdIn(e, place, t);
      if t == to {
        assert IdsIn(es, place, from) == IdsIn(init, place, from) + IdIn(e, place, from);
      }
    }
  }

  lemma RedirectId(e: Option<Entity>, place: map<Dir, Dir>, from: Dir, to: Dir, t: Dir)
    requires from != to
    ensures IdIn(e, Redirect(place, from, to), t)
         == if t == from then multiset{} else if t == to then IdIn(e, place, to) + IdIn(e, place, from)
            else IdIn(e, place, t)
  {
  }

  /** The buckets hold exactly the placed ids, and there is a bucket for every place in use. */
  ghost predicate Represents(es: seq<Option<Entity>>, place: map<Dir, Dir>, b: Buckets) {
    && place.Keys == Dirs(es)
    && b.Keys == place.Values
    && forall t :: t in b ==> multiset(b[t]) == IdsIn(es, place, t)
  }

  function Get(b: Buckets, d: Dir): seq<Id> {
    if d in b then b[d] else []
  }

  /** Moves a bucket's ids behind another's, and tells every one of them its new directory. */
  method MergeBucket(buckets: Buckets, entityDir: map<Id, Dir>, from: Dir, to: Dir) returns (merged: Buckets,
                     dirs: map<Id, Dir>)
    ensures from == to ==> merged == buckets && dirs == entityDir
    ensures from != to ==> merged.Keys == buckets.Keys - {from} + {to}
    ensures from != to ==> merged[to] == Get(buckets, to) + Get(buckets, from)
    ensures from != to ==> forall t :: t in buckets && t != from && t != to ==> merged[t] == buckets[t]
    ensures from != to ==> forall id :: id in dirs <==> id in entityDir || id in Get(buckets, from)
    ensures from != to ==> forall id :: id in dirs ==>
        dirs[id] == if id in Get(buckets, from) then to else entityDir[id]
  {
    if from == to {
      return buckets, entityDir;
    }
    var moved := Get(buckets, from);
    merged := buckets[to := Get(buckets, to) + moved];
    dirs := entityDir;
    for i := 0 to |moved|
      invariant forall id :: id in dirs <==> id in entityDir || id in moved[..i]
      invariant forall id :: id in dirs ==> dirs[id] == if id in moved[..i] then to else entityDir[id]
    {
      dirs := dirs[moved[i] := to];
    }
    merged := merged - {from};
  }

  lemma NobodyElsewhere(es: seq<Option<Entity>>, place: map<Dir, Dir>, t: Dir)
    requires place.Keys == Dirs(es) && t !in place.Values
    ensures IdsIn(es, place, t) == multiset{}
  {
    IdsInMono(es, place, map[], t);
    EmptyPlace(es, t);
  }

  lemma {:induction false} EmptyPlace(es: seq<Option<Entity>>, t: Dir)
    ensures IdsIn(es, map[], t) == multiset{}
  {
    if es != [] {
      EmptyPlace(es[..|es| - 1], t);
    }
  }

  lemma RedirectValues(place: map<Dir, Dir>, from: Dir, to: Dir)
    requires from in place.Values && from != to
    ensures Redirect(place, from, to).Values == place.Values - {from} + {to}
  {
    var r := Redirect(place, from, to);
    var d :| d in place && place[d] == from;
    assert r[d] == to;
    forall t | t in place.Values && t != from ensures t in r.Values {
      var c :| c in place && place[c] == t;
      assert r[c] == t;
    }
  }

  /** Merging two buckets redirects every directory placed at the first. */
  lemma MergeRedirects(es: seq<Option<Entity>>, place: map<Dir, Dir>, b: Buckets, from: Dir, to: Dir, m: Buckets)
    requires Represents(es, place, b) && from in b && from != to
    requires m.Keys == b.Keys - {from} + {to} && m[to] == Get(b, to) + Get(b, from)
    requires forall t :: t in b && t != from && t != to ==> m[t] == b[t]
    ensures Represents(es, Redirect(place, from, to), m)
  {
    hide IdsIn, Dirs;
    var r := Redirect(place, from, to);
    RedirectValues(place, from, to);
    assert r.Keys == place.Keys;
    hide Redirect;
    forall t | t in m ensures multiset(m[t]) == IdsIn(es, r, t) {
      RedirectIds(es, place, from, to, t);
      if t == to && to !in b {
        NobodyElsewhere(es, place, to);
      }
    }
  }

  // ---------------------------------------------------------------- the skeleton

  lemma AddEntity(es: seq<Option<Entity>>, e: Entity, b: Buckets)
    requires Represents(es, Identity(es), b)
    ensures Represents(es + [Some(e)], Identity(es + [Some(e)]), b[e.dir := Get(b, e.dir) + [e.id]])
  {
    hide IdsIn, IdIn;
    var more := es + [Some(e)];
    var m := b[e.dir := Get(b, e.dir) + [e.id]];
    assert Dirs(more) == Dirs(es) + {e.dir};
    IdentityValues(es);
    IdentityValues(more);
    hide Dirs;
    forall t | t in m ensures multiset(m[t]) == IdsIn(more, Identity(more), t) {
      IdsInSnoc(es, Some(e), Identity(more), t);
      IdsInSame(es, Identity(es), Identity(more), t);
      IdInOwn(e, Identity(more), t);
      if t !in b {
        NobodyElsewhere(es, Identity(es), t);
      }
    }
  }

  lemma IdInOwn(e: Entity, place: map<Dir, Dir>, t: Dir)
    requires e.dir in place && place[e.dir] == e.dir
    ensures IdIn(Some(e), place, t) == if t == e.dir then multiset{e.id} else multiset{}
  {
  }

  lemma IdentityValues(es: seq<Option<Entity>>)
    ensures Identity(es).Values == Dirs(es) == Identity(es).Keys
  {
    forall d | d in Dirs(es) ensures d in Identity(es).Values {
      assert Identity(es)[d] == d;
    }
  }

  /** Every entity goes to the bucket of its own directory; missing entities are skipped. */
  method FillBuckets(es: seq<Option<Entity>>) returns (entityDir: map<Id, Dir>, buckets: Buckets)
    ensures entityDir == DirOf(es) && Represents(es, Identity(es), buckets)
  {
    hide Represents, Identity;
    entityDir, buckets := map[], map[];
    NothingRepresented();
    for i := 0 to |es|
      invariant entityDir == DirOf(es[..i]) && Represents(es[..i], Identity(es[..i]), buckets)
    {
      assert es[..i + 1][..i] == es[..i] && es[..i + 1] == es[..i] + [es[i]];
      if es[i].Some? {
        var e := es[i].value;
        AddEntity(es[..i], e, buckets);
        entityDir := entityDir[e.id := e.dir];
        buckets := buckets[e.dir := Get(buckets, e.dir) + [e.id]];
      } else {
        AddNothing(es[..i], buckets);
      }
    }
    assert es[..|es|] == es;
  }

  lemma NothingRepresented()
    ensures Represents([], Identity([]), map[])
  {
  }

  lemma AddNothing(es: seq<Option<Entity>>, b: Buckets)
    requires Represents(es, Identity(es), b)
    ensures Represents(es + [None], Identity(es + [None]), b)
  {
    var more := es + [None];
    assert more[..|more| - 1] == es;
    assert Dirs(more) == Dirs(es);
    assert Identity(more) == Identity(es);
  }

  // ---------------------------------------------------------------- links between directories

  type LinkCounts = map<Dir, map<Dir, nat>>

  function At(m: LinkCounts, a: Dir, b: Dir): nat {
    if a in m && b in m[a] then m[a][b] else 0
  }

  ghost predicate Counted(m: LinkCounts, rels: seq<Option<Relationship>>, dirs: map<Id, Dir>) {
    && (forall a, b :: At(m, a, b) == Cross(rels, dirs, a, b))
    && (forall a, b :: a in m && b in m[a] ==> m[a][b] > 0)
  }

  method AddCross(m: LinkCounts, a: Dir, b: Dir) returns (r: LinkCounts)
    ensures forall x, y :: At(r, x, y) == At(m, x, y) + if x == a && y == b then 1 else 0
    ensures (forall x, y :: x in m && y in m[x] ==> m[x][y] > 0) ==> forall x, y :: x in r && y in r[x] ==> r[x][y] > 0
  {
    r := m;
    if a !in r {
      r := r[a := map[]];
    }
    var n: nat := At(r, a, b) + 1;
    var row: map<Dir, nat> := r[a][b := n];
    r := r[a := row];
  }

  method CountLinks(rels: seq<Option<Relationship>>, entityDir: map<Id, Dir>) returns (cross: LinkCounts)
    ensures Counted(cross, rels, entityDir)
  {
    cross := map[];
    for i := 0 to |rels|
      invariant Counted(cross, rels[..i], entityDir)
    {
      var r := rels[i];
      assert rels[..i + 1][..i] == rels[..i];
      if r.Some? && r.value.fromId in entityDir && r.value.toId in entityDir {
        var a, b := entityDir[r.value.fromId], entityDir[r.value.toId];
        if a != b {
          assert forall x, y :: {a, b} == {x, y} <==> (x == a && y == b) || (x == b && y == a) by {
            PairsMatch(a, b);
          }
          cross := AddCross(cross, a, b);
          cross := AddCross(cross, b, a);
        }
      }
    }
    assert rels[..|rels|] == rels;
  }

  lemma PairsMatch(a: Dir, b: Dir)
    requires a != b
    ensures forall x, y :: {a, b} == {x, y} <==> (x == a && y == b) || (x == b && y == a)
  {
    forall x, y ensures {a, b} == {x, y} <==> (x == a && y == b) || (x == b && y == a) {
      if {a, b} == {x, y} {
        assert x in {a, b} && y in {a, b} && a in {x, y} && b in {x, y};
      }
    }
  }

  lemma {:induction false} DirOfInDirs(es: seq<Option<Entity>>, id: Id)
    requires id in DirOf(es)
    ensures DirOf(es)[id] in Dirs(es)
  {
    var e := es[|es| - 1];
    assert forall d :: d in Dirs(es[..|es| - 1]) ==> d in Dirs(es);
    if e.Some? && e.value.id == id {
      assert e in es;
    } else {
      DirOfInDirs(es[..|es| - 1], id);
    }
  }

  lemma {:induction false} LinkedDirsExist(rels: seq<Option<Relationship>>, es: seq<Option<Entity>>, a: Dir, b: Dir)
    requires Cross(rels, DirOf(es), a, b) > 0
    ensures b in Dirs(es)
  {
    var dirs, r := DirOf(es), rels[|rels| - 1];
    if Crosses(dirs, r, a, b) {
      DirOfInDirs(es, r.value.fromId);
      DirOfInDirs(es, r.value.toId);
      assert b in {dirs[r.value.fromId], dirs[r.value.toId]};
    } else {
      LinkedDirsExist(rels[..|rels| - 1], es, a, b);
    }
  }

  // ---------------------------------------------------------------- folding small directories

  /** Some directories have already gone home, the others are still where they started. */
  ghost predicate Underway(j: Job, place: map<Dir, Dir>) {
    place.Keys == Dirs(j.es) && forall d :: d in place ==> place[d] == d || place[d] == Home(j, d)
  }

  lemma HomeIsStable(j: Job, d: Dir)
    ensures Home(j, d) == d || Home(j, d) == MISC || (Large(j, Home(j, d)) && Home(j, d) in Dirs(j.es))
    ensures Large(j, d) ==> Home(j, d) == d
  {
    hide Large, Links;
  }

  /** Folding never makes a small directory large or a large one small. */
  lemma LargeStaysLarge(j: Job, place: map<Dir, Dir>, t: Dir)
    requires Underway(j, place) && t in Dirs(j.es) && t != MISC
    ensures |IdsIn(j.es, place, t)| >= j.minSize <==> Large(j, t)
  {
    hide IdsIn, Home, Dirs;
    forall d | d in place
      ensures (Large(j, t) && d == t ==> place[d] == t) && (!Large(j, t) && place[d] == t ==> d == t)
    {
      HomeIsStable(j, d);
    }
    if Large(j, t) {
      IdsInMono(j.es, Identity(j.es), place, t);
    } else {
      IdsInMono(j.es, place, Identity(j.es), t);
    }
  }

  lemma BestIsUnique(j: Job, d: Dir, t: Dir, u: Dir)
    requires BestNeighbor(j, d, t) && BestNeighbor(j, d, u)
    ensures t == u
  {
    hide RankLeq, Candidate;
    RankIsOrder(Links(j, d, t), t, Links(j, d, u), u, 0, t);
  }

  predicate Eligible(edges: map<Dir, nat>, buckets: Buckets, minSize: nat, self: Dir, d: Dir) {
    d in edges && d != self && d != MISC && Size(buckets, d) >= minSize
  }

  /** The eligible directory with the most links, the first by name among equals; empty when there is none. */
  method BestLargeNeighbor(edges: map<Dir, nat>, buckets: Buckets, minSize: nat, self: Dir) returns (best: Dir)
    requires "" !in edges && forall d :: d in edges ==> edges[d] > 0
    ensures best == "" ==> forall d :: !Eligible(edges, buckets, minSize, self, d)
    ensures best != "" ==> Eligible(edges, buckets, minSize, self, best)
    ensures best != "" ==> forall d :: Eligible(edges, buckets, minSize, self, d) ==>
        RankLeq(edges[best], best, edges[d], d)
  {
    hide RankLeq;
    var bestN: nat := 0;
    best := "";
    var rest := edges.Keys;
    while rest != {}
      invariant rest <= edges.Keys
      invariant best == "" ==> bestN == 0
      invariant best != "" ==> Eligible(edges, buckets, minSize, self, best) && bestN == edges[best]
      invariant forall d :: Eligible(edges, buckets, minSize, self, d) && d !in rest ==>
        best != "" && RankLeq(bestN, best, edges[d], d)
      decreases |rest|
    {
      var d :| d in rest;
      rest := rest - {d};
      if d == self || d == MISC || Size(buckets, d) < minSize {
        continue;
      }
      var n := edges[d];
      ghost var was, wasN := best, bestN;
      if n > bestN || (n == bestN && (best == "" || (d != best && StrLeq(d, best)))) {
        best, bestN := d, n;
        Overtakes(n, d, wasN, was);
      } else {
        StaysBehind(bestN, best, n, d);
      }
      forall u | Eligible(edges, buckets, minSize, self, u) && u !in rest ensures RankLeq(bestN, best, edges[u], u) {
        RankIsOrder(bestN, best, wasN, was, edges[u], u);
      }
    }
  }

  lemma Overtakes(n: nat, d: Dir, wasN: nat, was: Dir)
    requires n > wasN || (n == wasN && StrLeq(d, was))
    ensures RankLeq(n, d, wasN, was) && RankLeq(n, d, n, d)
  {
    StrTotal(d, d);
  }

  lemma StaysBehind(bestN: nat, best: Dir, n: nat, d: Dir)
    requires !(n > bestN || (n == bestN && d != best && StrLeq(d, best)))
    ensures RankLeq(bestN, best, n, d) && RankLeq(bestN, best, bestN, best)
  {
    StrTotal(best, d);
    StrTotal(best, best);
  }

  method SortedKeysBySize(buckets: Buckets) returns (keys: seq<Dir>)
    ensures multiset(keys) == multiset(buckets.Keys) && SortedBy(keys, KeyOrder(buckets))
  {
    keys := [];
    var rest := buckets.Keys;
    while rest != {}
      invariant rest <= buckets.Keys && multiset(keys) == multiset(buckets.Keys - rest)
      decreases |rest|
    {
      var k :| k in rest;
      assert buckets.Keys - (rest - {k}) == buckets.Keys - rest + {k};
      rest := rest - {k};
      keys := keys + [k];
    }
    assert buckets.Keys - rest == buckets.Keys;
    KeyOrderIsPreorder(buckets);
    keys := Sort(keys, KeyOrder(buckets));
  }

  /** A listing of a set names each element once. */
  lemma ListsOnce(keys: seq<Dir>, s: set<Dir>)
    requires multiset(keys) == multiset(s)
    ensures forall k :: k in keys <==> k in s
    ensures forall i, k :: 0 <= i < k < |keys| ==> keys[i] != keys[k]
    ensures |keys| == |s|
  {
    assert |multiset(keys)| == |keys|;
    forall k ensures k in keys <==> k in s {
      assert k in keys <==> k in multiset(keys);
    }
    forall i, k | 0 <= i < k < |keys| ensures keys[i] != keys[k] {
      NotTwice(keys, s, i, k);
    }
  }

  lemma NotTwice(keys: seq<Dir>, s: set<Dir>, i: nat, k: nat)
    requires multiset(keys) == multiset(s) && i < k < |keys|
    ensures keys[i] != keys[k]
  {
    assert keys == keys[..k] + [keys[k]] + keys[k + 1..];
    assert multiset(keys)[keys[k]] == multiset(keys[..k])[keys[k]] + 1 + multiset(keys[k + 1..])[keys[k]];
    assert keys[i] in keys[..k];
    assert keys[i] in multiset(keys[..k]);
    assert multiset(s)[keys[k]] <= 1;
  }

  /** The first keys are home, the others where they started. */
  ghost function HomeUpTo(j: Job, keys: seq<Dir>): map<Dir, Dir> {
    map d | d in Dirs(j.es) :: if d in keys then Home(j, d) else d
  }

  /** What bestLargeNeighbor finds is where the directory belongs. */
  lemma FoundIsHome(j: Job, place: map<Dir, Dir>, b: Buckets, edges: map<Dir, nat>, d: Dir, best: Dir)
    requires Underway(j, place) && Represents(j.es, place, b) && Named(j.es) && j.minSize > 0
    requires forall u :: (u in edges <==> Links(j, d, u) > 0) && (u in edges ==> edges[u] == Links(j, d, u))
    requires d != MISC && !Large(j, d)
    requires best == "" ==> forall u :: !Eligible(edges, b, j.minSize, d, u)
    requires best != "" ==> Eligible(edges, b, j.minSize, d, best)
    requires best != "" ==> forall u :: Eligible(edges, b, j.minSize, d, u) ==> RankLeq(edges[best], best, edges[u], u)
    ensures Home(j, d) == if best == "" then MISC else best
  {
    hide RankLeq, Large, Links, IdsIn, Underway, Dirs;
    forall u ensures Eligible(edges, b, j.minSize, d, u) <==> Candidate(j, d, u) {
      EligibleIsCandidate(j, place, b, edges, d, u);
    }
    hide Candidate, Eligible;
    if best != "" {
      assert BestNeighbor(j, d, best);
      var t := Home(j, d);
      BestIsUnique(j, d, t, best);
    }
  }

  lemma EligibleIsCandidate(j: Job, place: map<Dir, Dir>, b: Buckets, edges: map<Dir, nat>, d: Dir, u: Dir)
    requires Underway(j, place) && Represents(j.es, place, b) && j.minSize > 0
    requires (u in edges <==> Links(j, d, u) > 0)
    requires d != MISC && !Large(j, d)
    ensures Eligible(edges, b, j.minSize, d, u) <==> Candidate(j, d, u)
  {
    hide Large, IdsIn, Underway, Dirs;
    if u in edges && u != MISC {
      LinkedDirsExist(j.rels, j.es, d, u);
      LargeStaysLarge(j, place, u);
      SizeIs(j.es, place, b, u);
    }
  }

  lemma SizeIs(es: seq<Option<Entity>>, place: map<Dir, Dir>, b: Buckets, t: Dir)
    requires Represents(es, place, b)
    ensures Size(b, t) == |IdsIn(es, place, t)|
  {
    hide IdsIn;
    if t in b {
      assert |multiset(b[t])| == |b[t]|;
    } else {
      NobodyElsewhere(es, place, t);
    }
  }

  /** Taking one more directory home. */
  lemma OneMoreHome(j: Job, keys: seq<Dir>, d: Dir)
    requires d in Dirs(j.es) && d !in keys
    ensures Underway(j, HomeUpTo(j, keys))
    ensures d == MISC || Large(j, d) ==> HomeUpTo(j, keys + [d]) == HomeUpTo(j, keys)
    ensures d != MISC && !Large(j, d) ==> HomeUpTo(j, keys + [d]) == Redirect(HomeUpTo(j, keys), d, Home(j, d))
  {
    hide Large, Home, Dirs;
    var place := HomeUpTo(j, keys);
    HomeIsStable(j, d);
    if d == MISC {
      MiscIsHome(j);
    }
    if d != MISC && !Large(j, d) {
      OneMoreRedirected(j, keys, d);
    }
  }

  lemma OneMoreRedirected(j: Job, keys: seq<Dir>, d: Dir)
    requires d in Dirs(j.es) && d !in keys && d != MISC && !Large(j, d)
    ensures HomeUpTo(j, keys + [d]) == Redirect(HomeUpTo(j, keys), d, Home(j, d))
  {
    hide Large, Home, Dirs;
    var place := HomeUpTo(j, keys);
    var r, q := Redirect(place, d, Home(j, d)), HomeUpTo(j, keys + [d]);
    forall x | x in place ensures r[x] == q[x] {
      HomeIsStable(j, x);
    }
    assert r == q;
  }

  lemma MiscIsHome(j: Job)
    ensures Home(j, MISC) == MISC
  {
  }

  /** The links of one directory, from the counts. */
  lemma RowOf(j: Job, cross: LinkCounts, d: Dir)
    requires Counted(cross, j.rels, DirOf(j.es)) && Named(j.es)
    ensures var row := Row(cross, d);
      (forall u :: (u in row <==> Links(j, d, u) > 0) && (u in row ==> row[u] == Links(j, d, u))) && "" !in row
  {
    hide Cross, DirOf, Crosses;
    var row := Row(cross, d);
    forall u ensures (u in row <==> Links(j, d, u) > 0) && (u in row ==> row[u] == Links(j, d, u)) {
      assert At(cross, d, u) == Cross(j.rels, DirOf(j.es), d, u);
    }
    if "" in row {
      LinkedDirsExist(j.rels, j.es, d, "");
    }
  }

  function Row(cross: LinkCounts, d: Dir): map<Dir, nat> {
    if d in cross then cross[d] else map[]
  }

  method FoldSmall(ghost j: Job, buckets: Buckets, entityDir: map<Id, Dir>, cross: LinkCounts, minSize: nat)
    returns (folded: Buckets, dirs: map<Id, Dir>)
    requires Represents(j.es, Identity(j.es), buckets) && Counted(cross, j.rels, DirOf(j.es))
    requires Named(j.es) && minSize == j.minSize > 0
    ensures Represents(j.es, Homes(j), folded)
  {
    hide *;
    folded, dirs := buckets, entityDir;
    var keys := SortedKeysBySize(buckets);
    ListsOnce(keys, buckets.Keys);
    KeysAreDirs(j.es, buckets);
    StartAtHome(j);
    for i := 0 to |keys|
      invariant Represents(j.es, HomeUpTo(j, keys[..i]), folded)
    {
      var d := keys[i];
      ghost var place := HomeUpTo(j, keys[..i]);
      assert keys[..i + 1] == keys[..i] + [d];
      OneMoreHome(j, keys[..i], d);
      if d != MISC {
        SizeTellsLarge(j, place, folded, d);
      }
      if d == MISC || Size(folded, d) >= minSize {
        continue;
      }
      RowOf(j, cross, d);
      var target := BestLargeNeighbor(Row(cross, d), folded, minSize, d);
      FoundIsHome(j, place, folded, Row(cross, d), d, target);
      if target == "" {
        target := MISC;
      }
      StillHere(j, place, folded, keys[..i], d, target);
      var merged;
      merged, dirs := MergeBucket(folded, dirs, d, target);
      MergeRedirects(j.es, place, folded, d, target, merged);
      folded := merged;
    }
    EverybodyHome(j, keys);
    assert keys[..|keys|] == keys;
  }

  lemma SizeTellsLarge(j: Job, place: map<Dir, Dir>, b: Buckets, d: Dir)
    requires Underway(j, place) && Represents(j.es, place, b) && d in Dirs(j.es) && d != MISC
    ensures Size(b, d) >= j.minSize <==> Large(j, d)
  {
    hide IdsIn, Large, Underway, Dirs;
    SizeIs(j.es, place, b, d);
    LargeStaysLarge(j, place, d);
  }

  lemma KeysAreDirs(es: seq<Option<Entity>>, b: Buckets)
    requires Represents(es, Identity(es), b)
    ensures b.Keys == Dirs(es)
  {
    IdentityValues(es);
  }

  lemma StartAtHome(j: Job)
    ensures HomeUpTo(j, []) == Identity(j.es)
  {
  }

  lemma EverybodyHome(j: Job, keys: seq<Dir>)
    requires forall d :: d in keys <==> d in Dirs(j.es)
    ensures HomeUpTo(j, keys) == Homes(j)
  {
  }

  /** A small directory still has its own bucket when its turn comes, and never goes to itself. */
  lemma StillHere(j: Job, place: map<Dir, Dir>, b: Buckets, keys: seq<Dir>, d: Dir, target: Dir)
    requires place == HomeUpTo(j, keys) && Represents(j.es, place, b)
    requires d in Dirs(j.es) && d !in keys && d != MISC && !Large(j, d) && target == Home(j, d)
    ensures d in b && target != d
  {
    hide Large, Dirs, IdsIn, Links;
    assert place[d] == d;
    assert d in place.Values;
  }

  // ---------------------------------------------------------------- capping the table of contents

  ghost function HomeOrder(j: Job): (Dir, Dir) -> bool {
    (x: Dir, y: Dir) => RankLeq(HomeSize(j, x), x, HomeSize(j, y), y)
  }

  /** A ranking lists the folded directories once each, in order. */
  ghost predicate IsRanking(j: Job, keys: seq<Dir>) {
    multiset(keys) == multiset(Homes(j).Values) && SortedBy(keys, HomeOrder(j))
  }

  lemma SortedKeysAreRanking(j: Job, b: Buckets, keys: seq<Dir>)
    requires Represents(j.es, Homes(j), b)
    requires multiset(keys) == multiset(b.Keys) && SortedBy(keys, KeyOrder(b))
    ensures IsRanking(j, keys)
  {
    hide Represents, IdsIn, Homes, RankLeq, Dirs;
    BucketsAreHomes(j, b);
    var leq, ranked := KeyOrder(b), HomeOrder(j);
    forall i, k | 0 <= i < k < |keys| ensures ranked(keys[i], keys[k]) {
      SizeIs(j.es, Homes(j), b, keys[i]);
      SizeIs(j.es, Homes(j), b, keys[k]);
      assert Size(b, keys[i]) == HomeSize(j, keys[i]) && Size(b, keys[k]) == HomeSize(j, keys[k]);
      assert leq(keys[i], keys[k]);
    }
  }

  /** The ranking places exactly i folded directories ahead of the i-th key. */
  lemma AheadIsPrefix(j: Job, keys: seq<Dir>, i: nat)
    requires IsRanking(j, keys) && i < |keys|
    ensures |Ahead(j, keys[i])| == i
  {
    hide IdsIn, Homes, RankLeq, Dirs, HomeSize;
    ListsOnce(keys, Homes(j).Values);
    var leq, t := HomeOrder(j), keys[i];
    forall u ensures u in Ahead(j, t) <==> u in keys[..i] {
      if u in keys {
        var k :| 0 <= k < |keys| && keys[k] == u;
        assert (k < i ==> leq(u, t)) && (i < k ==> leq(t, u));
        assert u in keys[..i] <==> k < i;
        RankIsOrder(HomeSize(j, u), u, HomeSize(j, t), t, 0, t);
      }
    }
    SetOfPrefix(keys, i, Ahead(j, t));
  }

  lemma BucketsAreHomes(j: Job, b: Buckets)
    requires Represents(j.es, Homes(j), b)
    ensures b.Keys == Homes(j).Values
  {
  }

  lemma {:induction false} SetOfPrefix(keys: seq<Dir>, n: nat, s: set<Dir>)
    requires n <= |keys| && forall i, k :: 0 <= i < k < |keys| ==> keys[i] != keys[k]
    requires forall u :: u in s <==> u in keys[..n]
    ensures |s| == n
  {
    if n > 0 {
      assert keys[..n] == keys[..n - 1] + [keys[n - 1]];
      SetOfPrefix(keys, n - 1, s - {keys[n - 1]});
    } else {
      assert s == {};
    }
  }

  /** Folded directories in the given stretch of keys moved to misc. */
  ghost function CappedBy(j: Job, gone: seq<Dir>): map<Dir, Dir> {
    map d | d in Dirs(j.es) :: if Home(j, d) in gone then MISC else Home(j, d)
  }

  lemma OneMoreCapped(j: Job, gone: seq<Dir>, t: Dir)
    requires t !in gone && t in Homes(j).Values
    ensures t == MISC ==> CappedBy(j, gone + [t]) == CappedBy(j, gone)
    ensures t != MISC ==> CappedBy(j, gone + [t]) == Redirect(CappedBy(j, gone), t, MISC)
    ensures t != MISC ==> t in CappedBy(j, gone).Values
  {
    hide Home, Dirs;
    var d :| d in Homes(j) && Homes(j)[d] == t;
    assert CappedBy(j, gone)[d] == t;
    if t != MISC {
      assert CappedBy(j, gone + [t]) == Redirect(CappedBy(j, gone), t, MISC);
    } else {
      assert CappedBy(j, gone + [t]) == CappedBy(j, gone);
    }
  }

  lemma NothingCapped(j: Job)
    ensures CappedBy(j, []) == Homes(j)
  {
  }

  lemma CappedIsPlaces(j: Job, keys: seq<Dir>)
    requires IsRanking(j, keys) && |keys| >= j.maxTopics
    ensures CappedBy(j, keys[j.maxTopics..]) == Places(j)
  {
    hide Home, Dirs, HomeOrder, Kept, SortedBy;
    ListsOnce(keys, Homes(j).Values);
    forall d | d in Dirs(j.es) ensures Home(j, d) in keys[j.maxTopics..] <==> !Kept(j, Home(j, d)) {
      assert Homes(j)[d] == Home(j, d);
      assert Home(j, d) in Homes(j).Values;
      var i :| 0 <= i < |keys| && keys[i] == Home(j, d);
      KeptIsEarly(j, keys, i);
      InTail(keys, j.maxTopics, i);
    }
  }

  lemma InTail(keys: seq<Dir>, n: nat, i: nat)
    requires n <= |keys| && i < |keys| && forall a, c :: 0 <= a < c < |keys| ==> keys[a] != keys[c]
    ensures keys[i] in keys[n..] <==> i >= n
  {
    if i >= n {
      assert keys[n..][i - n] == keys[i];
    }
  }

  lemma KeptIsEarly(j: Job, keys: seq<Dir>, i: nat)
    requires IsRanking(j, keys) && i < |keys|
    ensures Kept(j, keys[i]) <==> i < j.maxTopics
  {
    hide IsRanking, Ahead;
    AheadIsPrefix(j, keys, i);
  }

  lemma FewAreAllKept(j: Job)
    requires |Homes(j).Values| <= j.maxTopics
    ensures Places(j) == Homes(j)
  {
    hide Home, Dirs, Ahead;
    forall d | d in Dirs(j.es) ensures Kept(j, Home(j, d)) {
      assert Homes(j)[d] == Home(j, d);
      assert Home(j, d) in Homes(j).Values;
      AheadIsSmaller(j, Home(j, d));
    }
  }

  lemma AheadIsSmaller(j: Job, t: Dir)
    requires t in Homes(j).Values
    ensures |Ahead(j, t)| < |Homes(j).Values|
  {
    hide Homes, RankLeq, HomeSize;
    var rest := Homes(j).Values - {t};
    assert rest == Ahead(j, t) + (rest - Ahead(j, t));
  }

  /** Everything past the cap, smallest last, is merged into misc. */
  method CapTopics(ghost j: Job, buckets: Buckets, entityDir: map<Id, Dir>, maxTopics: nat)
    returns (capped: Buckets, dirs: map<Id, Dir>)
    requires Represents(j.es, Homes(j), buckets) && maxTopics == j.maxTopics > 0
    ensures Represents(j.es, Places(j), capped)
  {
    hide *;
    capped, dirs := buckets, entityDir;
    BucketsAreHomes(j, buckets);
    if |buckets| > maxTopics {
      var keys := SortedKeysBySize(buckets);
      ListsOnce(keys, buckets.Keys);
      NothingCapped(j);
      assert keys[maxTopics..maxTopics] == [];
      for i := maxTopics to |keys|
        invariant Represents(j.es, CappedBy(j, keys[maxTopics..i]), capped)
      {
        assert keys[maxTopics..i + 1] == keys[maxTopics..i] + [keys[i]];
        assert keys[i] !in keys[maxTopics..i];
        OneMoreCapped(j, keys[maxTopics..i], keys[i]);
        if keys[i] == MISC {
          continue;
        }
        BucketsAreValues(j.es, CappedBy(j, keys[maxTopics..i]), capped);
        var merged;
        merged, dirs := MergeBucket(capped, dirs, keys[i], MISC);
        MergeRedirects(j.es, CappedBy(j, keys[maxTopics..i]), capped, keys[i], MISC, merged);
        capped := merged;
      }
      assert keys[maxTopics..|keys|] == keys[maxTopics..];
      SortedKeysAreRanking(j, buckets, keys);
      CappedIsPlaces(j, keys);
    } else {
      FewAreAllKept(j);
    }
  }

  lemma BucketsAreValues(es: seq<Option<Entity>>, place: map<Dir, Dir>, b: Buckets)
    requires Represents(es, place, b)
    ensures b.Keys == place.Values
  {
  }

  // ---------------------------------------------------------------- the topics

  /** One topic per bucket, gathered in any order; nobody relies on that order once they are sorted. */
  ghost predicate Gathered(j: Job, b: Buckets, rest: set<Dir>, topics: seq<Topic>) {
    && (forall i, k :: 0 <= i < k < |topics| ==> topics[i].dir != topics[k].dir)
    && (forall i :: 0 <= i < |topics| ==> topics[i].dir in b && topics[i].dir !in rest && Holds(j, topics[i]))
    && (forall t :: t in b && t !in rest ==> HasTopic(topics, t))
  }

  method Materialize(ghost j: Job, buckets: Buckets) returns (topics: seq<Topic>)
    requires Represents(j.es, Places(j), buckets)
    ensures IsSegmentation(j, topics)
  {
    hide Represents, Places, IdsIn, TopicLeq, StrLeq, IsSegmentation, SortedBy, TotalPreorder;
    topics := [];
    var rest := buckets.Keys;
    while rest != {}
      invariant rest <= buckets.Keys && Gathered(j, buckets, rest, topics)
      decreases |rest|
    {
      var d :| d in rest;
      StrIsPreorder();
      var ids := Sort(buckets[d], StrLeq);
      BagOf(j, buckets, d);
      GatherOne(j, buckets, rest, topics, Topic(d, ids));
      rest := rest - {d};
      topics := topics + [Topic(d, ids)];
    }
    TopicLeqIsPreorder();
    ghost var was := topics;
    topics := Sort(topics, TopicLeq);
    Rearranged(j, buckets, was, topics);
  }

  lemma BagOf(j: Job, b: Buckets, d: Dir)
    requires Represents(j.es, Places(j), b) && d in b
    ensures multiset(b[d]) == IdsIn(j.es, Places(j), d)
  {
  }

  lemma GatherOne(j: Job, b: Buckets, rest: set<Dir>, topics: seq<Topic>, t: Topic)
    requires Gathered(j, b, rest, topics) && t.dir in rest && t.dir in b && Holds(j, t)
    ensures Gathered(j, b, rest - {t.dir}, topics + [t])
  {
    hide Holds;
    var more := topics + [t];
    forall d | d in b && d !in rest - {t.dir} ensures HasTopic(more, d) {
      if d == t.dir {
        assert more[|topics|].dir == d;
      } else {
        var i :| 0 <= i < |topics| && topics[i].dir == d;
        assert more[i].dir == d;
      }
    }
  }

  /** Sorting keeps one topic per place. */
  lemma Rearranged(j: Job, b: Buckets, was: seq<Topic>, topics: seq<Topic>)
    requires Represents(j.es, Places(j), b) && Gathered(j, b, {}, was)
    requires multiset(topics) == multiset(was) && SortedBy(topics, TopicLeq)
    ensures IsSegmentation(j, topics)
  {
    hide SortedBy, Holds, TopicLeq, Represents, Places;
    BucketsAreValues(j.es, Places(j), b);
    forall x ensures x in topics <==> x in was {
      assert x in multiset(topics) <==> x in multiset(was);
    }
    forall i | 0 <= i < |topics| ensures topics[i].dir in b && Holds(j, topics[i]) {
      assert topics[i] in was;
    }
    forall t | t in b ensures HasTopic(topics, t) {
      var i :| 0 <= i < |was| && was[i].dir == t;
      assert was[i] in topics;
    }
    forall i, k | 0 <= i < k < |topics| ensures topics[i].dir != topics[k].dir {
      StillApart(was, topics, i, k);
    }
  }

  lemma StillApart(was: seq<Topic>, topics: seq<Topic>, i: nat, k: nat)
    requires multiset(topics) == multiset(was) && i < k < |topics|
    requires forall a, b :: 0 <= a < b < |was| ==> was[a].dir != was[b].dir
    ensures topics[i].dir != topics[k].dir
  {
    var x, y := topics[i], topics[k];
    assert x in multiset(was) && y in multiset(was);
    if x == y {
      assert topics == topics[..k] + [y] + topics[k + 1..];
      assert multiset(topics)[y] == multiset(topics[..k])[y] + 1 + multiset(topics[k + 1..])[y];
      assert y in topics[..k];
      assert multiset(was)[y] >= 2;
      OncePerDir(was, y);
    }
  }

  lemma {:induction false} OncePerDir(was: seq<Topic>, y: Topic)
    requires forall a, b :: 0 <= a < b < |was| ==> was[a].dir != was[b].dir
    ensures multiset(was)[y] <= 1
  {
    if was != [] {
      var init, last := was[..|was| - 1], was[|was| - 1];
      assert was == init + [last];
      OncePerDir(init, y);
      if last == y {
        assert y !in init;
        assert y !in multiset(init);
      }
    }
  }

  ghost function JobOf(listing: Option<Listing>, opts: Options): Job {
    var o := WithDefaults(opts);
    if listing.None? then Job([], [], o.minTopicSize, o.maxTopics)
    else Job(listing.value.entities, listing.value.relationships, o.minTopicSize, o.maxTopics)
  }

  /** Group a namespace listing into an ordered table of contents. */
  method Segment(listing: Option<Listing>, opts: Options) returns (topics: seq<Topic>)
    requires listing.Some? ==> Named(listing.value.entities)
    ensures IsSegmentation(JobOf(listing, opts), topics)
  {
    hide *;
    hide Sorting.SortedBy;
    var o := WithDefaults(opts);
    ghost var j := JobOf(listing, opts);
    JobIs(listing, opts);
    if listing.None? || |listing.value.entities| == 0 {
      NoTopics(j);
      return [];
    }
    var entityDir, buckets := FillBuckets(listing.value.entities);
    var cross := CountLinks(listing.value.relationships, entityDir);
    buckets, entityDir := FoldSmall(j, buckets, entityDir, cross, o.minTopicSize);
    buckets, entityDir := CapTopics(j, buckets, entityDir, o.maxTopics);
    topics := Materialize(j, buckets);
  }

  lemma JobIs(listing: Option<Listing>, opts: Options)
    ensures var j, o := JobOf(listing, opts), WithDefaults(opts);
      && j.minSize == o.minTopicSize && j.maxTopics == o.maxTopics
      && j.es == (if listing.None? then [] else listing.value.entities)
      && (listing.Some? ==> j.rels == listing.value.relationships)
  {
  }

  lemma NoTopics(j: Job)
    requires j.es == []
    ensures IsSegmentation(j, [])
  {
    assert Places(j) == map[];
  }
}
