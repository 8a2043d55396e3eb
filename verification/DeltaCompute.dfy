/** The pipeline's last stage: comparing a batch with the store and emitting only what changed. */
module DeltaCompute {
  import opened Wrappers
  import opened Records

  datatype Source = Source(sourceType: string, sourceId: string, sourceRef: string, observedAt: Time)

  datatype NifEntity = NifEntity(
    id: Id, kind: string, subType: string, name: string, rawName: string, namespace: string, source: Source,
    properties: Properties, confidence: real, isPartial: bool, run: string)

  datatype NifRelationship = NifRelationship(
    id: Id, kind: string, fromId: Id, toId: Id, source: Source,
    properties: Properties, confidence: real, isInferred: bool, run: string)

  /** The wall clock of one computation, and the JSON form of an instant. */
  datatype Env = Env(now: Time, timeText: Time -> Json)

  const ZERO_TIME: Time := 0
  const OBSERVED_AT := "observed_at"
  const RUN_ID := "ingestion_run_id"

  // ---------------------------------------------------------------- mapping to storage form

  function Text(s: string): Json {
    "\"" + s + "\""
  }

  function SourceProperties(env: Env, own: Properties, s: Source, run: string): Properties {
    own["source_type" := Text(s.sourceType)]["source_id" := Text(s.sourceId)]["source_ref" := Text(s.sourceRef)]
       [OBSERVED_AT := env.timeText(s.observedAt)][RUN_ID := Text(run)]
  }

  function EntityProperties(env: Env, e: NifEntity): Properties {
    var base := SourceProperties(env, e.properties, e.source, e.run);
    var named := if e.rawName != "" && e.rawName != e.name then base["raw_name" := Text(e.rawName)] else base;
    if e.isPartial then named["is_partial" := "true"] else named
  }

  function MapEntity(env: Env, e: NifEntity): Entity {
    Entity(
      e.id, if e.kind == "SCHEMA" then "DATABASE_SCHEMA" else e.kind, e.subType, e.name, e.namespace, e.confidence,
      true, ACTIVE, if e.source.observedAt == ZERO_TIME then env.now else e.source.observedAt, None, 0,
      EntityProperties(env, e))
  }

  function RelKind(kind: string): string {
    if kind == "AUTHORED_BY" then "CONTRIBUTED_TO" else if kind == "DEPLOYED_TO" then "DEPLOYED_ON" else kind
  }

  function MapRel(env: Env, r: NifRelationship): Relationship {
    var base := SourceProperties(env, r.properties, r.source, r.run);
    Relationship(
      r.id, RelKind(r.kind), r.fromId, r.toId, r.confidence,
      true, if r.source.observedAt == ZERO_TIME then env.now else r.source.observedAt, None, 0,
      if r.isInferred then base["is_inferred" := "true"] else base)
  }

  // ---------------------------------------------------------------- has anything changed

  function Ignored(): set<string> {
    {OBSERVED_AT, RUN_ID}
  }

  predicate PropertiesMatch(a: Properties, b: Properties) {
    |a| == |b| && forall k :: k in a && k !in Ignored() ==> k in b && a[k] == b[k]
  }

  predicate EntityChanged(row: Entity, z: Entity) {
    || row.kind != z.kind || row.subType != z.subType || row.canonicalName != z.canonicalName
    || row.namespace != z.namespace || row.confidence != z.confidence || row.isActive != z.isActive
    || row.lifecycle != z.lifecycle || !PropertiesMatch(row.properties, z.properties)
  }

  predicate RelChanged(row: Relationship, z: Relationship) {
    || row.kind != z.kind || row.fromId != z.fromId || row.toId != z.toId
    || row.confidence != z.confidence || row.isActive != z.isActive
    || !PropertiesMatch(row.properties, z.properties)
  }

  /** Equal apart from the two timing keys. */
  ghost predicate Agree(a: Properties, b: Properties) {
    a - Ignored() == b - Ignored()
  }

  /**
   * Against a proposal that carries both timing keys, as every mapped one does, the comparison means agreement
   * apart from those keys, except that a row lacking one of them always looks changed.
   */
  lemma ComparisonIsExactIff(a: Properties, b: Properties)
    requires Ignored() <= b.Keys
    ensures PropertiesMatch(a, b) <==> Ignored() <= a.Keys && Agree(a, b)
  {
    SplitSize(a);
    SplitSize(b);
    var x, y := a - Ignored(), b - Ignored();
    if Agree(a, b) {
      forall k | k in a && k !in Ignored() ensures k in b && a[k] == b[k] {
        assert k in x && k in y && x[k] == y[k];
      }
      if |a| == |b| {
        AllOf(a.Keys, Ignored());
      }
    }
    if PropertiesMatch(a, b) {
      assert forall k :: k in x ==> k in y && x[k] == y[k];
      AtMost(x.Keys, y.Keys);
      AllOf(a.Keys, Ignored());
      SameSizeSubset(x.Keys, y.Keys);
      assert x == y;
    }
  }

  /** A map's size is that of its timing keys and its other keys. */
  lemma SplitSize(a: Properties)
    ensures |a| == |a.Keys * Ignored()| + |(a - Ignored()).Keys|
    ensures Ignored() <= a.Keys ==> |a.Keys * Ignored()| == |Ignored()|
  {
    assert a.Keys == a.Keys * Ignored() + (a - Ignored()).Keys;
    assert |a.Keys| == |a|;
    if Ignored() <= a.Keys {
      assert a.Keys * Ignored() == Ignored();
    }
  }

  lemma AtMost<T>(a: set<T>, b: set<T>)
    requires a <= b
    ensures |a| <= |b|
  {
    assert b == a + (b - a);
  }

  lemma AllOf<T>(a: set<T>, b: set<T>)
    ensures |a * b| <= |b|
    ensures |a * b| == |b| ==> b <= a
  {
    AtMost(a * b, b);
    if |a * b| == |b| {
      SameSizeSubset(a * b, b);
    }
  }

  lemma SameSizeSubset<T>(a: set<T>, b: set<T>)
    requires a <= b && |a| == |b|
    ensures a == b
  {
    assert b == a + (b - a);
  }

  method MapsEqual(a: Properties, b: Properties) returns (equal: bool)
    ensures equal <==> PropertiesMatch(a, b)
    ensures Ignored() <= b.Keys ==> (equal <==> Ignored() <= a.Keys && Agree(a, b))
  {
    if Ignored() <= b.Keys {
      ComparisonIsExactIff(a, b);
    }
    hide Agree;
    if |a| != |b| {
      return false;
    }
    var rest := a.Keys;
    while rest != {}
      invariant rest <= a.Keys
      invariant forall k :: k in a && k !in rest && k !in Ignored() ==> k in b && a[k] == b[k]
      decreases |rest|
    {
      var k :| k in rest;
      rest := rest - {k};
      if k == OBSERVED_AT || k == RUN_ID {
        continue;
      }
      if k !in b || a[k] != b[k] {
        return false;
      }
    }
    return true;
  }

  /** What a row says, bookkeeping and timing keys aside. */
  ghost function EntitySubstance(e: Entity): Entity {
    e.(id := "", validFrom := 0, validTo := None, version := 0, properties := e.properties - Ignored())
  }

  ghost function RelSubstance(r: Relationship): Relationship {
    r.(id := "", validFrom := 0, validTo := None, version := 0, properties := r.properties - Ignored())
  }

  lemma MappedCarryTiming(env: Env, e: NifEntity, r: NifRelationship)
    ensures Ignored() <= MapEntity(env, e).properties.Keys && Ignored() <= MapRel(env, r).properties.Keys
  {
  }

  /** No real change of an entity is ever missed; only a row without its timing keys is reported in vain. */
  lemma EntityChangedIff(env: Env, row: Entity, e: NifEntity)
    ensures EntityChanged(row, MapEntity(env, e))
       <==> EntitySubstance(row) != EntitySubstance(MapEntity(env, e)) || !(Ignored() <= row.properties.Keys)
  {
    var z := MapEntity(env, e);
    assert Ignored() <= z.properties.Keys;
    ComparisonIsExactIff(row.properties, z.properties);
  }

  /** The same for relationships. */
  lemma RelChangedIff(env: Env, row: Relationship, r: NifRelationship)
    ensures RelChanged(row, MapRel(env, r))
       <==> RelSubstance(row) != RelSubstance(MapRel(env, r)) || !(Ignored() <= row.properties.Keys)
  {
    var z := MapRel(env, r);
    assert Ignored() <= z.properties.Keys;
    ComparisonIsExactIff(row.properties, z.properties);
  }

  // ---------------------------------------------------------------- the delta

  function EntityMutation(env: Env, known: map<Id, Entity>, e: NifEntity): seq<Mutation> {
    var z := MapEntity(env, e);
    if e.id !in known then [UpsertEntity(Some(z))]
    else if EntityChanged(known[e.id], z) then [UpsertEntity(Some(z.(version := known[e.id].version)))]
    else []
  }

  function EntityDelta(env: Env, known: map<Id, Entity>, es: seq<NifEntity>): seq<Mutation> {
    if es == [] then [] else EntityDelta(env, known, es[..|es| - 1]) + EntityMutation(env, known, es[|es| - 1])
  }

  function RelMutation(env: Env, known: map<Id, Relationship>, r: NifRelationship): seq<Mutation> {
    var z := MapRel(env, r);
    if r.id !in known then [UpsertRelationship(Some(z))]
    else if RelChanged(known[r.id], z) then [UpsertRelationship(Some(z.(version := known[r.id].version)))]
    else []
  }

  function RelDelta(env: Env, known: map<Id, Relationship>, rs: seq<NifRelationship>): seq<Mutation> {
    if rs == [] then [] else RelDelta(env, known, rs[..|rs| - 1]) + RelMutation(env, known, rs[|rs| - 1])
  }

  /** Entities before relationships. */
  function Delta(env: Env, knownE: map<Id, Entity>, knownR: map<Id, Relationship>,
                 es: seq<NifEntity>, rs: seq<NifRelationship>): seq<Mutation> {
    EntityDelta(env, knownE, es) + RelDelta(env, knownR, rs)
  }

  // ---------------------------------------------------------------- the delta, said of the batch's own fields

  function Quoted(s: string): Json {
    ['\"'] + s + ['\"']
  }

  const PROVENANCE_KEYS: set<string> := {"source_type", "source_id", "source_ref", "observed_at", "ingestion_run_id"}

  /** The source's own values, whatever the item says under those keys. */
  ghost predicate HasProvenance(env: Env, s: Source, run: string, ps: Properties) {
    && PROVENANCE_KEYS <= ps.Keys
    && ps["source_type"] == Quoted(s.sourceType) && ps["source_id"] == Quoted(s.sourceId)
    && ps["source_ref"] == Quoted(s.sourceRef) && ps["observed_at"] == env.timeText(s.observedAt)
    && ps["ingestion_run_id"] == Quoted(run)
  }

  /** Everything else is the item's own, apart from the given extra keys. */
  ghost predicate KeepsOwn(own: Properties, extra: set<string>, ps: Properties) {
    && ps.Keys == own.Keys + PROVENANCE_KEYS + extra
    && forall k :: k in own && k !in PROVENANCE_KEYS && k !in extra ==> ps[k] == own[k]
  }

  ghost predicate EntityProps(env: Env, e: NifEntity, ps: Properties) {
    var renamed := e.rawName != "" && e.rawName != e.name;
    var extra := (if renamed then {"raw_name"} else {}) + (if e.isPartial then {"is_partial"} else {});
    && HasProvenance(env, e.source, e.run, ps) && KeepsOwn(e.properties, extra, ps)
    && (renamed ==> ps["raw_name"] == Quoted(e.rawName)) && (e.isPartial ==> ps["is_partial"] == "true")
  }

  ghost predicate RelProps(env: Env, r: NifRelationship, ps: Properties) {
    var extra := if r.isInferred then {"is_inferred"} else {};
    && HasProvenance(env, r.source, r.run, ps) && KeepsOwn(r.properties, extra, ps)
    && (r.isInferred ==> ps["is_inferred"] == "true")
  }

  /** The row is active and says what the batch says; only a schema changes its kind. */
  ghost predicate EntityFields(e: NifEntity, row: Entity) {
    && row.isActive && row.lifecycle == "ACTIVE"
    && row.kind == (if e.kind == "SCHEMA" then "DATABASE_SCHEMA" else e.kind) && row.subType == e.subType
    && row.canonicalName == e.name && row.namespace == e.namespace && row.confidence == e.confidence
  }

  /** Two relationship kinds have another name in the store. */
  ghost predicate RelFields(r: NifRelationship, row: Relationship) {
    && row.isActive && row.fromId == r.fromId && row.toId == r.toId && row.confidence == r.confidence
    && row.kind == (if r.kind == "AUTHORED_BY" then "CONTRIBUTED_TO"
                    else if r.kind == "DEPLOYED_TO" then "DEPLOYED_ON" else r.kind)
  }

  ghost function ObservedFrom(env: Env, s: Source): Time {
    if s.observedAt != 0 then s.observedAt else env.now
  }

  /** A stored row that has the batch's fields and, but for the values of the timing keys, its properties. */
  ghost predicate EntityUpToDate(env: Env, e: NifEntity, row: Entity) {
    EntityFields(e, row) && exists ps :: EntityProps(env, e, ps) && SameButTiming(row.properties, ps)
  }

  ghost predicate RelUpToDate(env: Env, r: NifRelationship, row: Relationship) {
    RelFields(r, row) && exists ps :: RelProps(env, r, ps) && SameButTiming(row.properties, ps)
  }

  ghost predicate SameButTiming(a: Properties, b: Properties) {
    a.Keys == b.Keys && forall k :: k in a && k != "observed_at" && k != "ingestion_run_id" ==> a[k] == b[k]
  }

  /** The proposed row: the batch's fields and exact properties, at the version the store was seen to have. */
  ghost predicate ProposesEntity(env: Env, known: map<Id, Entity>, e: NifEntity, m: Mutation) {
    && m.UpsertEntity? && m.entity.Some?
    && var z := m.entity.value;
       && z.id == e.id && EntityFields(e, z) && EntityProps(env, e, z.properties)
       && z.validFrom == ObservedFrom(env, e.source) && z.validTo == None
       && z.version == if e.id in known then known[e.id].version else 0
  }

  ghost predicate ProposesRel(env: Env, known: map<Id, Relationship>, r: NifRelationship, m: Mutation) {
    && m.UpsertRelationship? && m.relationship.Some?
    && var z := m.relationship.value;
       && z.id == r.id && RelFields(r, z) && RelProps(env, r, z.properties)
       && z.validFrom == ObservedFrom(env, r.source) && z.validTo == None
       && z.version == if r.id in known then known[r.id].version else 0
  }

  /** Ascending positions in a list of this length. */
  ghost predicate Ascending(at: seq<nat>, length: nat) {
    && (forall j, k :: 0 <= j < k < |at| ==> at[j] < at[k])
    && (forall k :: 0 <= k < |at| ==> at[k] < length)
  }

  /** The mutations propose, in order, the items at the listed positions: exactly those not known to be up to date. */
  ghost predicate ProposesEntities(env: Env, known: map<Id, Entity>, es: seq<NifEntity>, ms: seq<Mutation>,
                                   at: seq<nat>) {
    && |at| == |ms| && Ascending(at, |es|)
    && (forall k :: 0 <= k < |at| ==> ProposesEntity(env, known, es[at[k]], ms[k]))
    && (forall i: nat :: i < |es| ==>
          (i in at <==> !(es[i].id in known && EntityUpToDate(env, es[i], known[es[i].id]))))
  }

  ghost predicate ProposesRels(env: Env, known: map<Id, Relationship>, rs: seq<NifRelationship>, ms: seq<Mutation>,
                               at: seq<nat>) {
    && |at| == |ms| && Ascending(at, |rs|)
    && (forall k :: 0 <= k < |at| ==> ProposesRel(env, known, rs[at[k]], ms[k]))
    && (forall i: nat :: i < |rs| ==>
          (i in at <==> !(rs[i].id in known && RelUpToDate(env, rs[i], known[rs[i].id]))))
  }

  /** All entity proposals, then all relationship proposals. */
  ghost predicate ProposesBatch(env: Env, knownE: map<Id, Entity>, knownR: map<Id, Relationship>, es: seq<NifEntity>,
                                rs: seq<NifRelationship>, ms: seq<Mutation>) {
    exists n: nat, at, at' :: n <= |ms| && ProposesEntities(env, knownE, es, ms[..n], at)
      && ProposesRels(env, knownR, rs, ms[n..], at')
  }

  lemma MappedEntityProps(env: Env, e: NifEntity)
    ensures EntityProps(env, e, EntityProperties(env, e))
    ensures forall ps :: EntityProps(env, e, ps) ==> ps == EntityProperties(env, e)
  {
    var mine := EntityProperties(env, e);
    forall ps | EntityProps(env, e, ps) ensures ps == mine {
      assert ps.Keys == mine.Keys;
    }
  }

  lemma MappedRelProps(env: Env, r: NifRelationship)
    ensures RelProps(env, r, MapRel(env, r).properties)
    ensures forall ps :: RelProps(env, r, ps) ==> ps == MapRel(env, r).properties
  {
    var mine := MapRel(env, r).properties;
    forall ps | RelProps(env, r, ps) ensures ps == mine {
      assert ps.Keys == mine.Keys;
    }
  }

  lemma MatchIsSameButTiming(a: Properties, b: Properties)
    requires Ignored() <= b.Keys
    ensures PropertiesMatch(a, b) <==> SameButTiming(a, b)
  {
    ComparisonIsExactIff(a, b);
    var x, y := a - Ignored(), b - Ignored();
    if SameButTiming(a, b) {
      assert x == y;
    }
    if PropertiesMatch(a, b) {
      assert x.Keys == y.Keys;
      forall k ensures k in a <==> k in b {
        assert k !in Ignored() ==> (k in x <==> k in a) && (k in y <==> k in b);
      }
      forall k | k in a && k !in Ignored() ensures a[k] == b[k] {
        assert x[k] == y[k];
      }
    }
  }

  /** A stored entity is left alone exactly when it is up to date, and what is emitted is what the batch says. */
  lemma EntityMutationIs(env: Env, known: map<Id, Entity>, e: NifEntity)
    ensures EntityMutation(env, known, e) == [] <==> e.id in known && EntityUpToDate(env, e, known[e.id])
    ensures EntityMutation(env, known, e) != [] ==>
        |EntityMutation(env, known, e)| == 1 && ProposesEntity(env, known, e, EntityMutation(env, known, e)[0])
  {
    hide EntityProperties, EntityProps, PropertiesMatch, SameButTiming;
    var z := MapEntity(env, e);
    MappedEntityProps(env, e);
    MappedCarryTimingE(env, e);
    if e.id in known {
      MatchIsSameButTiming(known[e.id].properties, z.properties);
    }
  }

  lemma MappedCarryTimingE(env: Env, e: NifEntity)
    ensures Ignored() <= EntityProperties(env, e).Keys
  {
  }

  lemma RelMutationIs(env: Env, known: map<Id, Relationship>, r: NifRelationship)
    ensures RelMutation(env, known, r) == [] <==> r.id in known && RelUpToDate(env, r, known[r.id])
    ensures RelMutation(env, known, r) != [] ==>
        |RelMutation(env, known, r)| == 1 && ProposesRel(env, known, r, RelMutation(env, known, r)[0])
  {
    hide SourceProperties, RelProps, PropertiesMatch, SameButTiming;
    var z := MapRel(env, r);
    MappedRelProps(env, r);
    MappedCarryTimingR(env, r);
    if r.id in known {
      MatchIsSameButTiming(known[r.id].properties, z.properties);
    }
  }

  lemma MappedCarryTimingR(env: Env, r: NifRelationship)
    ensures Ignored() <= MapRel(env, r).properties.Keys
  {
  }

  lemma AscendingSnoc(at: seq<nat>, length: nat)
    requires Ascending(at, length)
    ensures Ascending(at, length + 1) && Ascending(at + [length], length + 1) && length !in at
  {
  }

  lemma EntitiesProposedSnoc(env: Env, known: map<Id, Entity>, es: seq<NifEntity>, e: NifEntity, ms: seq<Mutation>,
                             at: seq<nat>)
    requires ProposesEntities(env, known, es, ms, at)
    ensures EntityMutation(env, known, e) == [] ==> ProposesEntities(env, known, es + [e], ms, at)
    ensures EntityMutation(env, known, e) != [] ==>
        ProposesEntities(env, known, es + [e], ms + EntityMutation(env, known, e), at + [|es|])
  {
    hide EntityMutation, ProposesEntity, EntityUpToDate;
    EntityMutationIs(env, known, e);
    AscendingSnoc(at, |es|);
    var all := es + [e];
    assert forall i :: 0 <= i < |es| ==> all[i] == es[i];
    assert forall k :: 0 <= k < |at| ==> all[at[k]] == es[at[k]];
    hide Ascending;
    assert forall i :: i in at + [|es|] <==> i in at || i == |es|;
  }

  lemma RelsProposedSnoc(env: Env, known: map<Id, Relationship>, rs: seq<NifRelationship>, r: NifRelationship,
                         ms: seq<Mutation>, at: seq<nat>)
    requires ProposesRels(env, known, rs, ms, at)
    ensures RelMutation(env, known, r) == [] ==> ProposesRels(env, known, rs + [r], ms, at)
    ensures RelMutation(env, known, r) != [] ==>
        ProposesRels(env, known, rs + [r], ms + RelMutation(env, known, r), at + [|rs|])
  {
    hide RelMutation, ProposesRel, RelUpToDate;
    RelMutationIs(env, known, r);
    AscendingSnoc(at, |rs|);
    var all := rs + [r];
    assert forall i :: 0 <= i < |rs| ==> all[i] == rs[i];
    assert forall k :: 0 <= k < |at| ==> all[at[k]] == rs[at[k]];
    hide Ascending;
    assert forall i :: i in at + [|rs|] <==> i in at || i == |rs|;
  }

  lemma EntityDeltaSnoc(env: Env, known: map<Id, Entity>, es: seq<NifEntity>, e: NifEntity)
    ensures EntityDelta(env, known, es + [e]) == EntityDelta(env, known, es) + EntityMutation(env, known, e)
  {
    hide EntityMutation;
    assert (es + [e])[..|es|] == es;
  }

  lemma RelDeltaSnoc(env: Env, known: map<Id, Relationship>, rs: seq<NifRelationship>, r: NifRelationship)
    ensures RelDelta(env, known, rs + [r]) == RelDelta(env, known, rs) + RelMutation(env, known, r)
  {
    hide RelMutation;
    assert (rs + [r])[..|rs|] == rs;
  }

  lemma NothingProposed(env: Env, knownE: map<Id, Entity>, knownR: map<Id, Relationship>)
    ensures ProposesEntities(env, knownE, [], EntityDelta(env, knownE, []), [])
    ensures ProposesRels(env, knownR, [], RelDelta(env, knownR, []), [])
  {
  }

  lemma {:induction false} EntityDeltaProposes(env: Env, known: map<Id, Entity>, es: seq<NifEntity>)
    returns (at: seq<nat>)
    ensures ProposesEntities(env, known, es, EntityDelta(env, known, es), at)
  {
    hide *;
    at := [];
    if es == [] {
      NothingProposed(env, known, map[]);
    } else {
      var init, e := es[..|es| - 1], es[|es| - 1];
      at := EntityDeltaProposes(env, known, init);
      EntitiesProposedSnoc(env, known, init, e, EntityDelta(env, known, init), at);
      assert es == init + [e];
      EntityDeltaSnoc(env, known, init, e);
      if EntityMutation(env, known, e) == [] {
        assert EntityDelta(env, known, init) + [] == EntityDelta(env, known, init);
      } else {
        at := at + [|init|];
      }
    }
  }

  lemma {:induction false} RelDeltaProposes(env: Env, known: map<Id, Relationship>, rs: seq<NifRelationship>)
    returns (at: seq<nat>)
    ensures ProposesRels(env, known, rs, RelDelta(env, known, rs), at)
  {
    hide *;
    at := [];
    if rs == [] {
      NothingProposed(env, map[], known);
    } else {
      var init, r := rs[..|rs| - 1], rs[|rs| - 1];
      at := RelDeltaProposes(env, known, init);
      RelsProposedSnoc(env, known, init, r, RelDelta(env, known, init), at);
      assert rs == init + [r];
      RelDeltaSnoc(env, known, init, r);
      if RelMutation(env, known, r) == [] {
        assert RelDelta(env, known, init) + [] == RelDelta(env, known, init);
      } else {
        at := at + [|init|];
      }
    }
  }

  lemma DeltaProposes(env: Env, knownE: map<Id, Entity>, knownR: map<Id, Relationship>, es: seq<NifEntity>,
                      rs: seq<NifRelationship>)
    ensures ProposesBatch(env, knownE, knownR, es, rs, Delta(env, knownE, knownR, es, rs))
  {
    hide ProposesEntities, ProposesRels, EntityDelta, RelDelta;
    var at := EntityDeltaProposes(env, knownE, es);
    var at' := RelDeltaProposes(env, knownR, rs);
    var a, ms := EntityDelta(env, knownE, es), Delta(env, knownE, knownR, es, rs);
    assert ms[..|a|] == a && ms[|a|..] == RelDelta(env, knownR, rs);
  }

  // ---------------------------------------------------------------- what the store lists

  datatype Listing = Listing(entities: seq<Entity>, relationships: seq<Relationship>)

  datatype Fetch = Found(listing: Listing) | Missing | Broken

  const ENTITY_CAP: nat := 5000
  const REL_CAP: nat := 20000

  ghost predicate EntityListed(db: Db, ns: string, id: Id) {
    id in db.entities && db.entities[id].isActive && db.entities[id].namespace == ns
  }

  ghost predicate InNamespace(db: Db, ns: string, id: Id) {
    id in db.entities && db.entities[id].namespace == ns
  }

  /** Both ends in the namespace, deleted or not. */
  ghost predicate RelListed(db: Db, ns: string, id: Id) {
    && id in db.relationships && db.relationships[id].isActive
    && InNamespace(db, ns, db.relationships[id].fromId) && InNamespace(db, ns, db.relationships[id].toId)
  }

  ghost function EntitiesIn(db: Db, ns: string): set<Id> {
    set id | id in db.entities && EntityListed(db, ns, id)
  }

  ghost function RelsIn(db: Db, ns: string): set<Id> {
    set id | id in db.relationships && RelListed(db, ns, id)
  }

  /** Rows of the namespace, each once, all of them unless there are more than the cap. */
  ghost predicate IsListing(db: Db, ns: string, l: Listing) {
    && (forall e :: e in l.entities ==> EntityListed(db, ns, e.id) && e == db.entities[e.id])
    && (forall r :: r in l.relationships ==> RelListed(db, ns, r.id) && r == db.relationships[r.id])
    && (|EntitiesIn(db, ns)| <= ENTITY_CAP ==> forall id :: id in EntitiesIn(db, ns) ==> db.entities[id] in l.entities)
    && (|RelsIn(db, ns)| <= REL_CAP ==> forall id :: id in RelsIn(db, ns) ==> db.relationships[id] in l.relationships)
  }

  /** A namespace within the row caps of the listing queries is listed whole. */
  lemma SmallNamespacesAreWhole(db: Db, ns: string, l: Listing)
    requires IsListing(db, ns, l)
    ensures |EntitiesIn(db, ns)| <= 5000 ==> forall id :: EntityListed(db, ns, id) ==> db.entities[id] in l.entities
    ensures |RelsIn(db, ns)| <= 20000 ==>
        forall id :: RelListed(db, ns, id) ==> db.relationships[id] in l.relationships
  {
    assert forall id :: EntityListed(db, ns, id) ==> id in EntitiesIn(db, ns);
    assert forall id :: RelListed(db, ns, id) ==> id in RelsIn(db, ns);
  }

  function Namespaces(es: seq<NifEntity>): set<string> {
    set e | e in es && e.namespace != "" :: e.namespace
  }

  /** Every fetch lists the store as it stands, and no namespace of the batch exceeds the caps. */
  ghost predicate ListsStore(db: Db, nss: set<string>, fetch: string -> Fetch) {
    forall ns :: ns in nss ==> fetch(ns).Found? && IsListing(db, ns, fetch(ns).listing)
  }

  ghost predicate UnderCaps(db: Db, nss: set<string>) {
    forall ns :: ns in nss ==> |EntitiesIn(db, ns)| <= ENTITY_CAP && |RelsIn(db, ns)| <= REL_CAP
  }

  /** The maps hold exactly what the fetched namespaces list. */
  ghost predicate GatheredEntities(fetch: string -> Fetch, nss: set<string>, known: map<Id, Entity>) {
    && (forall id :: id in known ==> known[id].id == id && exists ns :: ns in nss && EntityFrom(fetch(ns), known[id]))
    && (forall ns, e :: ns in nss && EntityFrom(fetch(ns), e) ==> e.id in known)
  }

  ghost predicate EntityFrom(f: Fetch, e: Entity) {
    f.Found? && e in f.listing.entities
  }

  ghost predicate GatheredRels(fetch: string -> Fetch, nss: set<string>, known: map<Id, Relationship>) {
    && (forall id :: id in known ==> known[id].id == id && exists ns :: ns in nss && RelFrom(fetch(ns), known[id]))
    && (forall ns, r :: ns in nss && RelFrom(fetch(ns), r) ==> r.id in known)
  }

  ghost predicate RelFrom(f: Fetch, r: Relationship) {
    f.Found? && r in f.listing.relationships
  }

  // ---------------------------------------------------------------- computing it

  method CollectNamespaces(es: seq<NifEntity>) returns (nss: set<string>)
    ensures nss == Namespaces(es)
  {
    nss := {};
    for i := 0 to |es|
      invariant nss == Namespaces(es[..i])
    {
      assert es[..i + 1] == es[..i] + [es[i]];
      if es[i].namespace != "" {
        nss := nss + {es[i].namespace};
      }
    }
    assert es[..|es|] == es;
  }

  method AddEntities(known: map<Id, Entity>, rows: seq<Entity>) returns (r: map<Id, Entity>)
    ensures forall id :: id in r ==> (id in known && r[id] == known[id]) || (r[id] in rows && r[id].id == id)
    ensures known.Keys <= r.Keys && forall e :: e in rows ==> e.id in r
  {
    r := known;
    for i := 0 to |rows|
      invariant forall id :: id in r ==> (id in known && r[id] == known[id]) || (r[id] in rows && r[id].id == id)
      invariant known.Keys <= r.Keys && forall k :: 0 <= k < i ==> rows[k].id in r
    {
      r := r[rows[i].id := rows[i]];
    }
  }

  method AddRels(known: map<Id, Relationship>, rows: seq<Relationship>) returns (r: map<Id, Relationship>)
    ensures forall id :: id in r ==> (id in known && r[id] == known[id]) || (r[id] in rows && r[id].id == id)
    ensures known.Keys <= r.Keys && forall x :: x in rows ==> x.id in r
  {
    r := known;
    for i := 0 to |rows|
      invariant forall id :: id in r ==> (id in known && r[id] == known[id]) || (r[id] in rows && r[id].id == id)
      invariant known.Keys <= r.Keys && forall k :: 0 <= k < i ==> rows[k].id in r
    {
      r := r[rows[i].id := rows[i]];
    }
  }

  lemma OneMoreNamespaceE(fetch: string -> Fetch, seen: set<string>, ns: string, was: map<Id, Entity>,
                          known: map<Id, Entity>)
    requires fetch(ns).Found? && GatheredEntities(fetch, seen, was) && was.Keys <= known.Keys
    requires var rows := fetch(ns).listing.entities;
      && (forall id :: id in known ==> (id in was && known[id] == was[id]) || (known[id] in rows && known[id].id == id))
      && forall e :: e in rows ==> e.id in known
    ensures GatheredEntities(fetch, seen + {ns}, known)
  {
    forall id | id in known
      ensures known[id].id == id && exists n :: n in seen + {ns} && EntityFrom(fetch(n), known[id])
    {
      if id in was && known[id] == was[id] {
        var n :| n in seen && EntityFrom(fetch(n), was[id]);
        assert n in seen + {ns};
      } else {
        assert EntityFrom(fetch(ns), known[id]);
      }
    }
  }

  lemma OneMoreNamespaceR(fetch: string -> Fetch, seen: set<string>, ns: string, was: map<Id, Relationship>,
                          known: map<Id, Relationship>)
    requires fetch(ns).Found? && GatheredRels(fetch, seen, was) && was.Keys <= known.Keys
    requires var rows := fetch(ns).listing.relationships;
      && (forall id :: id in known ==> (id in was && known[id] == was[id]) || (known[id] in rows && known[id].id == id))
      && forall r :: r in rows ==> r.id in known
    ensures GatheredRels(fetch, seen + {ns}, known)
  {
    forall id | id in known ensures known[id].id == id && exists n :: n in seen + {ns} && RelFrom(fetch(n), known[id]) {
      if id in was && known[id] == was[id] {
        var n :| n in seen && RelFrom(fetch(n), was[id]);
        assert n in seen + {ns};
      } else {
        assert RelFrom(fetch(ns), known[id]);
      }
    }
  }

  lemma NothingThere(fetch: string -> Fetch, seen: set<string>, ns: string, knownE: map<Id, Entity>,
                     knownR: map<Id, Relationship>)
    requires fetch(ns).Missing? && GatheredEntities(fetch, seen, knownE) && GatheredRels(fetch, seen, knownR)
    ensures GatheredEntities(fetch, seen + {ns}, knownE) && GatheredRels(fetch, seen + {ns}, knownR)
  {
    forall id | id in knownE ensures exists n :: n in seen + {ns} && EntityFrom(fetch(n), knownE[id]) {
      var n :| n in seen && EntityFrom(fetch(n), knownE[id]);
      assert n in seen + {ns};
    }
    forall id | id in knownR ensures exists n :: n in seen + {ns} && RelFrom(fetch(n), knownR[id]) {
      var n :| n in seen && RelFrom(fetch(n), knownR[id]);
      assert n in seen + {ns};
    }
  }

  /** What the store already has in the batch's namespaces; unknown namespaces hold nothing. */
  method FetchKnown(fetch: string -> Fetch, nss: set<string>)
    returns (ok: bool, knownE: map<Id, Entity>, knownR: map<Id, Relationship>)
    ensures ok <==> forall ns :: ns in nss ==> !fetch(ns).Broken?
    ensures ok ==> GatheredEntities(fetch, nss, knownE) && GatheredRels(fetch, nss, knownR)
  {
    hide EntityFrom, RelFrom;
    ok, knownE, knownR := true, map[], map[];
    assert GatheredEntities(fetch, nss - nss, knownE) && GatheredRels(fetch, nss - nss, knownR);
    hide GatheredEntities, GatheredRels;
    var rest := nss;
    while rest != {}
      invariant ok && rest <= nss && forall ns :: ns in nss - rest ==> !fetch(ns).Broken?
      invariant GatheredEntities(fetch, nss - rest, knownE) && GatheredRels(fetch, nss - rest, knownR)
      decreases |rest|
    {
      var ns :| ns in rest;
      ghost var seen := nss - rest;
      rest := rest - {ns};
      assert nss - rest == seen + {ns};
      var f := fetch(ns);
      if f.Missing? {
        NothingThere(fetch, seen, ns, knownE, knownR);
        continue;
      }
      if f.Broken? {
        ok := false;
        return;
      }
      ghost var wasE, wasR := knownE, knownR;
      knownE := AddEntities(knownE, f.listing.entities);
      OneMoreNamespaceE(fetch, seen, ns, wasE, knownE);
      knownR := AddRels(knownR, f.listing.relationships);
      OneMoreNamespaceR(fetch, seen, ns, wasR, knownR);
    }
    assert nss - rest == nss;
  }

  method HasEntityChanged(row: Entity, z: Entity) returns (changed: bool)
    ensures changed <==> EntityChanged(row, z)
    ensures Ignored() <= z.properties.Keys ==>
      (changed <==> EntitySubstance(row) != EntitySubstance(z) || !(Ignored() <= row.properties.Keys))
  {
    hide PropertiesMatch;
    if row.kind != z.kind || row.subType != z.subType || row.canonicalName != z.canonicalName ||
       row.namespace != z.namespace || row.confidence != z.confidence || row.isActive != z.isActive ||
       row.lifecycle != z.lifecycle {
      return true;
    }
    var equal := MapsEqual(row.properties, z.properties);
    changed := !equal;
  }

  method HasRelationshipChanged(row: Relationship, z: Relationship) returns (changed: bool)
    ensures changed <==> RelChanged(row, z)
    ensures Ignored() <= z.properties.Keys ==>
      (changed <==> RelSubstance(row) != RelSubstance(z) || !(Ignored() <= row.properties.Keys))
  {
    hide PropertiesMatch;
    if row.kind != z.kind || row.fromId != z.fromId || row.toId != z.toId ||
       row.confidence != z.confidence || row.isActive != z.isActive {
      return true;
    }
    var equal := MapsEqual(row.properties, z.properties);
    changed := !equal;
  }

  method DiffEntities(env: Env, known: map<Id, Entity>, es: seq<NifEntity>) returns (ms: seq<Mutation>)
    ensures ms == EntityDelta(env, known, es)
  {
    hide EntityChanged, MapEntity;
    ms := [];
    for i := 0 to |es|
      invariant ms == EntityDelta(env, known, es[..i])
    {
      assert es[..i + 1][..i] == es[..i];
      var z := MapEntity(env, es[i]);
      if es[i].id !in known {
        ms := ms + [UpsertEntity(Some(z))];
      } else {
        var changed := HasEntityChanged(known[es[i].id], z);
        if changed {
          ms := ms + [UpsertEntity(Some(z.(version := known[es[i].id].version)))];
        }
      }
    }
    assert es[..|es|] == es;
  }

  method DiffRelationships(env: Env, known: map<Id, Relationship>, rs: seq<NifRelationship>) returns (ms: seq<Mutation>)
    ensures ms == RelDelta(env, known, rs)
  {
    hide RelChanged, MapRel;
    ms := [];
    for i := 0 to |rs|
      invariant ms == RelDelta(env, known, rs[..i])
    {
      assert rs[..i + 1][..i] == rs[..i];
      var z := MapRel(env, rs[i]);
      if rs[i].id !in known {
        ms := ms + [UpsertRelationship(Some(z))];
      } else {
        var changed := HasRelationshipChanged(known[rs[i].id], z);
        if changed {
          ms := ms + [UpsertRelationship(Some(z.(version := known[rs[i].id].version)))];
        }
      }
    }
    assert rs[..|rs|] == rs;
  }

  /** The emitted mutations are the delta against what the fetches told. */
  ghost predicate IsDeltaAgainst(env: Env, fetch: string -> Fetch, es: seq<NifEntity>, rs: seq<NifRelationship>,
                                 ms: seq<Mutation>) {
    exists knownE, knownR ::
      && GatheredEntities(fetch, Namespaces(es), knownE) && GatheredRels(fetch, Namespaces(es), knownR)
      && ms == Delta(env, knownE, knownR, es, rs)
  }

  /** ... which propose exactly what the gathered rows do not have, in the batch's own fields. */
  ghost predicate ProposesAgainst(env: Env, fetch: string -> Fetch, es: seq<NifEntity>, rs: seq<NifRelationship>,
                                  ms: seq<Mutation>) {
    exists knownE, knownR ::
      && GatheredEntities(fetch, Namespaces(es), knownE) && GatheredRels(fetch, Namespaces(es), knownR)
      && ProposesBatch(env, knownE, knownR, es, rs, ms)
  }

  lemma SomeFetchBreaks(fetch: string -> Fetch, es: seq<NifEntity>)
    ensures (exists ns :: ns in Namespaces(es) && fetch(ns).Broken?)
       <==> exists e :: e in es && e.namespace != "" && fetch(e.namespace).Broken?
  {
    if e :| e in es && e.namespace != "" && fetch(e.namespace).Broken? {
      assert e.namespace in Namespaces(es);
    }
  }

  method Stage6DeltaCompute(env: Env, fetch: string -> Fetch, es: seq<NifEntity>, rs: seq<NifRelationship>)
    returns (r: Option<seq<Mutation>>)
    ensures r.None? <==> exists e :: e in es && e.namespace != "" && fetch(e.namespace).Broken?
    ensures r.Some? ==> IsDeltaAgainst(env, fetch, es, rs, r.value)
    ensures r.Some? ==> ProposesAgainst(env, fetch, es, rs, r.value)
  {
    hide GatheredEntities, GatheredRels, EntityDelta, RelDelta, Namespaces, ProposesBatch;
    SomeFetchBreaks(fetch, es);
    var nss := CollectNamespaces(es);
    var ok, knownE, knownR := FetchKnown(fetch, nss);
    if !ok {
      return None;
    }
    var entityMutations := DiffEntities(env, knownE, es);
    var relMutations := DiffRelationships(env, knownR, rs);
    r := Some(entityMutations + relMutations);
    assert r.value == Delta(env, knownE, knownR, es, rs);
    DeltaProposes(env, knownE, knownR, es, rs);
  }
}
