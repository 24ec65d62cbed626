/** What one commit does to a graph, said without indexes: every lookup is a scan
    (internal/graph/apply.go, merge.go, merge_edges.go, split.go, entity_delete.go, relation_mutation.go,
    entity_stale.go, edge_delete.go). The indexed engine of GraphCommit.dfy is proved equal to it. */
module GraphReference {
  import opened GraphModel
  import opened Fingerprints
  import opened HashCaches
  import opened Schemas
  import opened StringOrder

  /** What the commit engine treats as given under one schema: which fields are unique, how an entity is
      completed and checked, what identities it has, and how contents are merged. */
  datatype Rules = Rules(
    canonical: (string, string, string) -> string,
    unique: string -> set<string>,
    prepare: Entity -> Option<Entity>,
    conforms: Entity -> bool,
    signs: Signer,
    upsertEntity: (Entity, Entity) -> Entity,
    mergeEntity: (Entity, Entity) -> Entity,
    upsertEdge: (Edge, Edge) -> Edge,
    canonicalize: Edge -> Edge,
    staleBody: (Entity, string) -> string,
    trim: string -> string)

  /** What it treats as given under every schema: the same in terms of a kind's effective fields and
      identity keys, and the hashes. */
  datatype Base = Base(
    canonical: (string, string, string) -> string,
    wellFormed: CIType -> bool,
    unique: Fields -> set<string>,
    prepare: (Fields, string, Entity) -> Option<Entity>,
    conforms: (Fields, Entity) -> bool,
    ruleSigns: (string, map<string, Value>, string) -> set<string>,
    sourceSigns: string -> set<string>,
    upsertEntity: (Fields, Entity, Entity) -> Entity,
    mergeEntity: (Fields, Entity, Entity) -> Entity,
    upsertEdge: (Edge, Edge) -> Edge,
    canonicalize: Edge -> Edge,
    staleBody: (Entity, string) -> string,
    trim: string -> string,
    typeHash: Entry<CIType>,
    entityHash: Entry<Entity>,
    relationHash: Entry<RelationType>,
    edgeHash: Entry<Edge>,
    logical: Hashings)

  /** The effective fields of a kind; a kind without a type has none. */
  function FieldsUnder(types: Types, kind: string): Fields {
    match Inherited(types, kind, {})
    case Some(fields) => fields
    case None => map[]
  }

  function KeysUnder(types: Types, kind: string): string {
    if kind in types then types[kind].keys else ""
  }

  /** ciIdentitySignatures: by the identity keys of the kind's own type. */
  function RuleSigns(base: Base, types: Types): Signer {
    (kind: string, fields: map<string, Value>, identity: string) => if kind in types then base.ruleSigns(types[kind].keys, fields, identity) else {}
  }

  /** identitySignatures. */
  function Signs(base: Base, types: Types): Signer {
    (kind: string, fields: map<string, Value>, identity: string) => RuleSigns(base, types)(kind, fields, identity) + base.sourceSigns(identity)
  }

  function Under(base: Base, types: Types): Rules {
    Rules(
      base.canonical,
      (kind: string) => base.unique(FieldsUnder(types, kind)),
      (e: Entity) => base.prepare(FieldsUnder(types, e.kind), KeysUnder(types, e.kind), e),
      (e: Entity) => base.conforms(FieldsUnder(types, e.kind), e),
      Signs(base, types),
      (a: Entity, b: Entity) => base.upsertEntity(FieldsUnder(types, b.kind), a, b),
      (a: Entity, b: Entity) => base.mergeEntity(FieldsUnder(types, a.kind), a, b),
      base.upsertEdge,
      base.canonicalize,
      base.staleBody,
      base.trim)
  }

  /** Distinct type and endpoints have distinct canonical edge identities. */
  ghost predicate Injective(canonical: (string, string, string) -> string) {
    forall t, s, x, t', s', x' :: canonical(t, s, x) == canonical(t', s', x') ==> t == t' && s == s' && x == x'
  }

  // ---------- requests ----------

  datatype EdgeDelete = ByReference(id: string, rank: int) | ByEndpoints(typ: string, source: string, target: string, rank: int)

  datatype EntityDelete = ByEntity(id: string, rank: int) | ByIdentity(kind: string, signature: string, rank: int)

  /** An entity with the identity signatures to look it up by, those of them that reject a match, and
      the identity its first source gives it, if any. */
  datatype Upsert = Upsert(entity: Entity, lookup: set<string>, rejecting: set<string>, generated: string)

  /** Entities a source no longer reports: `misses` says which, by their sources. */
  datatype Stale = Stale(source: string, kind: string, deletes: bool, rank: int, misses: Entity -> bool)

  datatype Merge = Merge(target: string, sources: seq<string>)

  /** A split replacement under the identity the request spells, before trimming. */
  datatype Part = Part(raw: string, entity: Entity)

  datatype Split = Split(source: string, parts: seq<Part>)

  /** A kind to define, under its name. */
  datatype NamedType = NamedType(name: string, typ: CIType)

  datatype Mutations = Mutations(
    deleteEdges: seq<string>,
    deleteEdgeRequests: seq<EdgeDelete>,
    deleteEntityRequests: seq<EntityDelete>,
    deleteEntities: seq<string>,
    deleteRelationTypes: seq<string>,
    deleteCITypes: seq<string>,
    upsertCITypes: seq<NamedType>,
    upsertRelationTypes: seq<RelationType>,
    upsertEntities: seq<Upsert>,
    markStale: seq<Stale>,
    mergeEntities: seq<Merge>,
    splitEntities: seq<Split>,
    upsertEdges: seq<Edge>)

  /** Every split replacement is spelled the way it is stored. */
  predicate TrimmedSplits(trim: string -> string, splits: seq<Split>) {
    forall r :: r in splits ==> TrimmedParts(trim, r.parts)
  }

  predicate TrimmedParts(trim: string -> string, parts: seq<Part>) {
    forall part :: part in parts ==> part.raw != "" && trim(part.raw) == part.raw
  }

  // ---------- the store ----------

  datatype Store = Store(entities: Entities, edges: Edges, relations: RelationTypes)

  /** A graph: its kinds and its store. */
  datatype State = State(types: Types, store: Store)

  /** Apply `f` to each item in turn, stopping at the first failure. */
  ghost function Each<S, A>(f: (S, A) -> Option<S>, s: S, items: seq<A>): Option<S>
    decreases |items|
  {
    if items == [] then Some(s)
    else
      var before := Each(f, s, items[..|items| - 1]);
      if before.None? then None else f(before.value, items[|items| - 1])
  }

  lemma {:induction false} EachFails<S, A>(f: (S, A) -> Option<S>, s: S, items: seq<A>, n: nat)
    requires n <= |items| && Each(f, s, items[..n]).None?
    ensures Each(f, s, items).None?
    decreases |items|
  {
    if n < |items| {
      var shorter := items[..|items| - 1];
      assert shorter[..n] == items[..n];
      EachFails(f, s, shorter, n);
    } else {
      assert items[..n] == items;
    }
  }

  // ---------- deletes ----------

  datatype Found = Missing | One(id: string) | Ambiguous

  ghost function Single(ids: set<string>): Found {
    if |ids| > 1 then Ambiguous else if ids == {} then Missing else var id :| id in ids; One(id)
  }

  lemma SingleIs(ids: set<string>, id: string)
    requires ids == {id}
    ensures Single(ids) == One(id)
  {
    assert |ids| == 1;
  }

  /** resolveEdgeReference. */
  ghost function ResolveEdge(edges: Edges, ref: string): Found {
    if ref in edges then One(ref) else Single(set id | id in edges && ref in edges[id].aliases)
  }

  ghost function WithoutEdge(s: Store, id: string): Store {
    s.(edges := s.edges - {id})
  }

  ghost function DeleteEdge(s: Store, ref: string): Option<Store> {
    if ref == "" then None
    else
      match ResolveEdge(s.edges, ref)
      case Ambiguous => None
      case Missing => Some(s)
      case One(id) => Some(WithoutEdge(s, id))
  }

  /** An edge delete takes effect when it outranks the source the edge exists by. */
  ghost function DeleteRanked(s: Store, id: string, rank: int): Store {
    if id in s.edges && rank >= s.edges[id].rank then WithoutEdge(s, id) else s
  }

  ghost function DeleteEdgeRequest(rules: Rules, s: Store, r: EdgeDelete): Option<Store> {
    match r
    case ByEndpoints(typ, source, target, rank) =>
      if typ == "" || source == "" || target == "" then None else Some(DeleteRanked(s, rules.canonical(typ, source, target), rank))
    case ByReference(id, rank) =>
      if id == "" then None
      else
        match ResolveEdge(s.edges, id)
        case Ambiguous => None
        case Missing => Some(s)
        case One(found) => Some(DeleteRanked(s, found, rank))
  }

  /** ResolveEntityReference: an ambiguous alias resolves to nothing. */
  ghost function ResolveEntity(entities: Entities, ref: string): Found {
    if ref == "" then Missing
    else if ref in entities then One(ref)
    else Single(set id | id in entities && ref in entities[id].mergedFrom)
  }

  /** The edges that do not touch any of `gone`. */
  ghost function Detached(edges: Edges, gone: set<string>): Edges {
    map id | id in edges && edges[id].source !in gone && edges[id].target !in gone :: edges[id]
  }

  /** deleteEntityForce: an entity goes with its edges. */
  ghost function WithoutEntity(s: Store, id: string): Store {
    s.(entities := s.entities - {id}, edges := Detached(s.edges, {id}))
  }

  ghost function DeleteEntity(s: Store, ref: string): Option<Store> {
    if ref == "" then None
    else
      match ResolveEntity(s.entities, ref)
      case One(id) => Some(WithoutEntity(s, id))
      case _ => Some(s)
  }

  /** The owners of an identity signature of a kind. */
  ghost function Owners(signs: Signer, entities: Entities, kind: string, signature: string): set<string> {
    set id | id in entities && entities[id].kind == kind && signature in Signatures(signs, entities[id])
  }

  ghost function DeleteEntityRequest(rules: Rules, s: Store, r: EntityDelete): Option<Store> {
    var found :=
      match r
      case ByEntity(id, _) => if id == "" then Ambiguous else ResolveReference(s.entities, id)
      case ByIdentity(kind, signature, _) => if kind == "" || signature == "" then Ambiguous else Single(Owners(rules.signs, s.entities, kind, signature));
    match found
    case Ambiguous => None
    case Missing => Some(s)
    case One(id) => if id in s.entities && r.rank >= s.entities[id].rank then Some(WithoutEntity(s, id)) else Some(s)
  }

  ghost function ResolveReference(entities: Entities, ref: string): Found {
    if ResolveEntity(entities, ref).One? then ResolveEntity(entities, ref) else Missing
  }

  // ---------- relation types ----------

  /** normalizeRelationType, for names already trimmed. */
  predicate AdmitsRelation(r: RelationType) {
    r.name != "" && (r.allowCrossKind || r.fromKind != "" || r.toKind != "" || r.fromKinds != [] || r.toKinds != [])
  }

  /** The edges of no type in `gone`. */
  ghost function Untyped(edges: Edges, gone: set<string>): Edges {
    map id | id in edges && edges[id].typ !in gone :: edges[id]
  }

  ghost function DeleteRelations(s: Store, names: seq<string>): Option<Store> {
    if "" in names then None
    else
      var gone := set n | n in names;
      Some(s.(relations := s.relations - gone, edges := Untyped(s.edges, gone)))
  }

  function Registered(relations: RelationTypes, types: seq<RelationType>): RelationTypes
    decreases |types|
  {
    if types == [] then relations
    else Registered(relations, types[..|types| - 1])[types[|types| - 1].name := types[|types| - 1]]
  }

  /** validateEdge and validateCardinality of one stored edge. */
  predicate EdgeHolds(s: Store, e: Edge) {
    EdgeOk(s.relations, s.entities, e) && forall x :: x in s.edges ==> !Conflict(CardinalityOf(s.relations, e.typ), e, s.edges[x])
  }

  ghost function UpsertRelations(s: Store, types: seq<RelationType>): Option<Store> {
    if exists i :: 0 <= i < |types| && !AdmitsRelation(types[i]) then None
    else
      var next := s.(relations := Registered(s.relations, types));
      if forall id :: id in next.edges && (exists i :: 0 <= i < |types| && types[i].name == next.edges[id].typ) ==> EdgeHolds(next, next.edges[id])
      then Some(next) else None
  }

  // ---------- entities ----------

  /** findEntityByIdentity: every entity of the kind that has one of the looked up signatures. */
  ghost function Matches(signs: Signer, entities: Entities, kind: string, lookup: set<string>): set<string> {
    set id | id in entities && entities[id].kind == kind && Signatures(signs, entities[id]) * lookup != {}
  }

  /** resolveEntityID: the entity an upsert is about. */
  ghost function TargetOf(signs: Signer, entities: Entities, u: Upsert): Found {
    var e := u.entity;
    match Single(Matches(signs, entities, e.kind, u.lookup))
    case Ambiguous => Ambiguous
    case Missing => if e.id != "" then One(e.id) else if u.generated != "" then One(u.generated) else Missing
    case One(id) =>
      if e.id != "" && id != e.id && Signatures(signs, entities[id]) * u.rejecting * u.lookup != {} then Ambiguous else One(id)
  }

  /** Uniqueness of a new entity value, by fields and by identity. */
  ghost predicate EntityFits(rules: Rules, entities: Entities, e: Entity) {
    && (forall id :: id in entities && id != e.id ==> !SharesUnique(rules.unique, e, entities[id]))
    && (forall id :: id in entities && id != e.id && entities[id].kind == e.kind ==> Signatures(rules.signs, entities[id]) * Signatures(rules.signs, e) == {})
  }

  /** applyEntitySchema: the entity with the defaults of its kind, unless its fields do not fit. */
  function Prepared(rules: Rules, e: Entity): Option<Entity> {
    if e.kind == "" then None
    else
      var prepared :- rules.prepare(e);
      Some(prepared.(id := e.id, kind := e.kind))
  }

  /** What an upsert makes of the entity it is about. */
  function Upserted(rules: Rules, entities: Entities, e: Entity, target: string): Entity {
    if target in entities then rules.upsertEntity(entities[target], e).(id := target, kind := e.kind)
    else e.(id := target)
  }

  ghost function UpsertEntity(rules: Rules, s: Store, u: Upsert): Option<Store> {
    var e :- Prepared(rules, u.entity);
    match TargetOf(rules.signs, s.entities, u)
    case Ambiguous => None
    case Missing => None
    case One(target) =>
      if e.id != "" && e.id != target && e.id in s.entities then None
      else if target in s.entities && s.entities[target].kind != e.kind then None
      else
        var next := Upserted(rules, s.entities, e, target);
        if !EntityFits(rules, s.entities, next) then None else Some(s.(entities := s.entities[target := next]))
  }

  /** applySourceStale: entities the source misses are marked, or deleted when it outranks them. */
  predicate Selected(st: Stale, e: Entity) {
    (st.kind == "" || e.kind == st.kind) && st.misses(e)
  }

  ghost function StaleGone(st: Stale, entities: Entities): set<string> {
    if st.deletes then set id | id in entities && Selected(st, entities[id]) && st.rank >= entities[id].rank else {}
  }

  ghost function StaleMarked(rules: Rules, st: Stale, e: Entity): Entity {
    if !st.deletes && Selected(st, e) then e.(body := rules.staleBody(e, st.source)) else e
  }

  ghost function MarkStale(rules: Rules, s: Store, st: Stale): Option<Store> {
    if st.source == "" then None
    else
      var gone := StaleGone(st, s.entities);
      Some(s.(entities := map id | id in s.entities && id !in gone :: StaleMarked(rules, st, s.entities[id]), edges := Detached(s.edges, gone)))
  }

  // ---------- merges ----------

  function Redirected(e: Edge, source: string, target: string): Edge {
    e.(source := if e.source == source then target else e.source, target := if e.target == source then target else e.target)
  }

  function CanonicalId(rules: Rules, e: Edge): string {
    rules.canonical(e.typ, e.source, e.target)
  }

  /** canonicalizeEdge: the edge under its canonical identity; one it had before becomes an alias. */
  function Canonicalized(rules: Rules, e: Edge): Edge {
    var next := CanonicalId(rules, e);
    rules.canonicalize(e).(
      id := next,
      typ := e.typ,
      source := e.source,
      target := e.target,
      aliases := if e.id == "" || e.id == next then e.aliases else e.aliases + [e.id])
  }

  /** mergeEdgeForUpsert keeps the canonical identity and the incoming type and endpoints. */
  function MergedEdge(rules: Rules, existing: Edge, incoming: Edge): Edge {
    rules.upsertEdge(existing, incoming).(id := CanonicalId(rules, incoming), typ := incoming.typ, source := incoming.source, target := incoming.target)
  }

  /** One step of redirectMergeEdges: the redirected edge is merged with the edge it coincides with. */
  function RedirectOne(rules: Rules, edges: Edges, id: string, source: string, target: string): Edges
    requires id in edges
  {
    var e := Canonicalized(rules, Redirected(edges[id], source, target));
    var rest := edges - {id};
    rest[e.id := if e.id in rest then MergedEdge(rules, e, Canonicalized(rules, rest[e.id])) else e]
  }

  ghost function Incidents(edges: Edges, entity: string): set<string> {
    set id | id in edges && Incident(edges[id], entity)
  }

  /** redirectMergeEdges over the incident edges in the order given. */
  ghost function RedirectAll(rules: Rules, edges: Edges, ids: seq<string>, source: string, target: string): Edges
    decreases |ids|
  {
    if ids == [] then edges
    else
      var before := RedirectAll(rules, edges, ids[..|ids| - 1], source, target);
      if ids[|ids| - 1] in before then RedirectOne(rules, before, ids[|ids| - 1], source, target) else before
  }

  /** appendUnique: the non-empty values once each, in order of first appearance. */
  function AppendUnique(values: seq<string>): seq<string>
    decreases |values|
  {
    if values == [] then []
    else
      var before, last := AppendUnique(values[..|values| - 1]), values[|values| - 1];
      if last == "" || last in before then before else before + [last]
  }

  /** A merge under way: the store, the folded target, and the edges redirected so far. */
  datatype Merging = Merging(store: Store, target: Entity, affected: set<string>)

  function NextIds(rules: Rules, edges: Edges, ids: set<string>, source: string, target: string): set<string> {
    set id | id in ids && id in edges :: CanonicalId(rules, Redirected(edges[id], source, target))
  }

  ghost function MergeSource(rules: Rules, m: Merging, target: string, source: string): Option<Merging> {
    if source == target then Some(m)
    else if source !in m.store.entities || m.store.entities[source].kind != m.target.kind then None
    else
      var folded := rules.mergeEntity(m.target, m.store.entities[source]);
      var ids := Incidents(m.store.edges, source);
      Some(Merging(
        m.store.(entities := m.store.entities - {source}, edges := RedirectAll(rules, m.store.edges, Sorted(ids), source, target)),
        folded.(kind := m.target.kind, mergedFrom := AppendUnique(folded.mergedFrom + [source])),
        m.affected + NextIds(rules, m.store.edges, ids, source, target)))
  }

  ghost function MergeSources(rules: Rules, m: Merging, target: string, sources: seq<string>): Option<Merging>
    decreases |sources|
  {
    if sources == [] then Some(m)
    else
      var before := MergeSources(rules, m, target, sources[..|sources| - 1]);
      if before.None? then None else MergeSource(rules, before.value, target, sources[|sources| - 1])
  }

  lemma {:induction false} MergeSourcesFails(rules: Rules, m: Merging, target: string, sources: seq<string>, n: nat)
    requires n <= |sources| && MergeSources(rules, m, target, sources[..n]).None?
    ensures MergeSources(rules, m, target, sources).None?
    decreases |sources|
  {
    if n < |sources| {
      var shorter := sources[..|sources| - 1];
      assert shorter[..n] == sources[..n];
      MergeSourcesFails(rules, m, target, shorter, n);
    } else {
      assert sources[..n] == sources;
    }
  }

  /** applyMerge. */
  ghost function MergeEntities(rules: Rules, s: Store, r: Merge): Option<Store> {
    if r.target !in s.entities then None
    else
      var merged := MergeSources(rules, Merging(s, s.entities[r.target], {}), r.target, r.sources);
      if merged.None? then None
      else
        var e := merged.value.target.(id := r.target);
        var next := merged.value.store.(entities := merged.value.store.entities[r.target := e]);
        if !rules.conforms(e) || !EntityFits(rules, next.entities, e) then None
        else if exists id :: id in merged.value.affected && id in next.edges && !EdgeHolds(next, next.edges[id]) then None
        else Some(next)
  }

  // ---------- splits and edges ----------

  /** A replacement as it is stored. */
  function Replacement(rules: Rules, part: Part): Option<Entity> {
    Prepared(rules, part.entity.(id := rules.trim(part.raw)))
  }

  ghost function SplitPart(rules: Rules, source: string): (Store, Part) -> Option<Store> {
    (s: Store, part: Part) =>
      var e :- Replacement(rules, part);
      if e.id == source || e.id in s.entities || !EntityFits(rules, s.entities, e) then None
      else Some(s.(entities := s.entities[e.id := e]))
  }

  /** applySplit. */
  ghost function SplitEntity(rules: Rules, s: Store, r: Split): Option<Store> {
    if r.source == "" || r.source !in s.entities then None
    else Each(SplitPart(rules, r.source), WithoutEntity(s, r.source), r.parts)
  }

  /** The edge stage of applyMutations. */
  ghost function UpsertEdge(rules: Rules, s: Store, incoming: Edge): Option<Store> {
    if incoming.typ == "" || incoming.source == "" || incoming.target == "" then None
    else
      var e := Canonicalized(rules, incoming);
      if !EdgeOk(s.relations, s.entities, e) then None
      else
        var stored := if e.id in s.edges then MergedEdge(rules, s.edges[e.id], e) else e;
        var next := s.(edges := s.edges[e.id := stored]);
        if !EdgeHolds(next, stored) then None else Some(next)
  }

  // ---------- kinds ----------

  /** normalizeCIType, for names already trimmed. */
  predicate AdmitsType(base: Base, n: NamedType) {
    n.name != "" && "" !in n.typ.parents && base.wellFormed(n.typ)
  }

  function Retyped(types: Types, upserts: seq<NamedType>): Types
    decreases |upserts|
  {
    if upserts == [] then types
    else Retyped(types, upserts[..|upserts| - 1])[upserts[|upserts| - 1].name := upserts[|upserts| - 1].typ]
  }

  /** entityKindSet. */
  function UsedKinds(entities: Entities): set<string> {
    set id | id in entities :: entities[id].kind
  }

  function Names(deletes: seq<string>, upserts: seq<NamedType>): set<string> {
    (set n | n in deletes) + set n | n in upserts :: n.name
  }

  /** The kinds among `changed` or below one of them. */
  ghost predicate Below(types: Types, changed: set<string>, kind: string) {
    kind in changed || exists path :: Ancestry(types, kind, path) && path[|path| - 1] in changed
  }

  /** validateEntitiesAgainstCITypesForKinds: the entities of some kinds fit their fields, and share neither
      a unique field nor an identity that a rule gives them. */
  ghost predicate KindsFit(base: Base, types: Types, entities: Entities, kinds: iset<string>) {
    var rules := Under(base, types);
    && (forall id :: id in entities && entities[id].kind in kinds ==> rules.conforms(entities[id]))
    && (forall i, j :: i in entities && j in entities && i != j && entities[i].kind in kinds ==> !SharesUnique(rules.unique, entities[i], entities[j]))
    && (forall i, j :: i in entities && j in entities && i != j && entities[i].kind == entities[j].kind && entities[i].kind in kinds ==>
          Signatures(RuleSigns(base, types), entities[i]) !! Signatures(RuleSigns(base, types), entities[j]))
  }

  /** applyCITypeMutations: only the kinds below a changed one are looked at. */
  ghost function ChangeTypes(base: Base, types: Types, entities: Entities, deletes: seq<string>, upserts: seq<NamedType>): Option<Types> {
    if deletes == [] && upserts == [] then Some(types)
    else if "" in deletes || (exists n :: n in deletes && n in UsedKinds(entities)) || (exists n :: n in upserts && !AdmitsType(base, n)) then None
    else
      var next := Retyped(types - (set n | n in deletes), upserts);
      var affected := iset kind | Below(next, Names(deletes, upserts), kind);
      if ParentsExist(next) && Acyclic(next) && KindsFit(base, next, entities, affected) then Some(next) else None
  }

  // ---------- the commit ----------

  ghost function DeletingEdge(rules: Rules): (Store, EdgeDelete) -> Option<Store> {
    (s: Store, r: EdgeDelete) => DeleteEdgeRequest(rules, s, r)
  }

  ghost function DeletingEntity(rules: Rules): (Store, EntityDelete) -> Option<Store> {
    (s: Store, r: EntityDelete) => DeleteEntityRequest(rules, s, r)
  }

  ghost function UpsertingEntity(rules: Rules): (Store, Upsert) -> Option<Store> {
    (s: Store, u: Upsert) => UpsertEntity(rules, s, u)
  }

  ghost function MarkingStale(rules: Rules): (Store, Stale) -> Option<Store> {
    (s: Store, st: Stale) => MarkStale(rules, s, st)
  }

  ghost function MergingEntities(rules: Rules): (Store, Merge) -> Option<Store> {
    (s: Store, r: Merge) => MergeEntities(rules, s, r)
  }

  ghost function SplittingEntity(rules: Rules): (Store, Split) -> Option<Store> {
    (s: Store, r: Split) => SplitEntity(rules, s, r)
  }

  ghost function UpsertingEdge(rules: Rules): (Store, Edge) -> Option<Store> {
    (s: Store, e: Edge) => UpsertEdge(rules, s, e)
  }

  ghost function DeleteStages(rules: Rules, s: Store, m: Mutations): Option<Store> {
    var s1 :- Each(DeleteEdge, s, m.deleteEdges);
    var s2 :- Each(DeletingEdge(rules), s1, m.deleteEdgeRequests);
    var s3 :- Each(DeletingEntity(rules), s2, m.deleteEntityRequests);
    Each(DeleteEntity, s3, m.deleteEntities)
  }

  ghost function EntityStages(rules: Rules, s: Store, m: Mutations): Option<Store> {
    var s1 :- Each(UpsertingEntity(rules), s, m.upsertEntities);
    var s2 :- Each(MarkingStale(rules), s1, m.markStale);
    var s3 :- Each(MergingEntities(rules), s2, m.mergeEntities);
    Each(SplittingEntity(rules), s3, m.splitEntities)
  }

  /** applyMutations, stage by stage: kinds change before relation types are redefined and entities and
      edges are written under the new kinds. */
  ghost function Commit(base: Base, s: State, m: Mutations): Option<State> {
    var s1 :- DeleteStages(Under(base, s.types), s.store, m);
    var s2 :- DeleteRelations(s1, m.deleteRelationTypes);
    var types :- ChangeTypes(base, s.types, s2.entities, m.deleteCITypes, m.upsertCITypes);
    var s3 :- UpsertRelations(s2, m.upsertRelationTypes);
    var s4 :- EntityStages(Under(base, types), s3, m);
    var s5 :- Each(UpsertingEdge(Under(base, types)), s4, m.upsertEdges);
    Some(State(types, s5))
  }
}
