/** Entities, relation types and edges of one graph, and the constraints between them
    (internal/graph/types.go, edge_validate.go). */
module GraphModel {

  datatype Option<+T> = None | Some(value: T) {
    predicate IsFailure() {
      None?
    }

    function PropagateFailure<U>(): Option<U>
      requires None?
    {
      None
    }

    function Extract(): T
      requires Some?
    {
      value
    }
  }

  /** A field value: a scalar has an index key, a composite is compared by its whole value. Its JSON
      form is missing when it cannot be marshalled. */
  datatype Value = Scalar(key: string) | Composite(json: Option<string>, repr: string)

  /** An entity. `identity` is what its identity signatures are computed from beside kind and fields: its
      identity values, sources and confidence. `rank` is the priority of the source it exists by, `body`
      everything no index or constraint looks at. */
  datatype Entity = Entity(
    id: string,
    kind: string,
    fields: map<string, Value>,
    mergedFrom: seq<string>,
    identity: string,
    rank: int,
    body: string)

  /** The encoded identities that a kind, fields and identity values give. */
  type Signer = (string, map<string, Value>, string) -> set<string>

  function Signatures(signs: Signer, e: Entity): set<string> {
    signs(e.kind, e.fields, e.identity)
  }

  /** An edge. `aliases` are its external identities. */
  datatype Edge = Edge(id: string, typ: string, source: string, target: string, aliases: seq<string>, rank: int, body: string)

  datatype Cardinality = ManyToMany | OneToMany | ManyToOne | OneToOne

  datatype RelationType = RelationType(
    name: string,
    fromKind: string,
    fromKinds: seq<string>,
    toKind: string,
    toKinds: seq<string>,
    allowCrossKind: bool,
    cardinality: Cardinality)

  type Entities = map<string, Entity>
  type Edges = map<string, Edge>
  type RelationTypes = map<string, RelationType>

  /** kindAllowed. */
  predicate KindAllowed(kind: string, legacy: string, allowed: seq<string>, allowCrossKind: bool) {
    if allowed == [] && legacy == "" then allowCrossKind
    else (legacy != "" && kind == legacy) || kind in allowed
  }

  /** validateEdge. */
  predicate EdgeOk(relationTypes: RelationTypes, entities: Entities, e: Edge) {
    && e.typ in relationTypes
    && e.source in entities
    && e.target in entities
    && var r := relationTypes[e.typ];
       && KindAllowed(entities[e.source].kind, r.fromKind, r.fromKinds, r.allowCrossKind)
       && KindAllowed(entities[e.target].kind, r.toKind, r.toKinds, r.allowCrossKind)
  }

  /** Two edges that one relation type cannot have together. */
  predicate Conflict(c: Cardinality, a: Edge, b: Edge) {
    && a.id != b.id
    && a.typ == b.typ
    && match c
       case ManyToMany => false
       case OneToMany => a.target == b.target
       case ManyToOne => a.source == b.source
       case OneToOne => a.source == b.source || a.target == b.target
  }

  function CardinalityOf(relationTypes: RelationTypes, typ: string): Cardinality {
    if typ in relationTypes then relationTypes[typ].cardinality else ManyToMany
  }

  /** Every edge is valid: what validateAllEdges asks of each one. */
  ghost predicate EdgesOk(relationTypes: RelationTypes, entities: Entities, edges: Edges) {
    forall id :: id in edges ==> EdgeOk(relationTypes, entities, edges[id])
  }

  /** No two edges conflict, except where one of them is in `unchecked`. */
  ghost predicate CardinalityOk(relationTypes: RelationTypes, edges: Edges, unchecked: set<string>) {
    forall i, j :: i in edges && j in edges && i !in unchecked && j !in unchecked ==>
      !Conflict(CardinalityOf(relationTypes, edges[i].typ), edges[i], edges[j])
  }

  /** Edges are stored under their own identity, which type and endpoints determine. */
  ghost predicate EdgesKeyed(canonical: (string, string, string) -> string, edges: Edges) {
    forall id :: id in edges ==> edges[id].id == id == canonical(edges[id].typ, edges[id].source, edges[id].target)
  }

  ghost predicate EntitiesKeyed(entities: Entities) {
    forall id :: id in entities ==> entities[id].id == id && id != "" && entities[id].kind != ""
  }

  /** No two entities of a kind share the value of one of its unique fields. */
  ghost predicate FieldsUnique(unique: string -> set<string>, entities: Entities) {
    forall i, j :: i in entities && j in entities && i != j ==> !SharesUnique(unique, entities[i], entities[j])
  }

  predicate SharesUnique(unique: string -> set<string>, a: Entity, b: Entity) {
    a.kind == b.kind && exists f :: f in unique(a.kind) && f in a.fields && f in b.fields && a.fields[f] == b.fields[f]
  }

  /** No identity is claimed by two entities of a kind. */
  ghost predicate SeparateIdentities(signs: Signer, entities: Entities) {
    forall i, j, s :: i in entities && j in entities && i != j && entities[i].kind == entities[j].kind && s in Signatures(signs, entities[i]) ==> s !in Signatures(signs, entities[j])
  }

  predicate Incident(e: Edge, entity: string) {
    e.source == entity || e.target == entity
  }
}
