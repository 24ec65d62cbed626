/** What a commit does, said of the maps before and after it and of nothing else: which requests are accepted,
    what is gone, what is stored, and what stays (internal/graph/apply.go, merge.go, split.go, entity_stale.go,
    entity_delete.go, edge_delete.go, relation_mutation.go). */
module GraphEffects {
  import opened GraphModel
  import opened GraphReference
  import opened GraphConsistency
  import opened GraphPieces
  import opened Schemas
  import opened StringOrder

  // ---------- references ----------

  /** A reference names an edge by its identity, or by an alias if it is no identity. */
  predicate EdgeNamed(edges: Edges, ref: string, id: string) {
    id in edges && (id == ref || (ref !in edges && ref in edges[id].aliases))
  }

  /** It names an entity by its identity, or by what was merged into it. */
  predicate EntityNamed(entities: Entities, ref: string, id: string) {
    id in entities && (id == ref || (ref !in entities && ref in entities[id].mergedFrom))
  }

  ghost predicate OnlyEntityNamed(entities: Entities, ref: string, id: string) {
    EntityNamed(entities, ref, id) && forall x :: EntityNamed(entities, ref, x) ==> x == id
  }

  /** The entity is of the kind and has the signature. */
  ghost predicate Owns(base: Base, types: Types, entities: Entities, kind: string, signature: string, id: string) {
    id in entities && entities[id].kind == kind && signature in SignaturesUnder(base, types, entities[id])
  }

  /** The identities that the keys of the entity's kind and its sources give it. */
  ghost function SignaturesUnder(base: Base, types: Types, e: Entity): set<string> {
    (if e.kind in types then base.ruleSigns(types[e.kind].keys, e.fields, e.identity) else {}) + base.sourceSigns(e.identity)
  }

  lemma SignaturesAre(base: Base, types: Types, e: Entity)
    ensures Signatures(Under(base, types).signs, e) == SignaturesUnder(base, types, e)
  {
    SignsAre(base, types, e);
  }

  lemma SingleMeans(ids: set<string>)
    ensures Single(ids).Ambiguous? <==> exists a, b :: a in ids && b in ids && a != b
    ensures Single(ids).Missing? <==> ids == {}
    ensures Single(ids).One? ==> ids == {Single(ids).id}
  {
    if a, b :| a in ids && b in ids && a != b {
      assert b in ids - {a} && |ids - {a}| == |ids| - 1;
      assert |ids| > 1;
    } else if ids != {} {
      var x :| x in ids;
      assert ids == {x};
      SingleIs(ids, x);
    }
  }

  lemma EdgeResolves(edges: Edges, ref: string)
    ensures ResolveEdge(edges, ref).Ambiguous? <==> exists a, b :: EdgeNamed(edges, ref, a) && EdgeNamed(edges, ref, b) && a != b
    ensures ResolveEdge(edges, ref).Missing? <==> forall a :: !EdgeNamed(edges, ref, a)
    ensures ResolveEdge(edges, ref).One? ==> forall a :: EdgeNamed(edges, ref, a) <==> a == ResolveEdge(edges, ref).id
  {
    var ids := set id | id in edges && ref in edges[id].aliases;
    SingleMeans(ids);
    if ref in edges {
      assert EdgeNamed(edges, ref, ref);
    } else {
      assert forall a :: EdgeNamed(edges, ref, a) <==> a in ids;
    }
  }

  lemma EntityResolves(entities: Entities, ref: string)
    requires ref != ""
    ensures ResolveEntity(entities, ref).One? ==> OnlyEntityNamed(entities, ref, ResolveEntity(entities, ref).id)
    ensures !ResolveEntity(entities, ref).One? ==> forall id :: !OnlyEntityNamed(entities, ref, id)
  {
    var ids := set id | id in entities && ref in entities[id].mergedFrom;
    SingleMeans(ids);
    assert ref !in entities ==> forall a :: EntityNamed(entities, ref, a) <==> a in ids;
  }

  // ---------- deletes ----------

  /** The edges that pass. */
  ghost function EdgesWhere(edges: Edges, keep: string -> bool): Edges {
    map k | k in edges && keep(k) :: edges[k]
  }

  /** An edge delete is refused only without a reference or for an ambiguous alias, and takes away the edge
      named and nothing else. */
  lemma EdgeDeleteEffect(base: Base, types: Types, s: Store, ref: string)
    ensures var after := Commit(base, State(types, s), NOTHING.(deleteEdges := [ref]));
      && (after.Some? <==> ref != "" && forall a, b :: EdgeNamed(s.edges, ref, a) && EdgeNamed(s.edges, ref, b) ==> a == b)
      && (after.Some? ==> after.value == State(types, s.(edges := map k | k in s.edges && !EdgeNamed(s.edges, ref, k) :: s.edges[k])))
  {
    OneEdgeDelete(base, types, s, ref);
    EdgeResolves(s.edges, ref);
    hide Commit, ResolveEdge;
    var kept := map k | k in s.edges && !EdgeNamed(s.edges, ref, k) :: s.edges[k];
    if ref != "" && ResolveEdge(s.edges, ref).Missing? {
      assert kept == s.edges;
    } else if ref != "" && ResolveEdge(s.edges, ref).One? {
      assert kept == s.edges - {ResolveEdge(s.edges, ref).id};
    }
  }

  /** A ranked edge delete takes the edge named away exactly when its source ranks no lower than the edge's. */
  lemma EdgeRequestEffect(base: Base, types: Types, s: Store, ref: string, rank: int)
    ensures var after := Commit(base, State(types, s), NOTHING.(deleteEdgeRequests := [ByReference(ref, rank)]));
      && (after.Some? <==> ref != "" && forall a, b :: EdgeNamed(s.edges, ref, a) && EdgeNamed(s.edges, ref, b) ==> a == b)
      && (after.Some? ==> after.value == State(types, s.(edges :=
            map k | k in s.edges && !(EdgeNamed(s.edges, ref, k) && s.edges[k].rank <= rank) :: s.edges[k])))
  {
    OneEdgeRequest(base, types, s, ByReference(ref, rank));
    EdgeResolves(s.edges, ref);
    hide Commit, ResolveEdge;
    var kept := map k | k in s.edges && !(EdgeNamed(s.edges, ref, k) && s.edges[k].rank <= rank) :: s.edges[k];
    if ref != "" && ResolveEdge(s.edges, ref).Missing? {
      assert kept == s.edges;
    } else if ref != "" && ResolveEdge(s.edges, ref).One? {
      var id := ResolveEdge(s.edges, ref).id;
      assert EdgeNamed(s.edges, ref, id);
      assert kept == if rank >= s.edges[id].rank then s.edges - {id} else s.edges;
    }
  }

  /** By type and endpoints, likewise. */
  lemma EdgeBetweenEffect(base: Base, types: Types, s: Store, typ: string, source: string, target: string, rank: int)
    requires Injective(base.canonical) && EdgesKeyed(base.canonical, s.edges)
    ensures var after := Commit(base, State(types, s), NOTHING.(deleteEdgeRequests := [ByEndpoints(typ, source, target, rank)]));
      && (after.Some? <==> typ != "" && source != "" && target != "")
      && (after.Some? ==> after.value == State(types, s.(edges := map k |
            k in s.edges && !(s.edges[k].typ == typ && s.edges[k].source == source && s.edges[k].target == target && s.edges[k].rank <= rank) :: s.edges[k])))
  {
    OneEdgeRequest(base, types, s, ByEndpoints(typ, source, target, rank));
    hide Commit;
    var id := base.canonical(typ, source, target);
    var kept := map k | k in s.edges && !(s.edges[k].typ == typ && s.edges[k].source == source && s.edges[k].target == target && s.edges[k].rank <= rank) :: s.edges[k];
    assert kept == if id in s.edges && rank >= s.edges[id].rank then s.edges - {id} else s.edges;
  }

  /** What is left when an entity goes: everything but it and the edges at it. */
  ghost function Gone(s: Store, goes: string -> bool): Store {
    s.(entities := map k | k in s.entities && !goes(k) :: s.entities[k],
       edges := map k | k in s.edges && !goes(s.edges[k].source) && !goes(s.edges[k].target) :: s.edges[k])
  }

  lemma GoneOne(s: Store, id: string, goes: string -> bool)
    requires forall k :: goes(k) <==> k == id
    ensures WithoutEntity(s, id) == Gone(s, goes)
  {
  }

  lemma GoneNone(s: Store, goes: string -> bool)
    requires forall k :: !goes(k)
    ensures Gone(s, goes) == s
  {
    assert Gone(s, goes).entities == s.entities && Gone(s, goes).edges == s.edges;
  }

  /** A delete by reference is refused only without one; what it names goes with its edges, unless the
      reference stands for several. */
  lemma EntityDeleteEffect(base: Base, types: Types, s: Store, ref: string)
    ensures var after := Commit(base, State(types, s), NOTHING.(deleteEntities := [ref]));
      && (after.Some? <==> ref != "")
      && (after.Some? ==> after.value == State(types, Gone(s, k => OnlyEntityNamed(s.entities, ref, k))))
  {
    OneEntityDelete(base, types, s, ref);
    hide Commit, ResolveEntity, WithoutEntity;
    if ref != "" {
      EntityResolves(s.entities, ref);
      Leaves(s, ResolveEntity(s.entities, ref), k => OnlyEntityNamed(s.entities, ref, k));
    }
  }

  lemma Leaves(s: Store, found: Found, goes: string -> bool)
    requires found.One? ==> goes(found.id) && forall k :: goes(k) ==> k == found.id
    requires !found.One? ==> forall k :: !goes(k)
    ensures Gone(s, goes) == if found.One? then WithoutEntity(s, found.id) else s
  {
    if found.One? {
      GoneOne(s, found.id, goes);
    } else {
      GoneNone(s, goes);
    }
  }

  /** A ranked delete by reference takes the entity away exactly when its source ranks no lower. */
  lemma EntityRequestEffect(base: Base, types: Types, s: Store, ref: string, rank: int)
    ensures var after := Commit(base, State(types, s), NOTHING.(deleteEntityRequests := [ByEntity(ref, rank)]));
      && (after.Some? <==> ref != "")
      && (after.Some? ==> after.value == State(types, Gone(s, k => OnlyEntityNamed(s.entities, ref, k) && s.entities[k].rank <= rank)))
  {
    OneEntityRequest(base, types, s, ByEntity(ref, rank));
    hide Commit, ResolveEntity, WithoutEntity;
    if ref != "" {
      EntityResolves(s.entities, ref);
      var found := ResolveEntity(s.entities, ref);
      Leaves(s, if found.One? && s.entities[found.id].rank <= rank then found else Missing,
        k => OnlyEntityNamed(s.entities, ref, k) && s.entities[k].rank <= rank);
    }
  }

  /** By an identity of a kind: refused when two entities of the kind have it. */
  lemma EntityIdentityEffect(base: Base, types: Types, s: Store, kind: string, signature: string, rank: int)
    ensures var after := Commit(base, State(types, s), NOTHING.(deleteEntityRequests := [ByIdentity(kind, signature, rank)]));
      && (after.Some? <==>
            && kind != "" && signature != ""
            && forall a, b :: Owns(base, types, s.entities, kind, signature, a) && Owns(base, types, s.entities, kind, signature, b) ==> a == b)
      && (after.Some? ==> after.value == State(types, Gone(s, k => Owns(base, types, s.entities, kind, signature, k) && s.entities[k].rank <= rank)))
  {
    OneEntityRequest(base, types, s, ByIdentity(kind, signature, rank));
    hide Commit, WithoutEntity, Under;
    var owners := Owners(Under(base, types).signs, s.entities, kind, signature);
    forall k ensures k in owners <==> Owns(base, types, s.entities, kind, signature, k) {
      if k in s.entities {
        SignaturesAre(base, types, s.entities[k]);
      }
    }
    SingleMeans(owners);
    var found := Single(owners);
    hide Owns, Owners, Single;
    if kind != "" && signature != "" && !found.Ambiguous? {
      Leaves(s, if found.One? && found.id in s.entities && s.entities[found.id].rank <= rank then found else Missing,
        k => Owns(base, types, s.entities, kind, signature, k) && s.entities[k].rank <= rank);
    }
  }

  // ---------- types ----------

  /** Deleting relation types takes their edges along. */
  lemma RelationDeleteEffect(base: Base, types: Types, s: Store, names: seq<string>)
    ensures var after := Commit(base, State(types, s), NOTHING.(deleteRelationTypes := names));
      && (after.Some? <==> "" !in names)
      && (after.Some? ==> after.value == State(types, s.(
            relations := map n | n in s.relations && n !in names :: s.relations[n],
            edges := map k | k in s.edges && s.edges[k].typ !in names :: s.edges[k])))
  {
    OneTypeChange(base, types, s, names, []);
    hide Commit;
    assert (map n | n in s.relations && n !in names :: s.relations[n]) == s.relations - (set n | n in names);
  }

  /** The last item of a name. */
  ghost predicate Last<A>(items: seq<A>, name: A -> string, n: string, i: int) {
    0 <= i < |items| && name(items[i]) == n && forall j :: i < j < |items| ==> name(items[j]) != n
  }

  ghost predicate Unnamed<A>(items: seq<A>, name: A -> string, n: string) {
    forall i :: 0 <= i < |items| ==> name(items[i]) != n
  }

  /** What a list of definitions leaves: the last one of each name, and what it does not name. */
  ghost predicate Redefines<A, V(!new)>(before: map<string, V>, items: seq<A>, name: A -> string, value: A -> V, after: map<string, V>) {
    && (forall n, i :: Last(items, name, n, i) ==> n in after && after[n] == value(items[i]))
    && (forall n :: Unnamed(items, name, n) ==> (n in after <==> n in before) && (n in before ==> after[n] == before[n]))
  }

  lemma RedefinesMore<A, V(!new)>(before: map<string, V>, items: seq<A>, x: A, name: A -> string, value: A -> V, after: map<string, V>)
    requires Redefines(before, items, name, value, after)
    ensures Redefines(before, items + [x], name, value, after[name(x) := value(x)])
  {
    var longer := items + [x];
    assert longer[|items|] == x;
    forall n, i | Last(longer, name, n, i) ensures n in after[name(x) := value(x)] && after[name(x) := value(x)][n] == value(longer[i]) {
      if i < |items| {
        assert name(longer[|items|]) != n;
        assert forall j :: i < j < |items| ==> longer[j] == items[j];
        assert Last(items, name, n, i);
      }
    }
    forall n | Unnamed(longer, name, n) ensures n != name(x) && Unnamed(items, name, n) {
      assert name(longer[|items|]) != n;
      forall i | 0 <= i < |items| ensures name(items[i]) != n {
        assert name(longer[i]) != n;
      }
    }
  }

  lemma {:induction false} HasLast<A>(items: seq<A>, name: A -> string, n: string, i: nat) returns (j: nat)
    requires i < |items| && name(items[i]) == n
    ensures Last(items, name, n, j)
    decreases |items| - i
  {
    if k :| i < k < |items| && name(items[k]) == n {
      j := HasLast(items, name, n, k);
    } else {
      j := i;
    }
  }

  lemma RedefinesOnce<A, V(!new)>(before: map<string, V>, items: seq<A>, name: A -> string, value: A -> V, a: map<string, V>, b: map<string, V>)
    requires Redefines(before, items, name, value, a) && Redefines(before, items, name, value, b)
    ensures a == b
  {
    forall n ensures (n in a <==> n in b) && (n in a ==> a[n] == b[n]) {
      if !Unnamed(items, name, n) {
        var i :| 0 <= i < |items| && name(items[i]) == n;
        var j := HasLast(items, name, n, i);
      }
    }
  }

  function RelationName(r: RelationType): string { r.name }

  ghost predicate RelationsRedefined(before: RelationTypes, defined: seq<RelationType>, after: RelationTypes) {
    Redefines(before, defined, RelationName, (r: RelationType) => r, after)
  }

  lemma {:induction false} RegisteredRedefines(before: RelationTypes, defined: seq<RelationType>)
    ensures RelationsRedefined(before, defined, Registered(before, defined))
    decreases |defined|
  {
    if defined != [] {
      var n := |defined| - 1;
      RegisteredRedefines(before, defined[..n]);
      assert defined == defined[..n] + [defined[n]];
      RedefinesMore(before, defined[..n], defined[n], RelationName, (r: RelationType) => r, Registered(before, defined[..n]));
    }
  }

  function TypeName(n: NamedType): string { n.name }

  function TypeOf(n: NamedType): CIType { n.typ }

  lemma {:induction false} RetypedRedefines(before: Types, upserts: seq<NamedType>)
    ensures Redefines(before, upserts, TypeName, TypeOf, Retyped(before, upserts))
    decreases |upserts|
  {
    if upserts != [] {
      var n := |upserts| - 1;
      RetypedRedefines(before, upserts[..n]);
      assert upserts == upserts[..n] + [upserts[n]];
      RedefinesMore(before, upserts[..n], upserts[n], TypeName, TypeOf, Retyped(before, upserts[..n]));
    }
  }

  /** A relation type that can be defined: it has a name and says which kinds it joins. */
  predicate Definable(r: RelationType) {
    r.name != "" && (r.allowCrossKind || r.fromKind != "" || r.toKind != "" || |r.fromKinds| > 0 || |r.toKinds| > 0)
  }

  /** Defining relation types in a consistent graph: accepted exactly when every edge of the graph is valid,
      and no two conflict, under the definitions as they then are. */
  lemma RelationUpsertEffect(base: Base, types: Types, s: Store, defined: seq<RelationType>)
    requires Good(Under(base, types), s)
    ensures var after := Commit(base, State(types, s), NOTHING.(upsertRelationTypes := defined));
      && (after.Some? <==>
            && (forall i :: 0 <= i < |defined| ==> Definable(defined[i]))
            && exists relations :: RelationsRedefined(s.relations, defined, relations) && EdgesOk(relations, s.entities, s.edges) && CardinalityOk(relations, s.edges, {}))
      && (after.Some? ==> after.value == State(types, s.(relations := after.value.store.relations)) && RelationsRedefined(s.relations, defined, after.value.store.relations))
  {
    OneTypeChange(base, types, s, [], defined);
    hide Commit, Under, FieldsUnique, SeparateIdentities, EntitiesKeyed, Redefines;
    var rules, result := Under(base, types), UpsertRelations(s, defined);
    var next := s.(relations := Registered(s.relations, defined));
    RegisteredRedefines(s.relations, defined);
    if result.Some? {
      UpsertRelationsKeepsGood(rules, s, defined);
      assert EdgesOk(next.relations, s.entities, s.edges) && CardinalityOk(next.relations, s.edges, {});
    } else if relations :| RelationsRedefined(s.relations, defined, relations) && EdgesOk(relations, s.entities, s.edges) && CardinalityOk(relations, s.edges, {}) {
      RedefinesOnce(s.relations, defined, RelationName, (r: RelationType) => r, relations, next.relations);
      GoodHolds(next);
    }
  }

  lemma GoodHolds(s: Store)
    requires EdgesOk(s.relations, s.entities, s.edges) && CardinalityOk(s.relations, s.edges, {})
    ensures forall id :: id in s.edges ==> EdgeHolds(s, s.edges[id])
  {
  }

  /** A kind that can be defined. */
  predicate KindDefinable(base: Base, n: NamedType) {
    n.name != "" && (forall i :: 0 <= i < |n.typ.parents| ==> n.typ.parents[i] != "") && base.wellFormed(n.typ)
  }

  /** Changing kinds in a consistent graph: accepted exactly when none in use is deleted, the schema afterwards has all
      parents and no cycle, the whole graph is consistent under it, and the entities of the kinds at or below a
      changed one fit their fields. */
  lemma KindChangeEffect(base: Base, types: Types, s: Store, deletes: seq<string>, upserts: seq<NamedType>)
    requires GoodGraph(base, State(types, s)) && Apart(base) && (deletes != [] || upserts != [])
    ensures var after := Commit(base, State(types, s), NOTHING.(deleteCITypes := deletes, upsertCITypes := upserts));
      && (after.Some? <==>
            && "" !in deletes && (forall id :: id in s.entities ==> s.entities[id].kind !in deletes)
            && (forall i :: 0 <= i < |upserts| ==> KindDefinable(base, upserts[i]))
            && exists next :: KindsRedefined(types, deletes, upserts, next) && GoodGraph(base, State(next, s)) && AffectedConform(base, next, s.entities, deletes, upserts))
      && (after.Some? ==> after.value.store == s && KindsRedefined(types, deletes, upserts, after.value.types))
  {
    OneKindChange(base, types, s, deletes, upserts);
    hide Commit, Under, GoodGraph, KindsFit, Redefines, AffectedConform, KindDefinable, AdmitsType;
    var next := Retyped(types - (set n | n in deletes), upserts);
    RetypedOf(types, deletes, upserts);
    KindRefusals(base, s.entities, deletes, upserts);
    if ChangeTypes(base, types, s.entities, deletes, upserts).Some? {
      ChangeTypesKeepsGood(base, types, s, deletes, upserts);
      FitConforms(base, next, s.entities, deletes, upserts);
    } else if other :| KindsRedefined(types, deletes, upserts, other) && GoodGraph(base, State(other, s)) && AffectedConform(base, other, s.entities, deletes, upserts) {
      RedefinesOnce(map k | k in types && k !in deletes :: types[k], upserts, TypeName, TypeOf, next, other);
      GoodFits(base, next, s, deletes, upserts);
    }
  }

  lemma RetypedOf(types: Types, deletes: seq<string>, upserts: seq<NamedType>)
    ensures KindsRedefined(types, deletes, upserts, Retyped(types - (set n | n in deletes), upserts))
  {
    assert types - (set n | n in deletes) == map k | k in types && k !in deletes :: types[k];
    RetypedRedefines(types - (set n | n in deletes), upserts);
  }

  lemma KindRefusals(base: Base, entities: Entities, deletes: seq<string>, upserts: seq<NamedType>)
    ensures (exists n :: n in deletes && n in UsedKinds(entities)) <==> exists id :: id in entities && entities[id].kind in deletes
    ensures (forall n :: n in upserts ==> AdmitsType(base, n)) <==> forall i :: 0 <= i < |upserts| ==> KindDefinable(base, upserts[i])
  {
    forall n ensures AdmitsType(base, n) <==> KindDefinable(base, n) {
    }
    hide KindDefinable, AdmitsType;
    assert forall n :: n in upserts <==> exists i :: 0 <= i < |upserts| && upserts[i] == n;
    if forall i :: 0 <= i < |upserts| ==> KindDefinable(base, upserts[i]) {
      forall n | n in upserts ensures AdmitsType(base, n) {
        var i :| 0 <= i < |upserts| && upserts[i] == n;
      }
    }
  }

  lemma FitConforms(base: Base, next: Types, entities: Entities, deletes: seq<string>, upserts: seq<NamedType>)
    requires KindsFit(base, next, entities, iset kind | Below(next, Names(deletes, upserts), kind))
    ensures AffectedConform(base, next, entities, deletes, upserts)
  {
    hide Below, Names, SharesUnique, Signatures;
  }

  lemma GoodFits(base: Base, next: Types, s: Store, deletes: seq<string>, upserts: seq<NamedType>)
    requires GoodGraph(base, State(next, s)) && AffectedConform(base, next, s.entities, deletes, upserts)
    ensures ParentsExist(next) && Acyclic(next)
    ensures KindsFit(base, next, s.entities, iset kind | Below(next, Names(deletes, upserts), kind))
  {
    hide Below, Names, SharesUnique, EdgesOk, CardinalityOk, EdgesKeyed, EntitiesKeyed, ParentsExist, Acyclic;
    var signs := Under(base, next).signs;
    forall i, j | i in s.entities && j in s.entities && i != j && s.entities[i].kind == s.entities[j].kind
      ensures Signatures(RuleSigns(base, next), s.entities[i]) !! Signatures(RuleSigns(base, next), s.entities[j])
    {
      SignsAre(base, next, s.entities[i]);
      SignsAre(base, next, s.entities[j]);
      hide Under, RuleSigns, Signatures;
      forall x | x in Signatures(RuleSigns(base, next), s.entities[i]) ensures x !in Signatures(RuleSigns(base, next), s.entities[j]) {
        assert x in Signatures(signs, s.entities[i]);
      }
    }
  }

  ghost predicate KindsRedefined(before: Types, deletes: seq<string>, upserts: seq<NamedType>, after: Types) {
    Redefines(map k | k in before && k !in deletes :: before[k], upserts, TypeName, TypeOf, after)
  }

  /** Entities of a kind that is named, or has an ancestor that is, fit the kind's fields. */
  ghost predicate AffectedConform(base: Base, types: Types, entities: Entities, deletes: seq<string>, upserts: seq<NamedType>) {
    forall id :: id in entities && Below(types, Names(deletes, upserts), entities[id].kind) ==>
      base.conforms(FieldsUnder(types, entities[id].kind), entities[id])
  }
}
