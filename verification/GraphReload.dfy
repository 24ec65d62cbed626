/** Loading a snapshot: entities that share a source are joined, edges merged under their identities, and
    the whole graph checked (internal/graph/graph.go, entity_canonical.go, edge_merge.go, edge_validate.go). */
module GraphReloads {
  import opened CommitSteps
  import opened GraphModel
  import opened GraphReference
  import opened GraphConsistency
  import opened Schemas
  import opened StringOrder

  /** A relation type at one end of an edge. */
  datatype Endpoint = Endpoint(entity: string, typ: string)

  predicate UsesOut(c: Cardinality) {
    c.OneToOne? || c.ManyToOne?
  }

  predicate UsesIn(c: Cardinality) {
    c.OneToOne? || c.OneToMany?
  }

  /** The ends that edges seen so far occupy. */
  ghost function OutEnds(relations: RelationTypes, edges: Edges, seen: set<string>): set<Endpoint> {
    set id | id in seen && id in edges && UsesOut(CardinalityOf(relations, edges[id].typ)) :: Endpoint(edges[id].source, edges[id].typ)
  }

  ghost function InEnds(relations: RelationTypes, edges: Edges, seen: set<string>): set<Endpoint> {
    set id | id in seen && id in edges && UsesIn(CardinalityOf(relations, edges[id].typ)) :: Endpoint(edges[id].target, edges[id].typ)
  }

  /** An edge conflicts with an edge seen before exactly when one of its ends is taken. */
  lemma TakenIsConflict(relations: RelationTypes, edges: Edges, seen: set<string>, id: string)
    requires id in edges && id !in seen && seen <= edges.Keys && forall x :: x in edges ==> edges[x].id == x
    ensures var e, c := edges[id], CardinalityOf(relations, edges[id].typ);
      (UsesOut(c) && Endpoint(e.source, e.typ) in OutEnds(relations, edges, seen)) || (UsesIn(c) && Endpoint(e.target, e.typ) in InEnds(relations, edges, seen))
      <==> exists x :: x in seen && Conflict(c, e, edges[x])
  {
    var e, c := edges[id], CardinalityOf(relations, edges[id].typ);
    var out, into := OutEnds(relations, edges, seen), InEnds(relations, edges, seen);
    if x :| x in seen && Conflict(c, e, edges[x]) {
      assert Endpoint(edges[x].source, edges[x].typ) in out || !UsesOut(c);
      assert Endpoint(edges[x].target, edges[x].typ) in into || !UsesIn(c);
    }
    if UsesOut(c) && Endpoint(e.source, e.typ) in out {
      var x :| x in seen && edges[x].source == e.source && edges[x].typ == e.typ;
      assert Conflict(c, e, edges[x]);
    }
    if UsesIn(c) && Endpoint(e.target, e.typ) in into {
      var x :| x in seen && edges[x].target == e.target && edges[x].typ == e.typ;
      assert Conflict(c, e, edges[x]);
    }
  }

  lemma EndsGrow(relations: RelationTypes, edges: Edges, seen: set<string>, id: string)
    requires id in edges
    ensures var e, c := edges[id], CardinalityOf(relations, edges[id].typ);
      && OutEnds(relations, edges, seen + {id}) == OutEnds(relations, edges, seen) + (if UsesOut(c) then {Endpoint(e.source, e.typ)} else {})
      && InEnds(relations, edges, seen + {id}) == InEnds(relations, edges, seen) + (if UsesIn(c) then {Endpoint(e.target, e.typ)} else {})
  {
    assert id in seen + {id};
  }

  lemma EndsStart(relations: RelationTypes, edges: Edges)
    ensures OutEnds(relations, edges, {}) == {} && InEnds(relations, edges, {}) == {}
  {
  }

  /** No two of the edges in `seen` conflict. */
  ghost predicate PairsOk(relations: RelationTypes, edges: Edges, seen: set<string>) {
    forall i, j :: i in seen && j in seen && i in edges && j in edges ==> !Conflict(CardinalityOf(relations, edges[i].typ), edges[i], edges[j])
  }

  lemma PairsGrow(relations: RelationTypes, edges: Edges, seen: set<string>, id: string)
    requires PairsOk(relations, edges, seen) && id in edges
    requires forall x :: x in seen ==> x in edges && !Conflict(CardinalityOf(relations, edges[id].typ), edges[id], edges[x])
    ensures PairsOk(relations, edges, seen + {id})
  {
    forall i, j | i in seen + {id} && j in seen + {id} && i in edges && j in edges
      ensures !Conflict(CardinalityOf(relations, edges[i].typ), edges[i], edges[j])
    {
      if j == id && i != id {
        ConflictSymmetric(CardinalityOf(relations, edges[i].typ), edges[i], edges[j]);
      }
    }
  }

  /** validateAllCardinalities: one pass with two sets of occupied ends finds whether any two edges conflict. */
  method ValidateAllCardinalities(relations: RelationTypes, edges: Edges) returns (ok: bool)
    requires forall id :: id in edges ==> edges[id].id == id
    ensures ok <==> CardinalityOk(relations, edges, {})
  {
    var out: set<Endpoint>, into: set<Endpoint> := {}, {};
    var todo := edges.Keys;
    ghost var seen: set<string> := {};
    hide Conflict, OutEnds, InEnds;
    EndsStart(relations, edges);
    while todo != {}
      invariant seen == edges.Keys - todo && todo <= edges.Keys
      invariant out == OutEnds(relations, edges, seen) && into == InEnds(relations, edges, seen)
      invariant PairsOk(relations, edges, seen)
      decreases todo
    {
      var id :| id in todo;
      var e := edges[id];
      var c := CardinalityOf(relations, e.typ);
      TakenIsConflict(relations, edges, seen, id);
      EndsGrow(relations, edges, seen, id);
      if UsesOut(c) && Endpoint(e.source, e.typ) in out {
        return false;
      }
      if UsesIn(c) && Endpoint(e.target, e.typ) in into {
        return false;
      }
      PairsGrow(relations, edges, seen, id);
      if UsesOut(c) {
        out := out + {Endpoint(e.source, e.typ)};
      }
      if UsesIn(c) {
        into := into + {Endpoint(e.target, e.typ)};
      }
      todo, seen := todo - {id}, seen + {id};
    }
    assert seen == edges.Keys;
    ok := true;
  }

  /** validateAllEdges. */
  method ValidateAllEdges(s: Store) returns (ok: bool)
    requires forall id :: id in s.edges ==> s.edges[id].id == id
    ensures ok <==> EdgesOk(s.relations, s.entities, s.edges) && CardinalityOk(s.relations, s.edges, {})
  {
    hide CardinalityOk, EdgeOk;
    var todo := s.edges.Keys;
    while todo != {}
      invariant todo <= s.edges.Keys
      invariant forall id :: id in s.edges && id !in todo ==> EdgeOk(s.relations, s.entities, s.edges[id])
      decreases todo
    {
      var id :| id in todo;
      todo := todo - {id};
      if !EdgeOk(s.relations, s.entities, s.edges[id]) {
        return false;
      }
    }
    ok := ValidateAllCardinalities(s.relations, s.edges);
  }

  // ---------- canonical entities ----------

  /** A kind and an identity that a source gives. */
  type SourceKey = (string, string)

  /** No two entities of a kind have a source identity in common. */
  ghost predicate SourcesApart(base: Base, entities: Entities) {
    forall i, j :: i in entities && j in entities && i != j && entities[i].kind == entities[j].kind ==>
      base.sourceSigns(entities[i].identity) !! base.sourceSigns(entities[j].identity)
  }

  /** The table names an owner for the sources of each entity visited, and nothing else. */
  ghost predicate Registers(base: Base, owners: map<SourceKey, string>, visited: Entities) {
    && (forall id, s :: id in visited && s in base.sourceSigns(visited[id].identity) ==> (visited[id].kind, s) in owners)
    && (forall k :: k in owners ==> owners[k] in visited && visited[owners[k]].kind == k.0 && k.1 in base.sourceSigns(visited[owners[k]].identity))
  }

  /** registerCanonicalOwners: an owner found before stays. */
  function WithSources(base: Base, owners: map<SourceKey, string>, id: string, e: Entity): map<SourceKey, string> {
    (map s | s in base.sourceSigns(e.identity) :: (e.kind, s) := id) + owners
  }

  lemma RegistersNext(base: Base, owners: map<SourceKey, string>, visited: Entities, id: string, e: Entity)
    requires Registers(base, owners, visited) && id !in visited
    ensures Registers(base, WithSources(base, owners, id, e), visited[id := e])
  {
  }

  /** A source already owned is shared with its owner. */
  lemma OwnedIsShared(base: Base, owners: map<SourceKey, string>, entities: Entities, visited: Entities, id: string, s: string)
    requires Registers(base, owners, visited) && id in entities && id !in visited
    requires forall x :: x in visited ==> x in entities && visited[x].kind == entities[x].kind && visited[x].identity == entities[x].identity
    requires s in base.sourceSigns(entities[id].identity) && (entities[id].kind, s) in owners
    ensures !SourcesApart(base, entities)
  {
    var owner := owners[(entities[id].kind, s)];
    assert s in base.sourceSigns(entities[owner].identity);
  }

  lemma ApartNext(base: Base, owners: map<SourceKey, string>, visited: Entities, id: string, e: Entity)
    requires Registers(base, owners, visited) && SourcesApart(base, visited) && id !in visited
    requires forall s :: s in base.sourceSigns(e.identity) ==> (e.kind, s) !in owners
    ensures SourcesApart(base, visited[id := e])
  {
  }

  /** backfillFieldSources fills in metadata only. */
  function Backfilled(backfill: Entity -> string, e: Entity): Entity {
    e.(body := backfill(e))
  }

  ghost function BackfilledIn(backfill: Entity -> string, entities: Entities, done: set<string>): Entities {
    map id | id in entities :: if id in done then Backfilled(backfill, entities[id]) else entities[id]
  }

  ghost function VisitedPart(backfill: Entity -> string, entities: Entities, done: set<string>): Entities {
    map id | id in entities && id in done :: Backfilled(backfill, entities[id])
  }

  lemma PartNext(backfill: Entity -> string, entities: Entities, done: set<string>, id: string)
    requires id in entities && id !in done
    ensures VisitedPart(backfill, entities, done + {id}) == VisitedPart(backfill, entities, done)[id := Backfilled(backfill, entities[id])]
    ensures id !in VisitedPart(backfill, entities, done)
    ensures BackfilledIn(backfill, entities, done + {id}) == BackfilledIn(backfill, entities, done)[id := Backfilled(backfill, entities[id])]
    ensures id in BackfilledIn(backfill, entities, done) && BackfilledIn(backfill, entities, done)[id] == entities[id]
  {
  }

  lemma NothingBackfilled(base: Base, backfill: Entity -> string, entities: Entities)
    ensures BackfilledIn(backfill, entities, {}) == entities && VisitedPart(backfill, entities, {}) == map[]
    ensures Registers(base, map[], map[]) && SourcesApart(base, map[])
  {
  }

  lemma AllBackfilled(base: Base, backfill: Entity -> string, entities: Entities)
    ensures SourcesApart(base, VisitedPart(backfill, entities, entities.Keys)) <==> SourcesApart(base, entities)
  {
    var all := VisitedPart(backfill, entities, entities.Keys);
    assert all.Keys == entities.Keys && forall id :: id in all ==> all[id].kind == entities[id].kind && all[id].identity == entities[id].identity;
  }

  /** The entities so far, what was merged into what, and the table of source owners. */
  datatype Canonical = Canonical(entities: Entities, aliases: map<string, string>, owners: map<SourceKey, string>)

  /** What the loop has established of the entities in `done`. */
  ghost predicate Canonicalizing(base: Base, backfill: Entity -> string, entities: Entities, done: set<string>, c: Canonical) {
    && (c.aliases != map[] ==> !SourcesApart(base, entities))
    && (c.aliases == map[] ==>
          && c.entities == BackfilledIn(backfill, entities, done)
          && Registers(base, c.owners, VisitedPart(backfill, entities, done))
          && SourcesApart(base, VisitedPart(backfill, entities, done)))
  }

  lemma CanonicalizingKeeps(base: Base, backfill: Entity -> string, entities: Entities, done: set<string>, c: Canonical, id: string)
    requires Canonicalizing(base, backfill, entities, done, c) && id in entities && id !in done && id in c.entities
    requires forall s :: s in base.sourceSigns(c.entities[id].identity) ==> (c.entities[id].kind, s) !in c.owners
    ensures var e := Backfilled(backfill, c.entities[id]);
      Canonicalizing(base, backfill, entities, done + {id}, Canonical(c.entities[id := e], c.aliases, WithSources(base, c.owners, id, e)))
  {
    hide Registers, SourcesApart, VisitedPart, BackfilledIn, WithSources;
    PartNext(backfill, entities, done, id);
    if c.aliases == map[] {
      var e := Backfilled(backfill, entities[id]);
      ApartNext(base, c.owners, VisitedPart(backfill, entities, done), id, e);
      RegistersNext(base, c.owners, VisitedPart(backfill, entities, done), id, e);
    }
  }

  lemma CanonicalizingMerges(base: Base, backfill: Entity -> string, entities: Entities, done: set<string>, c: Canonical, id: string, s: string, next: Canonical)
    requires Canonicalizing(base, backfill, entities, done, c) && id in entities && id !in done && id in c.entities
    requires s in base.sourceSigns(c.entities[id].identity) && (c.entities[id].kind, s) in c.owners && next.aliases != map[]
    ensures Canonicalizing(base, backfill, entities, done + {id}, next)
  {
    hide Registers, SourcesApart, BackfilledIn;
    PartNext(backfill, entities, done, id);
    if c.aliases == map[] {
      OwnedIsShared(base, c.owners, entities, VisitedPart(backfill, entities, done), id, s);
    }
  }

  lemma CanonicalizingSkips(base: Base, backfill: Entity -> string, entities: Entities, done: set<string>, c: Canonical, id: string)
    requires Canonicalizing(base, backfill, entities, done, c) && id in entities && id !in done && id !in c.entities
    ensures Canonicalizing(base, backfill, entities, done + {id}, c)
  {
    hide Registers, SourcesApart, BackfilledIn, VisitedPart;
    PartNext(backfill, entities, done, id);
  }

  /** One pass of the loop of canonicalizeEntitySet. */
  method CanonicalizeOne(base: Base, types: Types, backfill: Entity -> string, c: Canonical, id: string, ghost entities: Entities, ghost done: set<string>) returns (next: Canonical)
    requires Canonicalizing(base, backfill, entities, done, c) && id in entities && id !in done
    ensures Canonicalizing(base, backfill, entities, done + {id}, next)
  {
    hide Canonicalizing, WithSources, Backfilled;
    if id !in c.entities {
      CanonicalizingSkips(base, backfill, entities, done, c, id);
      return c;
    }
    var e := c.entities[id];
    var shared := set s | s in base.sourceSigns(e.identity) && (e.kind, s) in c.owners;
    if shared == {} {
      assert forall s :: s in base.sourceSigns(e.identity) && (e.kind, s) in c.owners ==> s in shared;
      CanonicalizingKeeps(base, backfill, entities, done, c, id);
      e := Backfilled(backfill, e);
      next := Canonical(c.entities[id := e], c.aliases, WithSources(base, c.owners, id, e));
    } else {
      var s :| s in shared;
      var target := c.owners[(e.kind, s)];
      var merged := if target in c.entities then base.mergeEntity(FieldsUnder(types, c.entities[target].kind), c.entities[target], e).(id := target) else e;
      next := Canonical((c.entities - {id})[target := merged], c.aliases[id := target], WithSources(base, c.owners, target, merged));
      assert id in next.aliases;
      CanonicalizingMerges(base, backfill, entities, done, c, id, s, next);
    }
  }

  /** canonicalizeEntitySet: an entity that shares a source with an earlier one is merged into it. Nothing is
      merged if and only if no source is shared, and then every entity stays what it was but for backfilled
      metadata. */
  method CanonicalizeEntities(base: Base, types: Types, backfill: Entity -> string, entities: Entities) returns (next: Entities, aliases: map<string, string>)
    ensures aliases == map[] <==> SourcesApart(base, entities)
    ensures aliases == map[] ==> next == BackfilledIn(backfill, entities, entities.Keys)
  {
    hide Registers, SourcesApart, VisitedPart, BackfilledIn, Among, SortedAs;
    var c := Canonical(entities, map[], map[]);
    var ids := SortSet(entities.Keys);
    SortedEnds(ids, entities.Keys);
    NothingBackfilled(base, backfill, entities);
    AllBackfilled(base, backfill, entities);
    for i := 0 to |ids|
      invariant Canonicalizing(base, backfill, entities, Among(ids[..i]), c)
    {
      SortedStep(ids, entities.Keys, i);
      c := CanonicalizeOne(base, types, backfill, c, ids[i], entities, Among(ids[..i]));
    }
    next, aliases := c.entities, c.aliases;
  }

  // ---------- merged edges ----------

  /** An edge whose ends are named by what they were merged into. */
  function Renamed(aliases: map<string, string>, e: Edge): Edge {
    e.(
      source := if e.source in aliases then aliases[e.source] else e.source,
      target := if e.target in aliases then aliases[e.target] else e.target)
  }

  ghost function CanonicalizedIn(rules: Rules, edges: Edges, done: set<string>): Edges {
    map id | id in edges && id in done :: Canonicalized(rules, edges[id])
  }

  lemma CanonicalNext(rules: Rules, edges: Edges, done: set<string>, id: string)
    requires EdgesKeyed(rules.canonical, edges) && id in edges && id !in done
    ensures var e := Canonicalized(rules, Renamed(map[], edges[id]));
      e.id == id && id !in CanonicalizedIn(rules, edges, done) && CanonicalizedIn(rules, edges, done + {id}) == CanonicalizedIn(rules, edges, done)[id := e]
  {
    hide CanonicalId;
    assert edges[id].id == id == rules.canonical(edges[id].typ, edges[id].source, edges[id].target) == CanonicalId(rules, edges[id]) by {
      CanonicalIdIs(rules, edges[id]);
    }
    assert Renamed(map[], edges[id]) == edges[id];
  }

  lemma CanonicalIdIs(rules: Rules, e: Edge)
    ensures CanonicalId(rules, e) == rules.canonical(e.typ, e.source, e.target)
  {
  }

  lemma NoneCanonicalized(rules: Rules, edges: Edges)
    ensures CanonicalizedIn(rules, edges, {}) == map[]
  {
  }

  /** mergeEdgeList: edges under one canonical identity are merged. Edges that are keyed by it already stay
      apart, each as canonicalization leaves it. */
  method MergeEdges(rules: Rules, edges: Edges, aliases: map<string, string>) returns (next: Edges)
    ensures aliases == map[] && EdgesKeyed(rules.canonical, edges) ==> next == CanonicalizedIn(rules, edges, edges.Keys)
  {
    hide EdgesKeyed, CanonicalizedIn, Canonicalized, Among, SortedAs, Renamed, MergedEdge;
    next := map[];
    var ids := SortSet(edges.Keys);
    SortedEnds(ids, edges.Keys);
    NoneCanonicalized(rules, edges);
    for i := 0 to |ids|
      invariant aliases == map[] && EdgesKeyed(rules.canonical, edges) ==> next == CanonicalizedIn(rules, edges, Among(ids[..i]))
    {
      SortedStep(ids, edges.Keys, i);
      if aliases == map[] && EdgesKeyed(rules.canonical, edges) {
        CanonicalNext(rules, edges, Among(ids[..i]), ids[i]);
      }
      var e := Canonicalized(rules, Renamed(aliases, edges[ids[i]]));
      next := next[e.id := if e.id in next then MergedEdge(rules, next[e.id], e) else e];
    }
  }

  /** A consistent graph shares no source. */
  lemma GoodSharesNoSource(base: Base, types: Types, entities: Entities)
    requires SeparateIdentities(Signs(base, types), entities)
    ensures SourcesApart(base, entities)
  {
    forall i, j | i in entities && j in entities && i != j && entities[i].kind == entities[j].kind
      ensures base.sourceSigns(entities[i].identity) !! base.sourceSigns(entities[j].identity)
    {
      var a, b := Signatures(Signs(base, types), entities[i]), Signatures(Signs(base, types), entities[j]);
      assert base.sourceSigns(entities[i].identity) <= a && base.sourceSigns(entities[j].identity) <= b;
      assert a !! b;
    }
  }

  /** Canonicalizing again and backfilling metadata touch nothing a constraint looks at. */
  lemma LoadedIsGood(rules: Rules, s: Store, backfill: Entity -> string)
    requires Good(rules, s)
    ensures Good(rules, Store(BackfilledIn(backfill, s.entities, s.entities.Keys), CanonicalizedIn(rules, s.edges, s.edges.Keys), s.relations))
  {
    var entities, edges := BackfilledIn(backfill, s.entities, s.entities.Keys), CanonicalizedIn(rules, s.edges, s.edges.Keys);
    forall id | id in entities ensures id in s.entities && Alike(s.entities[id], entities[id]) {
    }
    FewerEntitiesGood(rules, s.entities, entities);
    forall id | id in edges ensures edges[id].id == id && edges[id].typ == s.edges[id].typ && edges[id].source == s.edges[id].source && edges[id].target == s.edges[id].target {
      CanonicalIdIs(rules, s.edges[id]);
    }
    hide FieldsUnique, SeparateIdentities, Canonicalized, BackfilledIn, CanonicalizedIn;
    SameEdgesGood(rules, s, entities, edges);
  }

  lemma SameEdgesGood(rules: Rules, s: Store, entities: Entities, edges: Edges)
    requires Good(rules, s) && edges.Keys == s.edges.Keys && entities.Keys == s.entities.Keys && forall id :: id in entities ==> Alike(s.entities[id], entities[id])
    requires forall id :: id in edges ==> edges[id].id == id && edges[id].typ == s.edges[id].typ && edges[id].source == s.edges[id].source && edges[id].target == s.edges[id].target
    ensures EdgesKeyed(rules.canonical, edges) && EdgesOk(s.relations, entities, edges) && CardinalityOk(s.relations, edges, {})
  {
    hide FieldsUnique, SeparateIdentities;
    forall id | id in edges ensures EdgeOk(s.relations, entities, edges[id]) {
      assert EdgeOk(s.relations, s.entities, s.edges[id]) && Alike(s.entities[edges[id].source], entities[edges[id].source]) && Alike(s.entities[edges[id].target], entities[edges[id].target]);
    }
    forall i, j | i in edges && j in edges ensures !Conflict(CardinalityOf(s.relations, edges[i].typ), edges[i], edges[j]) {
      assert !Conflict(CardinalityOf(s.relations, s.edges[i].typ), s.edges[i], s.edges[j]);
    }
  }

  /** FromSnapshot of a graph reached by commits: no entity and no edge is merged, the standard relation
      types return, and the edges of the snapshot are accepted. */
  method Reload(base: Base, s: State, standard: RelationTypes, backfill: Entity -> string) returns (ok: bool, loaded: Store)
    requires GoodGraph(base, s)
    ensures ok && Good(Under(base, s.types), loaded)
    ensures loaded.entities == BackfilledIn(backfill, s.store.entities, s.store.entities.Keys)
    ensures loaded.edges == CanonicalizedIn(Under(base, s.types), s.store.edges, s.store.edges.Keys)
    ensures forall name :: name in loaded.relations <==> name in standard || name in s.store.relations
    ensures forall name :: name in s.store.relations ==> loaded.relations[name] == s.store.relations[name]
  {
    hide BackfilledIn, CanonicalizedIn, SourcesApart, SeparateIdentities, FieldsUnique, CardinalityOk, EdgesOk;
    var rules := Under(base, s.types);
    GoodSharesNoSource(base, s.types, s.store.entities);
    LoadedIsGood(rules, s.store, backfill);
    var entities, aliases := CanonicalizeEntities(base, s.types, backfill, s.store.entities);
    var edges := MergeEdges(rules, s.store.edges, aliases);
    ghost var kept := Store(entities, edges, s.store.relations);
    ReloadAccepts(rules, kept, standard);
    loaded := Store(entities, edges, standard + s.store.relations);
    ok := ValidateAllEdges(loaded);
  }
}
