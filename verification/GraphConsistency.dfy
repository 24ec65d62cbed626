/** Local checks imply the global ones: what every successful commit keeps true of the whole graph. */
module GraphConsistency {
  import opened GraphModel
  import opened GraphReference
  import opened Schemas
  import opened StringOrder

  /** The global constraints: keyed stores, valid edges, cardinalities, unique fields and identities. */
  ghost predicate Good(rules: Rules, s: Store) {
    && EdgesKeyed(rules.canonical, s.edges)
    && EntitiesKeyed(s.entities)
    && EdgesOk(s.relations, s.entities, s.edges)
    && CardinalityOk(s.relations, s.edges, {})
    && FieldsUnique(rules.unique, s.entities)
    && SeparateIdentities(rules.signs, s.entities)
  }

  // ---------- shrinking ----------

  /** `after` holds only what `before` held, up to contents no constraint looks at. */
  ghost predicate Fewer(before: Entities, after: Entities) {
    forall id :: id in after ==> id in before && Alike(before[id], after[id])
  }

  predicate Alike(a: Entity, b: Entity) {
    a.id == b.id && a.kind == b.kind && a.fields == b.fields && a.identity == b.identity
  }

  lemma FewerEntitiesGood(rules: Rules, before: Entities, after: Entities)
    requires Fewer(before, after) && EntitiesKeyed(before) && FieldsUnique(rules.unique, before) && SeparateIdentities(rules.signs, before)
    ensures EntitiesKeyed(after) && FieldsUnique(rules.unique, after) && SeparateIdentities(rules.signs, after)
  {
    forall i, j | i in after && j in after && i != j ensures !SharesUnique(rules.unique, after[i], after[j]) {
      assert Alike(before[i], after[i]) && Alike(before[j], after[j]);
      assert !SharesUnique(rules.unique, before[i], before[j]);
    }
    forall i, j, x | i in after && j in after && i != j && after[i].kind == after[j].kind && x in Signatures(rules.signs, after[i])
      ensures x !in Signatures(rules.signs, after[j])
    {
      assert Alike(before[i], after[i]) && Alike(before[j], after[j]);
      assert x in Signatures(rules.signs, before[i]);
    }
  }

  lemma ShrinkKeepsGood(rules: Rules, s: Store, after: Store)
    requires Good(rules, s) && Fewer(s.entities, after.entities) && after.relations == s.relations
    requires forall id :: id in after.edges ==> id in s.edges && after.edges[id] == s.edges[id]
    requires forall id :: id in after.edges ==> after.edges[id].source in after.entities && after.edges[id].target in after.entities
    ensures Good(rules, after)
  {
    FewerEntitiesGood(rules, s.entities, after.entities);
    forall id | id in after.edges ensures EdgeOk(after.relations, after.entities, after.edges[id]) {
      assert EdgeOk(s.relations, s.entities, s.edges[id]);
    }
  }

  lemma DetachKeepsGood(rules: Rules, s: Store, entities: Entities, gone: set<string>)
    requires Good(rules, s) && Fewer(s.entities, entities) && entities.Keys == s.entities.Keys - gone
    ensures Good(rules, Store(entities, Detached(s.edges, gone), s.relations))
  {
    var after := Store(entities, Detached(s.edges, gone), s.relations);
    forall id | id in after.edges ensures after.edges[id].source in entities && after.edges[id].target in entities {
      assert EdgeOk(s.relations, s.entities, s.edges[id]);
    }
    ShrinkKeepsGood(rules, s, after);
  }

  lemma WithoutEntityKeepsGood(rules: Rules, s: Store, id: string)
    requires Good(rules, s)
    ensures Good(rules, WithoutEntity(s, id))
  {
    DetachKeepsGood(rules, s, s.entities - {id}, {id});
  }

  lemma WithoutEdgeKeepsGood(rules: Rules, s: Store, id: string)
    requires Good(rules, s)
    ensures Good(rules, WithoutEdge(s, id))
  {
    forall x | x in s.edges ensures s.edges[x].source in s.entities && s.edges[x].target in s.entities {
      assert EdgeOk(s.relations, s.entities, s.edges[x]);
    }
    ShrinkKeepsGood(rules, s, WithoutEdge(s, id));
  }

  lemma MarkStaleKeepsGood(rules: Rules, s: Store, st: Stale)
    requires Good(rules, s) && MarkStale(rules, s, st).Some?
    ensures Good(rules, MarkStale(rules, s, st).value)
  {
    DetachKeepsGood(rules, s, MarkStale(rules, s, st).value.entities, StaleGone(st, s.entities));
  }

  // ---------- relation types ----------

  lemma DeleteRelationsKeepsGood(rules: Rules, s: Store, names: seq<string>)
    requires Good(rules, s) && DeleteRelations(s, names).Some?
    ensures Good(rules, DeleteRelations(s, names).value)
  {
    var after := DeleteRelations(s, names).value;
    forall id | id in after.edges ensures EdgeOk(after.relations, after.entities, after.edges[id]) {
      assert EdgeOk(s.relations, s.entities, s.edges[id]);
    }
    forall i, j | i in after.edges && j in after.edges
      ensures !Conflict(CardinalityOf(after.relations, after.edges[i].typ), after.edges[i], after.edges[j])
    {
      assert !Conflict(CardinalityOf(s.relations, s.edges[i].typ), s.edges[i], s.edges[j]);
    }
  }

  lemma {:induction false} RegisteredElsewhere(relations: RelationTypes, types: seq<RelationType>, name: string)
    requires forall i :: 0 <= i < |types| ==> types[i].name != name
    ensures name in Registered(relations, types) <==> name in relations
    ensures name in relations ==> Registered(relations, types)[name] == relations[name]
    decreases |types|
  {
    if types != [] {
      RegisteredElsewhere(relations, types[..|types| - 1], name);
    }
  }

  /** Checking the edges of the redefined types is enough: the others do not notice. */
  lemma UpsertRelationsKeepsGood(rules: Rules, s: Store, types: seq<RelationType>)
    requires Good(rules, s) && UpsertRelations(s, types).Some?
    ensures Good(rules, UpsertRelations(s, types).value)
  {
    var after := UpsertRelations(s, types).value;
    forall id | id in after.edges ensures EdgeOk(after.relations, after.entities, after.edges[id]) {
      if i :| 0 <= i < |types| && types[i].name == after.edges[id].typ {
        assert EdgeHolds(after, after.edges[id]);
      } else {
        RegisteredElsewhere(s.relations, types, after.edges[id].typ);
        assert EdgeOk(s.relations, s.entities, s.edges[id]);
      }
    }
    forall i, j | i in after.edges && j in after.edges
      ensures !Conflict(CardinalityOf(after.relations, after.edges[i].typ), after.edges[i], after.edges[j])
    {
      if k :| 0 <= k < |types| && types[k].name == after.edges[i].typ {
        assert EdgeHolds(after, after.edges[i]);
      } else {
        RegisteredElsewhere(s.relations, types, after.edges[i].typ);
        assert !Conflict(CardinalityOf(s.relations, s.edges[i].typ), s.edges[i], s.edges[j]);
      }
    }
  }

  // ---------- entities ----------

  /** Storing an entity that fits keeps entities unique. */
  lemma FittingEntityGood(rules: Rules, entities: Entities, e: Entity)
    requires EntitiesKeyed(entities) && FieldsUnique(rules.unique, entities) && SeparateIdentities(rules.signs, entities)
    requires e.id != "" && e.kind != "" && EntityFits(rules, entities, e)
    ensures var after := entities[e.id := e]; EntitiesKeyed(after) && FieldsUnique(rules.unique, after) && SeparateIdentities(rules.signs, after)
  {
    var after := entities[e.id := e];
    forall i, j | i in after && j in after && i != j ensures !SharesUnique(rules.unique, after[i], after[j]) {
      if i == e.id {
        assert !SharesUnique(rules.unique, e, entities[j]);
      } else if j == e.id {
        assert !SharesUnique(rules.unique, e, entities[i]);
        assert SharesUnique(rules.unique, entities[i], e) ==> SharesUnique(rules.unique, e, entities[i]);
      } else {
        assert !SharesUnique(rules.unique, entities[i], entities[j]);
      }
    }
    forall i, j, x | i in after && j in after && i != j && after[i].kind == after[j].kind && x in Signatures(rules.signs, after[i]) ensures x !in Signatures(rules.signs, after[j]) {
      if i == e.id || j == e.id {
        var other := if i == e.id then after[j] else after[i];
        var a, b := Signatures(rules.signs, other), Signatures(rules.signs, e);
        assert a * b == {};
        assert x in a && x in b ==> x in a * b;
      }
    }
  }

  lemma StoreEntityKeepsGood(rules: Rules, s: Store, e: Entity)
    requires Good(rules, s) && e.id != "" && e.kind != "" && EntityFits(rules, s.entities, e)
    requires e.id in s.entities ==> s.entities[e.id].kind == e.kind
    ensures Good(rules, s.(entities := s.entities[e.id := e]))
  {
    FittingEntityGood(rules, s.entities, e);
    var after := s.entities[e.id := e];
    forall id | id in s.edges ensures EdgeOk(s.relations, after, s.edges[id]) {
      assert EdgeOk(s.relations, s.entities, s.edges[id]);
    }
  }

  lemma UpsertEntityKeepsGood(rules: Rules, s: Store, u: Upsert)
    requires Good(rules, s) && UpsertEntity(rules, s, u).Some?
    ensures Good(rules, UpsertEntity(rules, s, u).value)
  {
    var target := TargetOf(rules.signs, s.entities, u).id;
    StoreEntityKeepsGood(rules, s, Upserted(rules, s.entities, Prepared(rules, u.entity).value, target));
  }

  // ---------- edges ----------

  lemma ConflictSymmetric(c: Cardinality, a: Edge, b: Edge)
    ensures Conflict(c, a, b) <==> Conflict(c, b, a)
  {
  }

  /** Once every unchecked edge has been checked, no pair conflicts. */
  lemma CheckedAll(s: Store, unchecked: set<string>)
    requires CardinalityOk(s.relations, s.edges, unchecked)
    requires forall id :: id in unchecked && id in s.edges ==> EdgeHolds(s, s.edges[id])
    ensures CardinalityOk(s.relations, s.edges, {})
  {
    forall i, j | i in s.edges && j in s.edges
      ensures !Conflict(CardinalityOf(s.relations, s.edges[i].typ), s.edges[i], s.edges[j])
    {
      if i in unchecked {
        assert EdgeHolds(s, s.edges[i]);
      } else if j in unchecked {
        assert EdgeHolds(s, s.edges[j]);
        ConflictSymmetric(CardinalityOf(s.relations, s.edges[i].typ), s.edges[i], s.edges[j]);
      }
    }
  }

  lemma UpsertEdgeKeepsGood(rules: Rules, s: Store, e: Edge)
    requires Good(rules, s) && UpsertEdge(rules, s, e).Some?
    ensures Good(rules, UpsertEdge(rules, s, e).value)
  {
    var after := UpsertEdge(rules, s, e).value;
    var id := CanonicalId(rules, e);
    assert EdgeHolds(after, after.edges[id]);
    CheckedAll(after, {id});
  }

  // ---------- merges ----------

  /** A redirected edge lands under its new identity, whether or not another edge was there, and no
      other edge moves. */
  lemma RedirectOneMoves(rules: Rules, edges: Edges, id: string, source: string, target: string)
    requires Injective(rules.canonical) && EdgesKeyed(rules.canonical, edges)
    requires id in edges && source != target
    ensures var r := Redirected(edges[id], source, target);
      var next := CanonicalId(rules, r);
      var after := RedirectOne(rules, edges, id, source, target);
      && next in after && after[next].typ == r.typ && after[next].source == r.source && after[next].target == r.target && after[next].id == next
      && (forall x :: x in after && x != next ==> x in edges && after[x] == edges[x] && x != id)
      && (forall x :: x in edges && x != id && x != next ==> x in after)
  {
    var next := CanonicalId(rules, Redirected(edges[id], source, target));
    assert next in edges ==> edges[next].id == next == CanonicalId(rules, edges[next]);
  }

  /** The edges while those in `left` are still to be redirected. */
  ghost predicate Redirecting(rules: Rules, before: Edges, now: Edges, left: seq<string>, nexts: set<string>, source: string) {
    && EdgesKeyed(rules.canonical, now)
    && (forall id :: id in left ==> id in now)
    && (forall id :: id in now && Incident(now[id], source) ==> id in left)
    && (forall id :: id in now && id !in nexts ==> id in before && now[id] == before[id])
  }

  /** Redirecting keeps an edge's type, and the kinds at its ends. */
  lemma RedirectedOk(relations: RelationTypes, entities: Entities, e: Edge, r: Edge, source: string, target: string)
    requires EdgeOk(relations, entities, e)
    requires source in entities && target in entities && entities[source].kind == entities[target].kind
    requires r.typ == e.typ && r.source == Redirected(e, source, target).source && r.target == Redirected(e, source, target).target
    ensures EdgeOk(relations, entities, r)
  {
  }

  lemma RedirectStep(rules: Rules, before: Edges, now: Edges, id: string, left: seq<string>, nexts: set<string>, source: string, target: string)
    requires Injective(rules.canonical) && source != target
    requires Redirecting(rules, before, now, [id] + left, nexts, source) && id !in left
    requires forall x :: x in [id] + left ==> x in now && Incident(now[x], source)
    requires CanonicalId(rules, Redirected(now[id], source, target)) in nexts
    ensures var after := RedirectOne(rules, now, id, source, target);
      && Redirecting(rules, before, after, left, nexts, source)
      && forall x :: x in left ==> x in after && after[x] == now[x]
  {
    var after := RedirectOne(rules, now, id, source, target);
    var next := CanonicalId(rules, Redirected(now[id], source, target));
    RedirectOneMoves(rules, now, id, source, target);
    forall x | x in left ensures x != next && x in after && after[x] == now[x] {
      assert x in [id] + left;
      assert now[x].id == x == CanonicalId(rules, now[x]);
    }
    forall x | x in after && Incident(after[x], source) ensures x in left {
      assert x != next && x in [id] + left;
    }
  }

  /** What the loop of redirectMergeEdges has done before the edges in `left`. */
  ghost predicate Redirects(rules: Rules, edges: Edges, now: Edges, left: seq<string>, nexts: set<string>, source: string) {
    && Redirecting(rules, edges, now, left, nexts, source)
    && forall x :: x in left ==> x in now && x in edges && now[x] == edges[x]
  }

  lemma RedirectsStep(rules: Rules, edges: Edges, now: Edges, id: string, left: seq<string>, nexts: set<string>, source: string, target: string)
    requires Injective(rules.canonical) && source != target
    requires Redirects(rules, edges, now, [id] + left, nexts, source) && id !in left
    requires forall x :: x in [id] + left ==> x in edges && Incident(edges[x], source)
    requires nexts == NextIds(rules, edges, Incidents(edges, source), source, target)
    ensures id in now && Redirects(rules, edges, RedirectOne(rules, now, id, source, target), left, nexts, source)
  {
    assert id in [id] + left && now[id] == edges[id];
    assert id in Incidents(edges, source);
    assert forall x :: x in left ==> x in [id] + left;
    RedirectStep(rules, edges, now, id, left, nexts, source, target);
  }

  /** After the loop nothing touches the source, and only the affected edges are new or different. */
  lemma {:induction false} RedirectAllMoves(rules: Rules, edges: Edges, ids: seq<string>, n: nat, nexts: set<string>, source: string, target: string)
    requires Injective(rules.canonical) && EdgesKeyed(rules.canonical, edges) && source != target
    requires SortedAs(ids, Incidents(edges, source)) && n <= |ids|
    requires nexts == NextIds(rules, edges, Incidents(edges, source), source, target)
    ensures Redirects(rules, edges, RedirectAll(rules, edges, ids[..n], source, target), ids[n..], nexts, source)
    ensures n > 0 ==>
      var before := RedirectAll(rules, edges, ids[..n - 1], source, target);
      ids[n - 1] in before && RedirectAll(rules, edges, ids[..n], source, target) == RedirectOne(rules, before, ids[n - 1], source, target)
    decreases n
  {
    hide EdgesKeyed, Injective, Less, NextIds;
    if n > 0 {
      var before := RedirectAll(rules, edges, ids[..n - 1], source, target);
      RedirectAllMoves(rules, edges, ids, n - 1, nexts, source, target);
      var id := ids[n - 1];
      assert ids[..n][..n - 1] == ids[..n - 1] && ids[n - 1..] == [id] + ids[n..];
      LaterDiffers(ids, n - 1);
      forall x | x in [id] + ids[n..] ensures x in edges && Incident(edges[x], source) {
        assert x in ids[n - 1..] && x in ids;
        assert x in Incidents(edges, source);
      }
      hide Redirects, RedirectOne, Incident;
      RedirectsStep(rules, edges, before, id, ids[n..], nexts, source, target);
    } else {
      assert ids[..0] == [] && ids[0..] == ids;
      assert forall x :: x in ids <==> x in Incidents(edges, source);
    }
  }

  lemma RedirectOneOk(rules: Rules, relations: RelationTypes, entities: Entities, edges: Edges, id: string, source: string, target: string)
    requires Injective(rules.canonical) && EdgesKeyed(rules.canonical, edges) && EdgesOk(relations, entities, edges)
    requires id in edges && source != target
    requires source in entities && target in entities && entities[source].kind == entities[target].kind
    ensures EdgesOk(relations, entities, RedirectOne(rules, edges, id, source, target))
  {
    var after := RedirectOne(rules, edges, id, source, target);
    RedirectOneMoves(rules, edges, id, source, target);
    RedirectedOk(relations, entities, edges[id], after[CanonicalId(rules, Redirected(edges[id], source, target))], source, target);
    forall x | x in after ensures EdgeOk(relations, entities, after[x]) {
      assert x in edges ==> EdgeOk(relations, entities, edges[x]);
    }
  }

  lemma {:induction false} RedirectAllOk(rules: Rules, relations: RelationTypes, entities: Entities, edges: Edges, ids: seq<string>, n: nat, source: string, target: string)
    requires Injective(rules.canonical) && EdgesKeyed(rules.canonical, edges) && EdgesOk(relations, entities, edges) && source != target
    requires source in entities && target in entities && entities[source].kind == entities[target].kind
    requires SortedAs(ids, Incidents(edges, source)) && n <= |ids|
    ensures EdgesOk(relations, entities, RedirectAll(rules, edges, ids[..n], source, target))
    decreases n
  {
    hide EdgesOk, EdgesKeyed, Injective, Less, NextIds, RedirectOne, SortedAs;
    if n > 0 {
      RedirectAllOk(rules, relations, entities, edges, ids, n - 1, source, target);
      RedirectAllMoves(rules, edges, ids, n - 1, NextIds(rules, edges, Incidents(edges, source), source, target), source, target);
      RedirectAllMoves(rules, edges, ids, n, NextIds(rules, edges, Incidents(edges, source), source, target), source, target);
      RedirectOneOk(rules, relations, entities, RedirectAll(rules, edges, ids[..n - 1], source, target), ids[n - 1], source, target);
    }
  }

  lemma LaterDiffers(ids: seq<string>, n: nat)
    requires Increasing(ids) && n < |ids|
    ensures ids[n] !in ids[n + 1..]
  {
    if ids[n] in ids[n + 1..] {
      var k :| n < k < |ids| && ids[k] == ids[n];
      LessAsymmetric(ids[n], ids[k]);
    }
  }

  /** The graph while sources are folded into a target: consistent but for cardinalities of the edges
      redirected so far. */
  ghost predicate MergeGood(rules: Rules, m: Merging, target: string) {
    && EdgesKeyed(rules.canonical, m.store.edges)
    && EntitiesKeyed(m.store.entities)
    && EdgesOk(m.store.relations, m.store.entities, m.store.edges)
    && CardinalityOk(m.store.relations, m.store.edges, m.affected)
    && FieldsUnique(rules.unique, m.store.entities)
    && SeparateIdentities(rules.signs, m.store.entities)
    && target in m.store.entities
    && m.target.kind == m.store.entities[target].kind
  }

  lemma MergeSourceKeepsGood(rules: Rules, m: Merging, target: string, source: string)
    requires Injective(rules.canonical) && MergeGood(rules, m, target) && MergeSource(rules, m, target, source).Some?
    ensures MergeGood(rules, MergeSource(rules, m, target, source).value, target)
  {
    hide EdgesKeyed, EdgesOk, CardinalityOk, FieldsUnique, SeparateIdentities, EntitiesKeyed, NextIds, Incidents, SortedAs;
    if source != target {
      var after := MergeSource(rules, m, target, source).value;
      RedirectedEdgesGood(rules, m, target, source);
      FewerEntitiesGood(rules, m.store.entities, after.store.entities);
    }
  }

  lemma RedirectedEdgesGood(rules: Rules, m: Merging, target: string, source: string)
    requires Injective(rules.canonical) && MergeGood(rules, m, target) && source != target
    requires source in m.store.entities && m.store.entities[source].kind == m.target.kind
    ensures var ids := Incidents(m.store.edges, source);
      var after := RedirectAll(rules, m.store.edges, Sorted(ids), source, target);
      && EdgesKeyed(rules.canonical, after)
      && EdgesOk(m.store.relations, m.store.entities - {source}, after)
      && CardinalityOk(m.store.relations, after, m.affected + NextIds(rules, m.store.edges, ids, source, target))
  {
    hide EdgesKeyed, EdgesOk, CardinalityOk, FieldsUnique, SeparateIdentities, EntitiesKeyed, NextIds, Incidents, SortedAs;
    var s, incidents := m.store, Incidents(m.store.edges, source);
    var ids, nexts := Sorted(incidents), NextIds(rules, s.edges, incidents, source, target);
    RedirectAllMoves(rules, s.edges, ids, |ids|, nexts, source, target);
    RedirectAllOk(rules, s.relations, s.entities, s.edges, ids, |ids|, source, target);
    assert ids[..|ids|] == ids && ids[|ids|..] == [];
    var after := RedirectAll(rules, s.edges, ids, source, target);
    ChangedUnchecked(s.relations, s.edges, after, m.affected, nexts);
    MovedEdgesOk(s.relations, s.entities, after, source);
  }

  lemma ChangedUnchecked(relations: RelationTypes, before: Edges, after: Edges, unchecked: set<string>, changed: set<string>)
    requires CardinalityOk(relations, before, unchecked)
    requires forall id :: id in after && id !in changed ==> id in before && after[id] == before[id]
    ensures CardinalityOk(relations, after, unchecked + changed)
  {
  }

  lemma MovedEdgesOk(relations: RelationTypes, entities: Entities, edges: Edges, source: string)
    requires EdgesOk(relations, entities, edges) && forall id :: id in edges ==> !Incident(edges[id], source)
    ensures EdgesOk(relations, entities - {source}, edges)
  {
    forall id | id in edges ensures EdgeOk(relations, entities - {source}, edges[id]) {
      assert EdgeOk(relations, entities, edges[id]);
    }
  }

  lemma {:induction false} MergeSourcesKeepsGood(rules: Rules, m: Merging, target: string, sources: seq<string>)
    requires Injective(rules.canonical) && MergeGood(rules, m, target) && MergeSources(rules, m, target, sources).Some?
    ensures MergeGood(rules, MergeSources(rules, m, target, sources).value, target)
    ensures MergeSources(rules, m, target, sources).value.store.relations == m.store.relations
    decreases |sources|
  {
    if sources != [] {
      MergeSourcesKeepsGood(rules, m, target, sources[..|sources| - 1]);
      MergeSourceKeepsGood(rules, MergeSources(rules, m, target, sources[..|sources| - 1]).value, target, sources[|sources| - 1]);
    }
  }

  /** Checking the redirected edges is enough for the whole graph. */
  lemma MergeEntitiesKeepsGood(rules: Rules, s: Store, r: Merge)
    requires Injective(rules.canonical) && Good(rules, s) && MergeEntities(rules, s, r).Some?
    ensures Good(rules, MergeEntities(rules, s, r).value)
  {
    hide EdgesKeyed, CardinalityOk, FieldsUnique, SeparateIdentities, SharesUnique;
    MergeSourcesKeepsGood(rules, Merging(s, s.entities[r.target], {}), r.target, r.sources);
    var m := MergeSources(rules, Merging(s, s.entities[r.target], {}), r.target, r.sources).value;
    var e := m.target.(id := r.target);
    var after := MergeEntities(rules, s, r).value;
    FitsWithout(rules, m.store.entities, e);
    FittingEntityGood(rules, m.store.entities, e);
    forall id | id in after.edges ensures EdgeOk(after.relations, after.entities, after.edges[id]) {
      assert EdgeOk(m.store.relations, m.store.entities, m.store.edges[id]);
    }
    CheckedAll(after, m.affected);
  }

  lemma FitsWithout(rules: Rules, entities: Entities, e: Entity)
    requires EntityFits(rules, entities[e.id := e], e)
    ensures EntityFits(rules, entities, e)
  {
    var after := entities[e.id := e];
    forall id | id in entities && id != e.id ensures !SharesUnique(rules.unique, e, entities[id]) && (entities[id].kind == e.kind ==> Signatures(rules.signs, entities[id]) * Signatures(rules.signs, e) == {}) {
      assert id in after && after[id] == entities[id];
    }
  }

  // ---------- splits ----------

  /** Replacements have an identity once trimmed. */
  predicate NamedSplits(trim: string -> string, splits: seq<Split>) {
    forall r :: r in splits ==> NamedParts(trim, r.parts)
  }

  predicate NamedParts(trim: string -> string, parts: seq<Part>) {
    forall part :: part in parts ==> trim(part.raw) != ""
  }

  lemma SplitEntityKeepsGood(rules: Rules, s: Store, r: Split)
    requires Good(rules, s) && NamedParts(rules.trim, r.parts) && SplitEntity(rules, s, r).Some?
    ensures Good(rules, SplitEntity(rules, s, r).value)
  {
    WithoutEntityKeepsGood(rules, s, r.source);
    var start := WithoutEntity(s, r.source);
    forall now, part | part in r.parts && Good(rules, now) && SplitPart(rules, r.source)(now, part).Some?
      ensures Good(rules, SplitPart(rules, r.source)(now, part).value)
    {
      SplitPartKeepsGood(rules, now, r.source, part);
    }
    EachKeepsGood(rules, SplitPart(rules, r.source), start, r.parts);
  }

  lemma SplitPartKeepsGood(rules: Rules, s: Store, source: string, part: Part)
    requires Good(rules, s) && rules.trim(part.raw) != "" && SplitPart(rules, source)(s, part).Some?
    ensures Good(rules, SplitPart(rules, source)(s, part).value)
  {
    StoreEntityKeepsGood(rules, s, Replacement(rules, part).value);
  }

  // ---------- the commit ----------

  lemma {:induction false} EachKeepsGood<A(!new)>(rules: Rules, f: (Store, A) -> Option<Store>, s: Store, items: seq<A>)
    requires forall now, x :: x in items && Good(rules, now) && f(now, x).Some? ==> Good(rules, f(now, x).value)
    requires Good(rules, s) && Each(f, s, items).Some?
    ensures Good(rules, Each(f, s, items).value)
    decreases |items|
  {
    if items != [] {
      EachKeepsGood(rules, f, s, items[..|items| - 1]);
      assert items[|items| - 1] in items;
    }
  }

  lemma DeleteEdgeKeepsGood(rules: Rules, s: Store, ref: string)
    requires Good(rules, s) && DeleteEdge(s, ref).Some?
    ensures Good(rules, DeleteEdge(s, ref).value)
  {
    forall id ensures Good(rules, WithoutEdge(s, id)) {
      WithoutEdgeKeepsGood(rules, s, id);
    }
  }

  lemma DeleteEdgeRequestKeepsGood(rules: Rules, s: Store, r: EdgeDelete)
    requires Good(rules, s) && DeleteEdgeRequest(rules, s, r).Some?
    ensures Good(rules, DeleteEdgeRequest(rules, s, r).value)
  {
    forall id ensures Good(rules, WithoutEdge(s, id)) {
      WithoutEdgeKeepsGood(rules, s, id);
    }
  }

  lemma DeleteEntityRequestKeepsGood(rules: Rules, s: Store, r: EntityDelete)
    requires Good(rules, s) && DeleteEntityRequest(rules, s, r).Some?
    ensures Good(rules, DeleteEntityRequest(rules, s, r).value)
  {
    forall id ensures Good(rules, WithoutEntity(s, id)) {
      WithoutEntityKeepsGood(rules, s, id);
    }
  }

  lemma DeleteEntityKeepsGood(rules: Rules, s: Store, ref: string)
    requires Good(rules, s) && DeleteEntity(s, ref).Some?
    ensures Good(rules, DeleteEntity(s, ref).value)
  {
    forall id ensures Good(rules, WithoutEntity(s, id)) {
      WithoutEntityKeepsGood(rules, s, id);
    }
  }

  lemma DeleteStagesKeepGood(rules: Rules, s: Store, m: Mutations)
    requires Good(rules, s) && DeleteStages(rules, s, m).Some?
    ensures Good(rules, DeleteStages(rules, s, m).value)
  {
    hide Good, DeleteEdge, DeleteEdgeRequest, DeleteEntityRequest, DeleteEntity;
    forall now, x | Good(rules, now) && DeleteEdge(now, x).Some? ensures Good(rules, DeleteEdge(now, x).value) {
      DeleteEdgeKeepsGood(rules, now, x);
    }
    EachKeepsGood(rules, DeleteEdge, s, m.deleteEdges);
    var s1 := Each(DeleteEdge, s, m.deleteEdges).value;
    forall now, x | Good(rules, now) && DeletingEdge(rules)(now, x).Some? ensures Good(rules, DeletingEdge(rules)(now, x).value) {
      DeleteEdgeRequestKeepsGood(rules, now, x);
    }
    EachKeepsGood(rules, DeletingEdge(rules), s1, m.deleteEdgeRequests);
    var s2 := Each(DeletingEdge(rules), s1, m.deleteEdgeRequests).value;
    forall now, x | Good(rules, now) && DeletingEntity(rules)(now, x).Some? ensures Good(rules, DeletingEntity(rules)(now, x).value) {
      DeleteEntityRequestKeepsGood(rules, now, x);
    }
    EachKeepsGood(rules, DeletingEntity(rules), s2, m.deleteEntityRequests);
    var s3 := Each(DeletingEntity(rules), s2, m.deleteEntityRequests).value;
    forall now, x | Good(rules, now) && DeleteEntity(now, x).Some? ensures Good(rules, DeleteEntity(now, x).value) {
      DeleteEntityKeepsGood(rules, now, x);
    }
    EachKeepsGood(rules, DeleteEntity, s3, m.deleteEntities);
  }

  lemma EntityStagesKeepGood(rules: Rules, s: Store, m: Mutations)
    requires Injective(rules.canonical) && NamedSplits(rules.trim, m.splitEntities)
    requires Good(rules, s) && EntityStages(rules, s, m).Some?
    ensures Good(rules, EntityStages(rules, s, m).value)
  {
    hide Good, Injective, UpsertEntity, MarkStale, MergeEntities, SplitEntity;
    forall now, x | Good(rules, now) && UpsertingEntity(rules)(now, x).Some? ensures Good(rules, UpsertingEntity(rules)(now, x).value) {
      UpsertEntityKeepsGood(rules, now, x);
    }
    EachKeepsGood(rules, UpsertingEntity(rules), s, m.upsertEntities);
    var s1 := Each(UpsertingEntity(rules), s, m.upsertEntities).value;
    forall now, x | Good(rules, now) && MarkingStale(rules)(now, x).Some? ensures Good(rules, MarkingStale(rules)(now, x).value) {
      MarkStaleKeepsGood(rules, now, x);
    }
    EachKeepsGood(rules, MarkingStale(rules), s1, m.markStale);
    var s2 := Each(MarkingStale(rules), s1, m.markStale).value;
    forall now, x | Good(rules, now) && MergingEntities(rules)(now, x).Some? ensures Good(rules, MergingEntities(rules)(now, x).value) {
      MergeEntitiesKeepsGood(rules, now, x);
    }
    EachKeepsGood(rules, MergingEntities(rules), s2, m.mergeEntities);
    var s3 := Each(MergingEntities(rules), s2, m.mergeEntities).value;
    forall now, x | x in m.splitEntities && Good(rules, now) && SplittingEntity(rules)(now, x).Some? ensures Good(rules, SplittingEntity(rules)(now, x).value) {
      SplitEntityKeepsGood(rules, now, x);
    }
    EachKeepsGood(rules, SplittingEntity(rules), s3, m.splitEntities);
  }

  // ---------- kinds ----------

  /** A graph whose schema is valid and whose store meets every constraint under it. */
  ghost predicate GoodGraph(base: Base, s: State) {
    ParentsExist(s.types) && Acyclic(s.types) && Good(Under(base, s.types), s.store)
  }

  /** An identity that a key gives is never one that a source gives. */
  ghost predicate Apart(base: Base) {
    forall keys, fields, identity, other :: base.ruleSigns(keys, fields, identity) !! base.sourceSigns(other)
  }

  lemma {:induction false} RetypedElsewhere(types: Types, upserts: seq<NamedType>, kind: string)
    requires forall n :: n in upserts ==> n.name != kind
    ensures kind in Retyped(types, upserts) <==> kind in types
    ensures kind in types ==> Retyped(types, upserts)[kind] == types[kind]
    decreases |upserts|
  {
    if upserts != [] {
      assert upserts[|upserts| - 1] in upserts;
      RetypedElsewhere(types, upserts[..|upserts| - 1], kind);
    }
  }

  /** Two schemas agree outside the kinds in `changed`. */
  ghost predicate AgreeBut(before: Types, after: Types, changed: set<string>) {
    forall k :: k !in changed ==> (k in before <==> k in after) && (k in before ==> before[k] == after[k])
  }

  /** A kind whose parent is affected is affected. */
  lemma ChildAffected(types: Types, changed: set<string>, kind: string, parent: string)
    requires kind in types && parent in types[kind].parents && parent in types
    ensures Below(types, changed, parent) ==> Below(types, changed, kind)
  {
    if parent in changed {
      assert [kind, parent][1..] == [parent];
      assert Ancestry(types, kind, [kind, parent]);
    } else if path :| Ancestry(types, parent, path) && path[|path| - 1] in changed {
      assert ([kind] + path)[1..] == path;
      assert Ancestry(types, kind, [kind] + path);
    }
  }

  /** A kind that is not below a changed one inherits what it did. */
  lemma {:induction false} UnaffectedInherits(before: Types, after: Types, changed: set<string>, kind: string, seen: set<string>)
    requires AgreeBut(before, after, changed) && ParentsExist(after) && !Below(after, changed, kind)
    ensures Inherited(before, kind, seen) == Inherited(after, kind, seen)
    decreases after.Keys - seen, 1, 0
  {
    if kind in after && kind !in seen {
      UnaffectedParents(before, after, changed, kind, after[kind].parents, seen + {kind});
    }
  }

  lemma {:induction false} UnaffectedParents(before: Types, after: Types, changed: set<string>, kind: string, parents: seq<string>, seen: set<string>)
    requires AgreeBut(before, after, changed) && ParentsExist(after) && !Below(after, changed, kind)
    requires kind in after && forall p :: p in parents ==> p in after[kind].parents
    ensures FromParents(before, parents, seen) == FromParents(after, parents, seen)
    decreases after.Keys - seen, 2, |parents|
  {
    if parents != [] {
      var p := parents[|parents| - 1];
      assert p in parents;
      ChildAffected(after, changed, kind, p);
      UnaffectedParents(before, after, changed, kind, parents[..|parents| - 1], seen);
      UnaffectedInherits(before, after, changed, p, seen);
    }
  }

  /** So its unique fields and the identities of its entities are what they were. */
  lemma UnaffectedSame(base: Base, before: Types, after: Types, changed: set<string>, kind: string)
    requires AgreeBut(before, after, changed) && ParentsExist(after) && !Below(after, changed, kind)
    ensures Under(base, before).unique(kind) == Under(base, after).unique(kind)
    ensures forall fields, identity :: Under(base, before).signs(kind, fields, identity) == Under(base, after).signs(kind, fields, identity)
  {
    UnaffectedInherits(before, after, changed, kind, {});
    assert FieldsUnder(before, kind) == FieldsUnder(after, kind);
    assert kind in before <==> kind in after;
    hide Inherited;
    forall fields, identity ensures Signs(base, before)(kind, fields, identity) == Signs(base, after)(kind, fields, identity) {
      assert RuleSigns(base, before)(kind, fields, identity) == RuleSigns(base, after)(kind, fields, identity);
    }
  }

  lemma KindsKeepUnique(base: Base, before: Types, after: Types, changed: set<string>, entities: Entities)
    requires AgreeBut(before, after, changed) && ParentsExist(after)
    requires KindsFit(base, after, entities, iset kind | Below(after, changed, kind))
    requires FieldsUnique(Under(base, before).unique, entities)
    ensures FieldsUnique(Under(base, after).unique, entities)
  {
    hide Below, Under, Signatures;
    forall i, j | i in entities && j in entities && i != j ensures !SharesUnique(Under(base, after).unique, entities[i], entities[j]) {
      if !Below(after, changed, entities[i].kind) {
        UnaffectedSame(base, before, after, changed, entities[i].kind);
        assert !SharesUnique(Under(base, before).unique, entities[i], entities[j]);
      }
    }
  }

  lemma SignsAre(base: Base, types: Types, e: Entity)
    ensures Signatures(Under(base, types).signs, e) == Signatures(RuleSigns(base, types), e) + base.sourceSigns(e.identity)
  {
  }

  lemma RuleSignsApart(base: Base, types: Types, e: Entity, other: string)
    requires Apart(base)
    ensures Signatures(RuleSigns(base, types), e) !! base.sourceSigns(other)
  {
    assert e.kind in types ==> base.ruleSigns(types[e.kind].keys, e.fields, e.identity) !! base.sourceSigns(other);
  }

  /** Under the new keys of their kind two entities stay apart: by rule they were checked, by source they
      were apart before, and the two never meet. */
  lemma CheckedApart(base: Base, before: Types, after: Types, a: Entity, b: Entity)
    requires Apart(base)
    requires Signatures(RuleSigns(base, after), a) !! Signatures(RuleSigns(base, after), b)
    requires Signatures(Under(base, before).signs, a) !! Signatures(Under(base, before).signs, b)
    ensures Signatures(Under(base, after).signs, a) !! Signatures(Under(base, after).signs, b)
  {
    SignsAre(base, before, a);
    SignsAre(base, before, b);
    SignsAre(base, after, a);
    SignsAre(base, after, b);
    RuleSignsApart(base, after, a, b.identity);
    RuleSignsApart(base, after, b, a.identity);
  }

  lemma KindsKeepIdentities(base: Base, before: Types, after: Types, changed: set<string>, entities: Entities)
    requires AgreeBut(before, after, changed) && ParentsExist(after) && Apart(base)
    requires KindsFit(base, after, entities, iset kind | Below(after, changed, kind))
    requires SeparateIdentities(Under(base, before).signs, entities)
    ensures SeparateIdentities(Under(base, after).signs, entities)
  {
    hide Below, Under, Apart, RuleSigns;
    var was, now := Under(base, before).signs, Under(base, after).signs;
    forall i, j | i in entities && j in entities && i != j && entities[i].kind == entities[j].kind
      ensures Signatures(now, entities[i]) !! Signatures(now, entities[j])
    {
      var a, b := entities[i], entities[j];
      assert Signatures(was, a) !! Signatures(was, b);
      if Below(after, changed, a.kind) {
        assert Signatures(RuleSigns(base, after), a) !! Signatures(RuleSigns(base, after), b);
        hide Signatures;
        CheckedApart(base, before, after, a, b);
      } else {
        UnaffectedSame(base, before, after, changed, a.kind);
      }
    }
  }

  lemma ChangedAgree(types: Types, deletes: seq<string>, upserts: seq<NamedType>)
    ensures AgreeBut(types, Retyped(types - (set n | n in deletes), upserts), Names(deletes, upserts))
  {
    var rest := types - set n | n in deletes;
    forall k | k !in Names(deletes, upserts) ensures (k in types <==> k in Retyped(rest, upserts)) && (k in types ==> types[k] == Retyped(rest, upserts)[k]) {
      RetypedElsewhere(rest, upserts, k);
    }
  }

  /** Looking only at the kinds below a changed one is enough for the whole graph. */
  lemma ChangeTypesKeepsGood(base: Base, types: Types, s: Store, deletes: seq<string>, upserts: seq<NamedType>)
    requires Apart(base) && GoodGraph(base, State(types, s)) && ChangeTypes(base, types, s.entities, deletes, upserts).Some?
    ensures GoodGraph(base, State(ChangeTypes(base, types, s.entities, deletes, upserts).value, s))
  {
    if deletes != [] || upserts != [] {
      var next := ChangeTypes(base, types, s.entities, deletes, upserts).value;
      ChangedAgree(types, deletes, upserts);
      hide ParentsExist, Acyclic, KindsFit, AgreeBut, FieldsUnique, SeparateIdentities, EdgesKeyed, EdgesOk, CardinalityOk, EntitiesKeyed, Retyped, Signs;
      KindsKeepUnique(base, types, next, Names(deletes, upserts), s.entities);
      KindsKeepIdentities(base, types, next, Names(deletes, upserts), s.entities);
    }
  }

  // ---------- histories ----------

  /** What a commit assumes of the given functions. */
  ghost predicate Lawful(base: Base) {
    Injective(base.canonical) && Apart(base)
  }

  /** Every successful commit keeps every constraint of the whole graph under the schema it leaves, though
      it only ever checked the edges, entities and kinds it had changed and the kinds below those. */
  lemma CommitKeepsGood(base: Base, s: State, m: Mutations)
    requires Lawful(base) && NamedSplits(base.trim, m.splitEntities)
    requires GoodGraph(base, s) && Commit(base, s, m).Some?
    ensures GoodGraph(base, Commit(base, s, m).value)
  {
    hide Good, Injective, Apart, ParentsExist, Acyclic, DeleteStages, DeleteRelations, UpsertRelations, ChangeTypes, EntityStages, UpsertEdge, Inherited, Signs;
    var rules := Under(base, s.types);
    DeleteStagesKeepGood(rules, s.store, m);
    var s1 := DeleteStages(rules, s.store, m).value;
    DeleteRelationsKeepsGood(rules, s1, m.deleteRelationTypes);
    var s2 := DeleteRelations(s1, m.deleteRelationTypes).value;
    ChangeTypesKeepsGood(base, s.types, s2, m.deleteCITypes, m.upsertCITypes);
    var types := ChangeTypes(base, s.types, s2.entities, m.deleteCITypes, m.upsertCITypes).value;
    var after := Under(base, types);
    UpsertRelationsKeepsGood(after, s2, m.upsertRelationTypes);
    var s3 := UpsertRelations(s2, m.upsertRelationTypes).value;
    EntityStagesKeepGood(after, s3, m);
    var s4 := EntityStages(after, s3, m).value;
    forall now, x | Good(after, now) && UpsertingEdge(after)(now, x).Some? ensures Good(after, UpsertingEdge(after)(now, x).value) {
      UpsertEdgeKeepsGood(after, now, x);
    }
    EachKeepsGood(after, UpsertingEdge(after), s4, m.upsertEdges);
  }

  /** A history of commits; a rejected one leaves the graph as it was. */
  ghost function History(base: Base, s: State, commits: seq<Mutations>): State
    decreases |commits|
  {
    if commits == [] then s
    else
      var before := History(base, s, commits[..|commits| - 1]);
      var after := Commit(base, before, commits[|commits| - 1]);
      if after.Some? then after.value else before
  }

  lemma {:induction false} EveryHistoryStaysGood(base: Base, s: State, commits: seq<Mutations>)
    requires Lawful(base) && forall m :: m in commits ==> NamedSplits(base.trim, m.splitEntities)
    requires GoodGraph(base, s)
    ensures GoodGraph(base, History(base, s, commits))
    decreases |commits|
  {
    if commits != [] {
      EveryHistoryStaysGood(base, s, commits[..|commits| - 1]);
      var before, m := History(base, s, commits[..|commits| - 1]), commits[|commits| - 1];
      assert m in commits;
      if Commit(base, before, m).Some? {
        CommitKeepsGood(base, before, m);
      }
    }
  }

  // ---------- reload ----------

  /** The relation types a reload ends with: the standard ones, overridden by those of the snapshot. */
  function Reseeded(standard: RelationTypes, relations: RelationTypes): RelationTypes {
    standard + relations
  }

  /** A reload is never rejected for its edges, though it brings deleted standard types back. */
  lemma ReloadAccepts(rules: Rules, s: Store, standard: RelationTypes)
    requires Good(rules, s)
    ensures Good(rules, s.(relations := Reseeded(standard, s.relations)))
  {
    var after := s.(relations := Reseeded(standard, s.relations));
    forall id | id in after.edges ensures EdgeOk(after.relations, after.entities, after.edges[id]) {
      assert EdgeOk(s.relations, s.entities, s.edges[id]);
    }
    forall i, j | i in after.edges && j in after.edges
      ensures !Conflict(CardinalityOf(after.relations, after.edges[i].typ), after.edges[i], after.edges[j])
    {
      assert EdgeOk(s.relations, s.entities, s.edges[i]);
      assert !Conflict(CardinalityOf(s.relations, s.edges[i].typ), s.edges[i], s.edges[j]);
    }
  }
}
