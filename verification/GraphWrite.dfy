/** What the writing pieces of a commit do to the maps, and when a consistent graph accepts them: the local checks
    of the engine refuse exactly what would make the whole graph inconsistent (internal/graph/apply.go,
    entity_upsert_prepare.go, entity_stale.go, merge.go, merge_edges.go, split.go). */
module GraphWrites {
  import opened GraphModel
  import opened GraphReference
  import opened GraphConsistency
  import opened GraphPieces
  import opened GraphEffects
  import opened Schemas
  import opened StringOrder

  /** Unique fields and identities, as the schema has them. */
  ghost predicate Distinguished(base: Base, types: Types, entities: Entities) {
    FieldsUnique(Under(base, types).unique, entities) && SeparateIdentities(Under(base, types).signs, entities)
  }

  /** Storing one entity beside others that are told apart: it fits exactly when all are told apart after. */
  lemma FitsExactly(base: Base, types: Types, entities: Entities, e: Entity)
    requires EntitiesKeyed(entities) && Distinguished(base, types, entities) && e.id != "" && e.kind != ""
    ensures EntityFits(Under(base, types), entities, e) <==> Distinguished(base, types, entities[e.id := e])
  {
    hide Under, Signatures;
    var rules, after := Under(base, types), entities[e.id := e];
    if EntityFits(rules, entities, e) {
      FittingEntityGood(rules, entities, e);
    }
    if Distinguished(base, types, after) {
      forall id | id in entities && id != e.id
        ensures !SharesUnique(rules.unique, e, entities[id])
        ensures entities[id].kind == e.kind ==> Signatures(rules.signs, entities[id]) * Signatures(rules.signs, e) == {}
      {
        assert id in after && after[id] == entities[id] && after[e.id] == e;
        assert !SharesUnique(rules.unique, after[e.id], after[id]);
        forall x | entities[id].kind == e.kind && x in Signatures(rules.signs, after[id]) ensures x !in Signatures(rules.signs, after[e.id]) {
        }
      }
    }
  }

  // ---------- entity upserts ----------

  /** An entity of the kind with one of the identities that the request looks up. */
  ghost predicate Resembles(base: Base, types: Types, entities: Entities, u: Upsert, id: string) {
    id in entities && entities[id].kind == u.entity.kind && SignaturesUnder(base, types, entities[id]) * u.lookup != {}
  }

  /** The entity a request is about: the only one that resembles it, unless a rejecting identity matched under another
      name; without any, the one it names or is generated. */
  ghost predicate IsAbout(base: Base, types: Types, entities: Entities, u: Upsert, target: string) {
    if exists id :: Resembles(base, types, entities, u, id) then
      && Resembles(base, types, entities, u, target)
      && (forall id :: Resembles(base, types, entities, u, id) ==> id == target)
      && !(u.entity.id != "" && target != u.entity.id && SignaturesUnder(base, types, entities[target]) * u.rejecting * u.lookup != {})
    else target != "" && target == if u.entity.id != "" then u.entity.id else u.generated
  }

  /** The value it stores there: completed by its kind, and merged into what is there. */
  ghost predicate Stores(base: Base, types: Types, entities: Entities, u: Upsert, target: string, value: Entity) {
    var kind := u.entity.kind;
    var prepared := base.prepare(FieldsUnder(types, kind), KeysUnder(types, kind), u.entity);
    && IsAbout(base, types, entities, u, target)
    && kind != "" && prepared.Some?
    && (u.entity.id != "" && u.entity.id != target ==> u.entity.id !in entities)
    && (target in entities ==> entities[target].kind == kind)
    && var whole := prepared.value.(id := u.entity.id, kind := kind);
       value == (if target in entities then base.upsertEntity(FieldsUnder(types, kind), entities[target], whole) else whole).(id := target, kind := kind)
  }

  lemma MatchesResemble(base: Base, types: Types, entities: Entities, u: Upsert)
    ensures forall id :: id in Matches(Under(base, types).signs, entities, u.entity.kind, u.lookup) <==> Resembles(base, types, entities, u, id)
    ensures forall id :: Resembles(base, types, entities, u, id) ==> id in entities
  {
    forall id | id in entities ensures Signatures(Under(base, types).signs, entities[id]) == SignaturesUnder(base, types, entities[id]) {
      SignaturesAre(base, types, entities[id]);
    }
    hide Under, Signatures, SignaturesUnder;
  }

  lemma TargetIsAbout(base: Base, types: Types, entities: Entities, u: Upsert)
    ensures var found := TargetOf(Under(base, types).signs, entities, u);
      && (found.One? && found.id != "" ==> forall target :: IsAbout(base, types, entities, u, target) <==> target == found.id)
      && (!found.One? ==> forall target :: !IsAbout(base, types, entities, u, target))
  {
    hide Under, Signatures, SignaturesUnder, Matches, Resembles, Single;
    var ids := Matches(Under(base, types).signs, entities, u.entity.kind, u.lookup);
    MatchesResemble(base, types, entities, u);
    SingleMeans(ids);
    if Single(ids).One? {
      assert Single(ids).id in ids;
      SignaturesAre(base, types, entities[Single(ids).id]);
    }
  }

  /** With the rules of a schema written out. */
  lemma RulesWrite(base: Base, types: Types, entities: Entities, e: Entity, target: string)
    ensures var rules := Under(base, types);
      && (Prepared(rules, e).Some? <==> e.kind != "" && base.prepare(FieldsUnder(types, e.kind), KeysUnder(types, e.kind), e).Some?)
      && (Prepared(rules, e).Some? ==>
            Prepared(rules, e).value == base.prepare(FieldsUnder(types, e.kind), KeysUnder(types, e.kind), e).value.(id := e.id, kind := e.kind))
      && (target in entities ==> Upserted(rules, entities, e, target) == base.upsertEntity(FieldsUnder(types, e.kind), entities[target], e).(id := target, kind := e.kind))
      && (target !in entities ==> Upserted(rules, entities, e, target) == e.(id := target))
  {
  }

  lemma UpsertStores(base: Base, types: Types, s: Store, u: Upsert)
    requires EntitiesKeyed(s.entities)
    ensures var rules, after := Under(base, types), UpsertEntity(Under(base, types), s, u);
      && (after.Some? ==> exists target, value ::
            Stores(base, types, s.entities, u, target, value) && EntityFits(rules, s.entities, value) && after.value == s.(entities := s.entities[target := value]))
      && (forall target, value :: Stores(base, types, s.entities, u, target, value) && EntityFits(rules, s.entities, value) ==> after.Some?)
  {
    hide Under, TargetOf, IsAbout, EntityFits, FieldsUnder, Prepared, Upserted, EntitiesKeyed;
    var rules := Under(base, types);
    var found := TargetOf(rules.signs, s.entities, u);
    TargetIsAbout(base, types, s.entities, u);
    TargetIsNamed(rules.signs, s.entities, u);
    RulesWrite(base, types, s.entities, u.entity, "");
    if Prepared(rules, u.entity).Some? && found.One? {
      var e := Prepared(rules, u.entity).value;
      RulesWrite(base, types, s.entities, e, found.id);
      var value := Upserted(rules, s.entities, e, found.id);
      if UpsertEntity(rules, s, u).Some? {
        assert Stores(base, types, s.entities, u, found.id, value);
      }
    }
  }

  lemma TargetIsNamed(signs: Signer, entities: Entities, u: Upsert)
    requires EntitiesKeyed(entities)
    ensures TargetOf(signs, entities, u).One? ==> TargetOf(signs, entities, u).id != ""
  {
    SingleMeans(Matches(signs, entities, u.entity.kind, u.lookup));
  }

  /** An entity upsert into a consistent graph is accepted exactly when it is about one entity, whose kind it keeps, and
      all entities are told apart with the value it stores; it stores that and nothing else. */
  lemma UpsertEffect(base: Base, types: Types, s: Store, u: Upsert)
    requires Good(Under(base, types), s)
    ensures var after := Commit(base, State(types, s), NOTHING.(upsertEntities := [u]));
      && (after.Some? <==> exists target, value :: Stores(base, types, s.entities, u, target, value) && Distinguished(base, types, s.entities[target := value]))
      && (after.Some? ==> exists target, value ::
            Stores(base, types, s.entities, u, target, value) && after.value == State(types, s.(entities := s.entities[target := value])))
  {
    OneUpsert(base, types, s, u);
    UpsertStores(base, types, s, u);
    hide Commit, Under, EdgesKeyed, EdgesOk, CardinalityOk, EntityFits, IsAbout, UpsertEntity, FieldsUnique, SeparateIdentities;
    forall target, value | Stores(base, types, s.entities, u, target, value)
      ensures EntityFits(Under(base, types), s.entities, value) <==> Distinguished(base, types, s.entities[target := value])
    {
      StoresNamed(base, types, s.entities, u, target, value);
      FitsExactly(base, types, s.entities, value);
    }
    hide Stores, Distinguished;
  }

  lemma StoresNamed(base: Base, types: Types, entities: Entities, u: Upsert, target: string, value: Entity)
    requires EntitiesKeyed(entities) && Stores(base, types, entities, u, target, value)
    ensures value.id == target != "" && value.kind == u.entity.kind != ""
  {
  }

  // ---------- stale sources ----------

  /** What a request about a source selects. */
  predicate Missed(st: Stale, e: Entity) {
    st.misses(e) && (st.kind == "" || st.kind == e.kind)
  }

  /** Entities a source misses go with their edges, if it ranks no lower than they do, or are marked: nothing else changes. */
  lemma StaleEffect(base: Base, types: Types, s: Store, st: Stale)
    ensures var after := Commit(base, State(types, s), NOTHING.(markStale := [st]));
      && (after.Some? <==> st.source != "")
      && (after.Some? && st.deletes ==>
            after.value == State(types, Gone(s, k => k in s.entities && Missed(st, s.entities[k]) && s.entities[k].rank <= st.rank)))
      && (after.Some? && !st.deletes ==>
            after.value == State(types, s.(entities := map k | k in s.entities ::
              if Missed(st, s.entities[k]) then s.entities[k].(body := base.staleBody(s.entities[k], st.source)) else s.entities[k])))
  {
    hide Commit, Gone, Under;
    OneStale(base, types, s, st);
    if st.source != "" {
      if st.deletes {
        StaleGoes(Under(base, types), s, st);
      } else {
        StaleStays(base, types, s, st);
      }
    }
  }

  lemma StaleGoes(rules: Rules, s: Store, st: Stale)
    requires st.source != "" && st.deletes
    ensures MarkStale(rules, s, st) == Some(Gone(s, k => k in s.entities && Missed(st, s.entities[k]) && s.entities[k].rank <= st.rank))
  {
    var after, gone := MarkStale(rules, s, st).value, Gone(s, k => k in s.entities && Missed(st, s.entities[k]) && s.entities[k].rank <= st.rank);
    assert after.entities == gone.entities;
    assert after.edges == gone.edges;
  }

  lemma StaleStays(base: Base, types: Types, s: Store, st: Stale)
    requires st.source != "" && !st.deletes
    ensures MarkStale(Under(base, types), s, st) == Some(s.(entities := map k | k in s.entities ::
      if Missed(st, s.entities[k]) then s.entities[k].(body := base.staleBody(s.entities[k], st.source)) else s.entities[k]))
  {
    var marked := map k | k in s.entities ::
      if Missed(st, s.entities[k]) then s.entities[k].(body := base.staleBody(s.entities[k], st.source)) else s.entities[k];
    assert MarkStale(Under(base, types), s, st).value.entities == marked;
    assert Detached(s.edges, {}) == s.edges;
  }

  // ---------- edge upserts ----------

  /** An edge under the identity its type and ends give it; one it came with becomes an alias. */
  function Whole(base: Base, e: Edge): Edge {
    var key := base.canonical(e.typ, e.source, e.target);
    base.canonicalize(e).(id := key, typ := e.typ, source := e.source, target := e.target,
      aliases := if e.id != "" && e.id != key then e.aliases + [e.id] else e.aliases)
  }

  /** Two edges that are one: the later one's ends, and what the two make together. */
  function Together(base: Base, existing: Edge, incoming: Edge): Edge {
    base.upsertEdge(existing, incoming).(id := base.canonical(incoming.typ, incoming.source, incoming.target),
      typ := incoming.typ, source := incoming.source, target := incoming.target)
  }

  /** What an edge upsert stores: the edge, merged into the one that is there. */
  predicate StoresEdge(base: Base, edges: Edges, e: Edge, value: Edge) {
    var key := base.canonical(e.typ, e.source, e.target);
    value == if key in edges then Together(base, edges[key], Whole(base, e)) else Whole(base, e)
  }

  /** An edge upsert into a consistent graph is accepted exactly when the edge is valid and conflicts with none, and stores
      that one edge. */
  lemma EdgeUpsertEffect(base: Base, types: Types, s: Store, e: Edge)
    requires Good(Under(base, types), s) && Injective(base.canonical)
    ensures var after := Commit(base, State(types, s), NOTHING.(upsertEdges := [e]));
      var key := base.canonical(e.typ, e.source, e.target);
      && (after.Some? <==>
            && e.typ != "" && e.source != "" && e.target != "" && EdgeOk(s.relations, s.entities, e)
            && exists value :: StoresEdge(base, s.edges, e, value) && CardinalityOk(s.relations, s.edges[key := value], {}))
      && (after.Some? ==> exists value :: StoresEdge(base, s.edges, e, value) && after.value == State(types, s.(edges := s.edges[key := value])))
  {
    OneEdgeUpsert(base, types, s, e);
    hide Commit, Distinguished, EntitiesKeyed, FieldsUnique, SeparateIdentities;
    var rules, key := Under(base, types), base.canonical(e.typ, e.source, e.target);
    var whole := Canonicalized(rules, e);
    var value := if key in s.edges then MergedEdge(rules, s.edges[key], whole) else whole;
    assert StoresEdge(base, s.edges, e, value);
    assert EdgeOk(s.relations, s.entities, whole) <==> EdgeOk(s.relations, s.entities, e);
    var next := s.(edges := s.edges[key := value]);
    if UpsertEdge(rules, s, e).Some? {
      UpsertEdgeKeepsGood(rules, s, e);
    }
    assert next.edges[key] == value;
    assert EdgeOk(s.relations, s.entities, value) <==> EdgeOk(s.relations, s.entities, e);
  }

  // ---------- splits ----------

  /** What a replacement is stored as. */
  function Replaced(base: Base, types: Types, part: Part): Option<Entity> {
    var e := part.entity.(id := base.trim(part.raw));
    if e.kind == "" then None
    else
      var prepared :- base.prepare(FieldsUnder(types, e.kind), KeysUnder(types, e.kind), e);
      Some(prepared.(id := e.id, kind := e.kind))
  }

  /** The source is gone with its edges, the replacements are there, and everything else is as it was. */
  ghost predicate SplitInto(base: Base, types: Types, s: Store, source: string, parts: seq<Part>, after: Store) {
    && after.relations == s.relations
    && after.edges == (map k | k in s.edges && s.edges[k].source != source && s.edges[k].target != source :: s.edges[k])
    && (forall k :: k in after.entities <==> (k in s.entities && k != source) || exists part :: part in parts && base.trim(part.raw) == k)
    && (forall k :: k in s.entities && k != source ==> k in after.entities && after.entities[k] == s.entities[k])
    && (forall part :: part in parts ==> base.trim(part.raw) in after.entities && Replaced(base, types, part) == Some(after.entities[base.trim(part.raw)]))
  }

  /** Replacements that can be stored: they fit their kinds, and have identities of their own that no entity has. */
  ghost predicate NewParts(base: Base, types: Types, s: Store, parts: seq<Part>) {
    && (forall part :: part in parts ==> Replaced(base, types, part).Some? && base.trim(part.raw) !in s.entities)
    && forall i, j :: 0 <= i < j < |parts| ==> base.trim(parts[i].raw) != base.trim(parts[j].raw)
  }

  lemma ReplacementIs(base: Base, types: Types, part: Part)
    ensures Replacement(Under(base, types), part) == Replaced(base, types, part)
    ensures Replaced(base, types, part).Some? ==> Replaced(base, types, part).value.id == base.trim(part.raw) && Replaced(base, types, part).value.kind != ""
  {
  }

  lemma SplitMore(base: Base, types: Types, s: Store, source: string, parts: seq<Part>, part: Part, now: Store)
    requires SplitInto(base, types, s, source, parts, now) && Replaced(base, types, part).Some? && base.trim(part.raw) !in now.entities
    requires base.trim(part.raw) != source
    ensures SplitInto(base, types, s, source, parts + [part], now.(entities := now.entities[base.trim(part.raw) := Replaced(base, types, part).value]))
  {
    hide Replaced;
    var id := base.trim(part.raw);
    var next := now.entities[id := Replaced(base, types, part).value];
    assert forall x :: x in parts + [part] <==> x in parts || x == part;
    forall k ensures k in next <==> (k in s.entities && k != source) || exists x :: x in parts + [part] && base.trim(x.raw) == k {
      if k == id {
        assert part in parts + [part];
      } else if x :| x in parts && base.trim(x.raw) == k {
        assert x in parts + [part];
      }
    }
  }

  lemma SplitNothing(base: Base, types: Types, s: Store, source: string)
    ensures SplitInto(base, types, s, source, [], WithoutEntity(s, source))
  {
  }

  lemma SplitStep(base: Base, types: Types, s: Store, source: string, parts: seq<Part>, part: Part, now: Store)
    requires SplitInto(base, types, s, source, parts, now) && NewParts(base, types, s, parts)
    requires SplitPart(Under(base, types), source)(now, part).Some?
    ensures NewParts(base, types, s, parts + [part])
    ensures SplitInto(base, types, s, source, parts + [part], SplitPart(Under(base, types), source)(now, part).value)
  {
    hide Under, EntityFits, Replacement, Replaced, SplitInto, NewParts;
    ReplacementIs(base, types, part);
    SplitMore(base, types, s, source, parts, part, now);
    SplitNew(base, types, s, source, parts, part, now);
  }

  /** Forwards: what an accepted split has done after some of its parts. */
  lemma {:induction false} SplitDid(base: Base, types: Types, s: Store, source: string, parts: seq<Part>)
    requires Each(SplitPart(Under(base, types), source), WithoutEntity(s, source), parts).Some?
    ensures NewParts(base, types, s, parts) && SplitInto(base, types, s, source, parts, Each(SplitPart(Under(base, types), source), WithoutEntity(s, source), parts).value)
    decreases |parts|
  {
    hide Under, SplitPart, WithoutEntity, SplitInto;
    SplitNothing(base, types, s, source);
    if parts != [] {
      hide NewParts;
      var before, part := parts[..|parts| - 1], parts[|parts| - 1];
      assert parts == before + [part];
      SplitDid(base, types, s, source, before);
      SplitStep(base, types, s, source, before, part, Each(SplitPart(Under(base, types), source), WithoutEntity(s, source), before).value);
    }
  }

  /** All told apart: so are some of them. */
  lemma FewerDistinguished(base: Base, types: Types, some: Entities, all: Entities)
    requires Distinguished(base, types, all) && forall k :: k in some ==> k in all && some[k] == all[k]
    ensures Distinguished(base, types, some)
  {
    hide Under, Signatures;
    var rules := Under(base, types);
    forall i, j | i in some && j in some && i != j ensures !SharesUnique(rules.unique, some[i], some[j]) {
      assert !SharesUnique(rules.unique, all[i], all[j]);
    }
    forall i, j, x | i in some && j in some && i != j && some[i].kind == some[j].kind && x in Signatures(rules.signs, some[i])
      ensures x !in Signatures(rules.signs, some[j])
    {
      assert x in Signatures(rules.signs, all[i]);
    }
  }

  /** Backwards: parts that can be stored, and end up told apart, are stored one by one. */
  lemma {:induction false} SplitDoes(base: Base, types: Types, s: Store, source: string, parts: seq<Part>, n: nat, after: Store)
    requires Good(Under(base, types), s) && source in s.entities && n <= |parts| && forall part :: part in parts ==> base.trim(part.raw) != ""
    requires NewParts(base, types, s, parts) && SplitInto(base, types, s, source, parts, after) && Distinguished(base, types, after.entities)
    ensures var now := Each(SplitPart(Under(base, types), source), WithoutEntity(s, source), parts[..n]);
      && now.Some? && Good(Under(base, types), now.value)
    decreases n
  {
    hide Under, SplitPart, WithoutEntity, SplitInto, NewParts, Good, Distinguished;
    if n == 0 {
      WithoutEntityKeepsGood(Under(base, types), s, source);
    } else {
      SplitDoes(base, types, s, source, parts, n - 1, after);
      assert parts[..n][..n - 1] == parts[..n - 1];
      SplitDid(base, types, s, source, parts[..n - 1]);
      SplitAgain(base, types, s, source, parts, n - 1, Each(SplitPart(Under(base, types), source), WithoutEntity(s, source), parts[..n - 1]).value, after);
    }
  }

  lemma SplitAgain(base: Base, types: Types, s: Store, source: string, parts: seq<Part>, n: nat, now: Store, after: Store)
    requires n < |parts| && base.trim(parts[n].raw) != "" && source in s.entities
    requires NewParts(base, types, s, parts) && SplitInto(base, types, s, source, parts, after) && Distinguished(base, types, after.entities)
    requires Good(Under(base, types), now) && SplitInto(base, types, s, source, parts[..n], now)
    ensures SplitPart(Under(base, types), source)(now, parts[n]).Some? && Good(Under(base, types), SplitPart(Under(base, types), source)(now, parts[n]).value)
  {
    hide Under, Replaced, Replacement, EdgesKeyed, EdgesOk, CardinalityOk, FieldsUnique, SeparateIdentities, EntityFits;
    var part := parts[n];
    assert part in parts;
    ReplacementIs(base, types, part);
    var e := Replaced(base, types, part).value;
    forall k | k in now.entities ensures k in after.entities && now.entities[k] == after.entities[k] && k != e.id {
      if x :| x in parts[..n] && base.trim(x.raw) == k {
        assert x in parts;
        var i :| 0 <= i < n && parts[i] == x;
      }
    }
    FewerDistinguished(base, types, now.entities[e.id := e], after.entities);
    FitsExactly(base, types, now.entities, e);
    StoreEntityKeepsGood(Under(base, types), now, e);
  }

  /** A split of a consistent graph is accepted exactly when its source exists, its replacements can be stored and all
      entities are told apart afterwards; the source and its edges are then replaced by them. */
  lemma SplitEffect(base: Base, types: Types, s: Store, r: Split)
    requires Good(Under(base, types), s) && NamedParts(base.trim, r.parts)
    ensures var after := Commit(base, State(types, s), NOTHING.(splitEntities := [r]));
      && (after.Some? <==>
            && r.source in s.entities && NewParts(base, types, s, r.parts)
            && exists result :: SplitInto(base, types, s, r.source, r.parts, result) && Distinguished(base, types, result.entities))
      && (after.Some? ==> after.value.types == types && SplitInto(base, types, s, r.source, r.parts, after.value.store))
  {
    OneSplit(base, types, s, r);
    hide Commit, Under, SplitPart, WithoutEntity, SplitInto, NewParts, Good, EdgesKeyed, EdgesOk, CardinalityOk, Distinguished;
    var rules := Under(base, types);
    if SplitEntity(rules, s, r).Some? {
      SplitDid(base, types, s, r.source, r.parts);
      TrimIs(base, types);
      SplitEntityKeepsGood(rules, s, r);
      GoodDistinguishes(base, types, SplitEntity(rules, s, r).value);
    } else if result :| r.source in s.entities && NewParts(base, types, s, r.parts) && SplitInto(base, types, s, r.source, r.parts, result) && Distinguished(base, types, result.entities) {
      assert r.parts[..|r.parts|] == r.parts;
      SplitDoes(base, types, s, r.source, r.parts, |r.parts|, result);
      SourceNamed(base, types, s, r.source);
    }
  }

  lemma TrimIs(base: Base, types: Types)
    ensures Under(base, types).trim == base.trim
  {
  }

  lemma SourceNamed(base: Base, types: Types, s: Store, source: string)
    requires Good(Under(base, types), s) && source in s.entities
    ensures source != ""
  {
  }

  lemma GoodDistinguishes(base: Base, types: Types, s: Store)
    requires Good(Under(base, types), s)
    ensures Distinguished(base, types, s.entities)
  {
  }

  lemma SplitNew(base: Base, types: Types, s: Store, source: string, parts: seq<Part>, part: Part, now: Store)
    requires SplitInto(base, types, s, source, parts, now) && NewParts(base, types, s, parts)
    requires Replaced(base, types, part).Some? && base.trim(part.raw) !in now.entities && base.trim(part.raw) != source
    ensures NewParts(base, types, s, parts + [part])
  {
    hide Replaced;
    var longer := parts + [part];
    assert forall x :: x in longer <==> x in parts || x == part;
    forall i, j | 0 <= i < j < |longer| ensures base.trim(longer[i].raw) != base.trim(longer[j].raw) {
      assert longer[i] in parts;
    }
  }
}
