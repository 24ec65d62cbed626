/** The secondary indexes of a graph and their incremental maintenance (internal/graph/index.go,
    index_entity_coverage.go). Nested Go maps appear here as maps keyed by the whole path. */
module GraphIndexes {
  import opened CopyOnWrites
  import opened GraphModel

  /** `index` lists exactly the ids `holds` puts under each key, and keeps no empty bucket. */
  ghost predicate Lists<K(!new)>(index: Postings<K>, holds: (K, string) -> bool) {
    && (forall k :: k in index ==> index[k] != {})
    && (forall k, id :: id in At(index, k) <==> holds(k, id))
  }

  /** An index that lists a relation is determined by it. */
  lemma ListsIsUnique<K(!new)>(a: Postings<K>, b: Postings<K>, holds: (K, string) -> bool)
    requires Lists(a, holds) && Lists(b, holds)
    ensures a == b
  {
    forall k ensures At(a, k) == At(b, k) {
      forall id ensures id in At(a, k) <==> id in At(b, k) {
        assert holds(k, id) <==> id in At(a, k);
      }
    }
    forall k | k in a ensures k in b && b[k] == a[k] {
      assert At(a, k) == At(b, k);
    }
    forall k | k in b ensures k in a {
      assert At(a, k) == At(b, k);
    }
  }

  lemma PostedLists<K(!new)>(index: Postings<K>, holds: (K, string) -> bool, key: K, id: string, holds': (K, string) -> bool)
    requires Lists(index, holds)
    requires forall k, x :: holds'(k, x) <==> holds(k, x) || (k == key && x == id)
    ensures Lists(Posted(index, key, id), holds')
  {
    var index' := Posted(index, key, id);
    forall k, x ensures x in At(index', k) <==> holds'(k, x) {
      assert x in At(index, k) <==> holds(k, x);
    }
  }

  lemma UnpostedLists<K(!new)>(index: Postings<K>, holds: (K, string) -> bool, key: K, id: string, holds': (K, string) -> bool)
    requires Lists(index, holds)
    requires forall k, x :: holds'(k, x) <==> holds(k, x) && !(k == key && x == id)
    ensures Lists(Unposted(index, key, id), holds')
  {
    var index' := Unposted(index, key, id);
    forall k, x ensures x in At(index', k) <==> holds'(k, x) {
      assert x in At(index, k) <==> holds(k, x);
    }
  }

  /** Buckets that list a relation, while those of the published graph read as they did. */
  ghost predicate Holds<K(!new)>(x: Buckets<K>, seen: Postings<K>, holds: (K, string) -> bool) {
    Sound(x) && x.apart && Seen(x) == seen && Lists(View(x), holds)
  }

  lemma PostHolds<K(!new)>(x: Buckets<K>, seen: Postings<K>, holds: (K, string) -> bool, key: K, id: string, holds': (K, string) -> bool)
    requires Holds(x, seen, holds)
    requires forall k, y :: holds'(k, y) <==> holds(k, y) || (k == key && y == id)
    ensures Holds(Post(x, key, id), seen, holds')
  {
    hide Sound, Lists, View, Seen, Post;
    PostIs(x, key, id);
    PostedLists(View(x), holds, key, id, holds');
  }

  lemma UnpostHolds<K(!new)>(x: Buckets<K>, seen: Postings<K>, holds: (K, string) -> bool, key: K, id: string, holds': (K, string) -> bool)
    requires Holds(x, seen, holds)
    requires forall k, y :: holds'(k, y) <==> holds(k, y) && !(k == key && y == id)
    ensures Holds(Unpost(x, key, id), seen, holds')
  {
    hide Sound, Lists, View, Seen, Unpost;
    UnpostIs(x, key, id);
    UnpostedLists(View(x), holds, key, id, holds');
  }

  lemma SameHolds<K(!new)>(x: Buckets<K>, seen: Postings<K>, holds: (K, string) -> bool, holds': (K, string) -> bool)
    requires Holds(x, seen, holds) && forall k, y :: holds'(k, y) <==> holds(k, y)
    ensures Holds(x, seen, holds')
  {
    hide Sound, Lists, View, Seen;
    SameRelation(View(x), holds, holds');
  }

  /** A storage copy lists what its source lists, and the source's buckets are what its readers read. */
  lemma ForkHolds<K(!new)>(x: Buckets<K>, seen: Postings<K>, holds: (K, string) -> bool)
    requires Holds(x, seen, holds)
    ensures Holds(Separated(Fork(x, false)), View(x), holds)
  {
    hide Lists, View, Seen, Sound;
    ForkIsSound(x, false);
    SeparatedIsSound(Fork(x, false));
  }

  lemma EmptyHolds<K(!new)>(holds: (K, string) -> bool)
    requires forall k, id :: !holds(k, id)
    ensures Holds(Unshared<K, set<string>>(), map[], holds)
  {
  }

  // ---------- edges ----------

  ghost function BySource(edges: Edges): (string, string) -> bool {
    (k, id) => id in edges && edges[id].source == k
  }

  ghost function ByTarget(edges: Edges): (string, string) -> bool {
    (k, id) => id in edges && edges[id].target == k
  }

  ghost function ByType(edges: Edges): (string, string) -> bool {
    (k, id) => id in edges && edges[id].typ == k
  }

  ghost function ByAlias(edges: Edges): (string, string) -> bool {
    (k, id) => id in edges && k in edges[id].aliases
  }

  /** The alias relation while the aliases of `id` are being added or removed one by one. */
  ghost function WithAliases(edges: Edges, id: string, some: seq<string>): (string, string) -> bool {
    (k, x) => (x in edges && k in edges[x].aliases) || (x == id && k in some)
  }

  ghost function WithoutAliases(edges: Edges, id: string, some: seq<string>): (string, string) -> bool {
    (k, x) => x in edges && k in edges[x].aliases && !(x == id && k in some)
  }

  /** What one more edge adds to each relation. */
  lemma AddedRelations(edges: Edges, id: string, e: Edge)
    requires id !in edges
    ensures forall k, x :: BySource(edges[id := e])(k, x) <==> BySource(edges)(k, x) || (k == e.source && x == id)
    ensures forall k, x :: ByTarget(edges[id := e])(k, x) <==> ByTarget(edges)(k, x) || (k == e.target && x == id)
    ensures forall k, x :: ByType(edges[id := e])(k, x) <==> ByType(edges)(k, x) || (k == e.typ && x == id)
    ensures forall k, x :: ByAlias(edges[id := e])(k, x) <==> WithAliases(edges, id, e.aliases)(k, x)
  {
    var after := edges[id := e];
    forall k, x ensures BySource(after)(k, x) <==> BySource(edges)(k, x) || (k == e.source && x == id) {}
    forall k, x ensures ByTarget(after)(k, x) <==> ByTarget(edges)(k, x) || (k == e.target && x == id) {}
    forall k, x ensures ByType(after)(k, x) <==> ByType(edges)(k, x) || (k == e.typ && x == id) {}
    forall k, x ensures ByAlias(after)(k, x) <==> WithAliases(edges, id, e.aliases)(k, x) {}
  }

  /** What one edge less takes from each relation. */
  lemma RemovedRelations(edges: Edges, id: string)
    requires id in edges
    ensures forall k, x :: BySource(edges - {id})(k, x) <==> BySource(edges)(k, x) && !(k == edges[id].source && x == id)
    ensures forall k, x :: ByTarget(edges - {id})(k, x) <==> ByTarget(edges)(k, x) && !(k == edges[id].target && x == id)
    ensures forall k, x :: ByType(edges - {id})(k, x) <==> ByType(edges)(k, x) && !(k == edges[id].typ && x == id)
    ensures forall k, x :: ByAlias(edges - {id})(k, x) <==> WithoutAliases(edges, id, edges[id].aliases)(k, x)
  {
    var after, e := edges - {id}, edges[id];
    forall k, x ensures BySource(after)(k, x) <==> BySource(edges)(k, x) && !(k == e.source && x == id) {}
    forall k, x ensures ByTarget(after)(k, x) <==> ByTarget(edges)(k, x) && !(k == e.target && x == id) {}
    forall k, x ensures ByType(after)(k, x) <==> ByType(edges)(k, x) && !(k == e.typ && x == id) {}
    forall k, x ensures ByAlias(after)(k, x) <==> WithoutAliases(edges, id, e.aliases)(k, x) {}
  }

  lemma SameRelation<K(!new)>(index: Postings<K>, holds: (K, string) -> bool, holds': (K, string) -> bool)
    requires Lists(index, holds) && forall k, x :: holds'(k, x) <==> holds(k, x)
    ensures Lists(index, holds')
  {
    forall k, x ensures x in At(index, k) <==> holds'(k, x) {
      assert x in At(index, k) <==> holds(k, x);
    }
  }

  /** What a bucket holds. */
  lemma BucketIs<K(!new)>(x: Buckets<K>, seen: Postings<K>, holds: (K, string) -> bool, key: K)
    requires Holds(x, seen, holds)
    ensures forall id :: id in At(View(x), key) <==> holds(key, id)
  {
    hide Sound, View, Seen;
    forall id ensures id in At(View(x), key) <==> holds(key, id) {
    }
  }

  /** What the edge indexes of a graph read as. */
  datatype EdgeView = EdgeView(out: Postings<string>, into: Postings<string>, types: Postings<string>, aliases: Postings<string>)

  /** The four edge indexes. `published` is what the indexes of the graph this one was copied from read as;
      keeping to it is part of Agrees. */
  class EdgeIndex {
    var out: Buckets<string>
    var into: Buckets<string>
    var types: Buckets<string>
    var aliases: Buckets<string>
    ghost const published: EdgeView

    constructor ()
      ensures Agrees(map[])
    {
      out, into, types, aliases := Unshared(), Unshared(), Unshared(), Unshared();
      published := EdgeView(map[], map[], map[], map[]);
    }

    /** cloneForStorageImpact: every bucket is shared, and the directories are this graph's own: adjacency is
        cloned at once, those by type and alias before they are first written. */
    constructor Copy(source: EdgeIndex, ghost edges: Edges)
      requires source.Agrees(edges)
      ensures Agrees(edges) && published == source.Views()
    {
      ForkHolds(source.out, source.published.out, BySource(edges));
      ForkHolds(source.into, source.published.into, ByTarget(edges));
      ForkHolds(source.types, source.published.types, ByType(edges));
      ForkHolds(source.aliases, source.published.aliases, ByAlias(edges));
      hide Holds;
      out, into := Separated(Fork(source.out, false)), Separated(Fork(source.into, false));
      types, aliases := Separated(Fork(source.types, false)), Separated(Fork(source.aliases, false));
      published := EdgeView(View(source.out), View(source.into), View(source.types), View(source.aliases));
    }

    ghost function Views(): EdgeView
      reads this
    {
      EdgeView(View(out), View(into), View(types), View(aliases))
    }

    /** What readers of the published graph find in its indexes. */
    ghost function SeenByReaders(): EdgeView
      reads this
    {
      EdgeView(Seen(out), Seen(into), Seen(types), Seen(aliases))
    }

    /** They find what was there when this graph was copied. */
    ghost predicate Isolated()
      reads this
    {
      SeenByReaders() == published
    }

    lemma AgreesIsolates(edges: Edges)
      requires Agrees(edges)
      ensures Isolated()
    {
      hide Sound, Lists, View, Seen;
    }

    /** The indexes are those that rebuildIndexes builds for `edges`. */
    ghost predicate Agrees(edges: Edges)
      reads this
    {
      && Holds(out, published.out, BySource(edges))
      && Holds(into, published.into, ByTarget(edges))
      && Holds(types, published.types, ByType(edges))
      && Holds(aliases, published.aliases, ByAlias(edges))
    }

    /** The buckets of an entity, of a type and of an alias. */
    lemma Reads(edges: Edges, key: string)
      requires Agrees(edges)
      ensures forall id :: id in At(View(out), key) <==> id in edges && edges[id].source == key
      ensures forall id :: id in At(View(into), key) <==> id in edges && edges[id].target == key
      ensures forall id :: id in At(View(types), key) <==> id in edges && edges[id].typ == key
      ensures forall id :: id in At(View(aliases), key) <==> id in edges && key in edges[id].aliases
    {
      hide Holds, View, At;
      BucketIs(out, published.out, BySource(edges), key);
      BucketIs(into, published.into, ByTarget(edges), key);
      BucketIs(types, published.types, ByType(edges), key);
      BucketIs(aliases, published.aliases, ByAlias(edges), key);
    }

    /** addEdgeToIndexes. */
    method Add(id: string, e: Edge, ghost edges: Edges)
      requires Agrees(edges) && id !in edges
      modifies this
      ensures Agrees(edges[id := e])
    {
      hide Holds;
      ghost var after := edges[id := e];
      AddedRelations(edges, id, e);
      PostHolds(out, published.out, BySource(edges), e.source, id, BySource(after));
      out := Post(out, e.source, id);
      PostHolds(into, published.into, ByTarget(edges), e.target, id, ByTarget(after));
      into := Post(into, e.target, id);
      PostHolds(types, published.types, ByType(edges), e.typ, id, ByType(after));
      types := Post(types, e.typ, id);
      AddAliases(id, e.aliases, edges);
      SameHolds(aliases, published.aliases, WithAliases(edges, id, e.aliases), ByAlias(after));
    }

    /** addEdgeAliasesToIndex. */
    method AddAliases(id: string, values: seq<string>, ghost edges: Edges)
      requires Holds(aliases, published.aliases, ByAlias(edges))
      modifies this`aliases
      ensures Holds(aliases, published.aliases, WithAliases(edges, id, values))
    {
      hide Holds;
      SameHolds(aliases, published.aliases, ByAlias(edges), WithAliases(edges, id, []));
      assert values[..0] == [];
      for i := 0 to |values|
        invariant Holds(aliases, published.aliases, WithAliases(edges, id, values[..i]))
      {
        assert values[..i + 1] == values[..i] + [values[i]];
        PostHolds(aliases, published.aliases, WithAliases(edges, id, values[..i]), values[i], id, WithAliases(edges, id, values[..i + 1]));
        aliases := Post(aliases, values[i], id);
      }
      assert values[..|values|] == values;
    }

    method RemoveAliases(id: string, values: seq<string>, ghost edges: Edges)
      requires Holds(aliases, published.aliases, ByAlias(edges))
      modifies this`aliases
      ensures Holds(aliases, published.aliases, WithoutAliases(edges, id, values))
    {
      hide Holds;
      SameHolds(aliases, published.aliases, ByAlias(edges), WithoutAliases(edges, id, []));
      assert values[..0] == [];
      for i := 0 to |values|
        invariant Holds(aliases, published.aliases, WithoutAliases(edges, id, values[..i]))
      {
        assert values[..i + 1] == values[..i] + [values[i]];
        UnpostHolds(aliases, published.aliases, WithoutAliases(edges, id, values[..i]), values[i], id, WithoutAliases(edges, id, values[..i + 1]));
        aliases := Unpost(aliases, values[i], id);
      }
      assert values[..|values|] == values;
    }

    /** removeEdgeFromIndexes. */
    method Remove(id: string, e: Edge, ghost edges: Edges)
      requires Agrees(edges) && id in edges && edges[id] == e
      modifies this
      ensures Agrees(edges - {id})
    {
      hide Holds, BySource, ByTarget, ByType, ByAlias, WithoutAliases;
      ghost var after := edges - {id};
      RemovedRelations(edges, id);
      UnpostHolds(out, published.out, BySource(edges), e.source, id, BySource(after));
      out := Unpost(out, e.source, id);
      UnpostHolds(into, published.into, ByTarget(edges), e.target, id, ByTarget(after));
      into := Unpost(into, e.target, id);
      RemoveAliases(id, e.aliases, edges);
      SameHolds(aliases, published.aliases, WithoutAliases(edges, id, e.aliases), ByAlias(after));
      UnpostHolds(types, published.types, ByType(edges), e.typ, id, ByType(after));
      types := Unpost(types, e.typ, id);
    }
  }

  // ---------- entities ----------

  ghost function ByKind(entities: Entities): (string, string) -> bool {
    (k, id) => id in entities && entities[id].kind == k
  }

  ghost function ByMerged(entities: Entities): (string, string) -> bool {
    (k, id) => id in entities && k != "" && k in entities[id].mergedFrom
  }

  ghost function ByField(entities: Entities): ((string, string, string), string) -> bool {
    (k: (string, string, string), id: string) =>
      id in entities && entities[id].kind == k.0 && k.1 in entities[id].fields && entities[id].fields[k.1] == Scalar(k.2)
  }

  /** The entities of a kind, or of all kinds for "", whose field holds a composite value. */
  ghost function CompositeHolders(entities: Entities, kind: string, field: string): set<string> {
    set id | id in entities && HoldsComposite(entities[id], kind, field)
  }

  predicate HoldsComposite(e: Entity, kind: string, field: string) {
    (kind == "" || e.kind == kind) && field in e.fields && e.fields[field].Composite?
  }

  /** A counter map holds the positive counts only. */
  ghost predicate Counts<K(!new)>(counts: map<K, nat>, count: K -> nat) {
    forall k :: (k in counts <==> count(k) > 0) && (k in counts ==> counts[k] == count(k))
  }

  ghost function CompositeCount(entities: Entities): ((string, string)) -> nat {
    (k: (string, string)) => |CompositeHolders(entities, k.0, k.1)|
  }

  /** What the entity indexes of a graph read as. */
  datatype EntityView = EntityView(
    kindIds: Postings<string>,
    kindCounts: map<string, nat>,
    aliases: Postings<string>,
    fields: Postings<(string, string, string)>,
    identities: map<string, map<string, string>>)

  /** The graph an entity index was copied from: how its indexes read, and which of the maps that are not
      copied bucket by bucket were copied with it. */
  datatype Origin = Origin(published: EntityView, entities: bool, identities: bool)

  /** That of a graph which is no copy. */
  const UNCOPIED := Origin(EntityView(map[], map[], map[], map[], map[]), true, true)

  lemma NothingAgrees(signs: Signer)
    ensures KindsAgree(UNCOPIED, Unshared<string, set<string>>(), Gated(map[], map[], true), map[])
    ensures AliasesAgree(UNCOPIED, Unshared<string, set<string>>(), map[])
    ensures FieldsAgree(UNCOPIED, UnsharedFields(), map[], map[])
    ensures IdentitiesAgree(UNCOPIED, signs, Unshared<string, map<string, string>>(), map[])
  {
    hide Holds, Lists, Sound, View, Seen, Counts, CompositeCount, Owned, Sizes, Unshared, ByField, ByKind, ByMerged;
    NoKinds();
    NoPostings();
    NoComposites();
    NoIdentities(signs);
  }

  lemma NoKinds()
    ensures Holds(Unshared<string, set<string>>(), map[], ByKind(map[])) && Holds(Unshared<string, set<string>>(), map[], ByMerged(map[]))
    ensures View(Unshared<string, set<string>>()) == map[] && Sizes(map[], map[])
  {
    EmptyHolds(ByKind(map[]));
    EmptyHolds(ByMerged(map[]));
  }

  lemma NoPostings()
    ensures HoldsFields(UNCOPIED, UnsharedFields(), ByField(map[]))
  {
    EmptyHolds(ByField(map[]));
  }

  lemma NoIdentities(signs: Signer)
    ensures var owners := Unshared<string, map<string, string>>();
      Sound(owners) && owners.apart && Seen(owners) == map[] && Owned(signs, View(owners), map[])
  {
  }

  lemma NoComposites()
    ensures Counts(map[], CompositeCount(map[]))
  {
    forall k: (string, string) ensures CompositeCount(map[])(k) == 0 {
      assert CompositeHolders(map[], k.0, k.1) == {};
    }
  }

  /** Kind sets and their sizes. */
  ghost predicate KindsAgree(o: Origin, kindIds: Buckets<string>, kindCounts: Gated<map<string, nat>>, entities: Entities) {
    && Holds(kindIds, o.published.kindIds, ByKind(entities))
    && Sizes(kindCounts.mine, View(kindIds))
    && kindCounts.theirs == o.published.kindCounts
    && kindCounts.apart == o.entities
  }

  ghost predicate Sizes(counts: map<string, nat>, index: Postings<string>) {
    counts.Keys == index.Keys && forall k :: k in counts ==> counts[k] == |index[k]|
  }

  ghost predicate AliasesAgree(o: Origin, aliases: Buckets<string>, entities: Entities) {
    Holds(aliases, o.published.aliases, ByMerged(entities))
  }

  /** Field postings that list a relation, while those of the published graph read as they did. */
  ghost predicate HoldsFields(o: Origin, fields: FieldBuckets, holds: ((string, string, string), string) -> bool) {
    Sound(fields.values) && fields.apart == o.entities && Seen(fields.values) == o.published.fields && Lists(View(fields.values), holds)
  }

  /** Field postings and composite counters, which go together field by field. */
  ghost predicate FieldsAgree(o: Origin, fields: FieldBuckets, nonScalar: map<(string, string), nat>, entities: Entities) {
    HoldsFields(o, fields, ByField(entities)) && Counts(nonScalar, CompositeCount(entities))
  }

  lemma SameFields(o: Origin, fields: FieldBuckets, holds: ((string, string, string), string) -> bool, holds': ((string, string, string), string) -> bool)
    requires HoldsFields(o, fields, holds) && forall k, y :: holds'(k, y) <==> holds(k, y)
    ensures HoldsFields(o, fields, holds')
  {
    hide Sound, Lists, View, Seen;
    SameRelation(View(fields.values), holds, holds');
  }

  /** The owners of the identities, kept apart from the published ones. */
  ghost predicate IdentitiesAgree(o: Origin, signs: Signer, owners: OwnerBuckets, entities: Entities) {
    && Sound(owners)
    && owners.apart == o.identities
    && Seen(owners) == o.published.identities
    && Owned(signs, View(owners), entities)
  }

  /** What Identifies says of the owners kind by kind. */
  ghost predicate Owned(signs: Signer, owners: map<string, map<string, string>>, entities: Entities) {
    && (forall id, s :: id in entities && s in Signatures(signs, entities[id]) ==>
          s in OfKind(owners, entities[id].kind) && OfKind(owners, entities[id].kind)[s] == id)
    && (forall k, s :: s in OfKind(owners, k) ==>
          OfKind(owners, k)[s] in entities && entities[OfKind(owners, k)[s]].kind == k && s in Signatures(signs, entities[OfKind(owners, k)[s]]))
  }

  lemma OwnedIdentifies(signs: Signer, owners: map<string, map<string, string>>, entities: Entities)
    requires Owned(signs, owners, entities)
    ensures Identifies(signs, Flat(owners), entities)
  {
    hide Flat;
    FlatAt(owners);
  }

  lemma IdentifiesOwned(signs: Signer, owners: map<string, map<string, string>>, entities: Entities)
    requires Identifies(signs, Flat(owners), entities)
    ensures Owned(signs, owners, entities)
  {
    hide Flat;
    FlatAt(owners);
    forall k, s | s in OfKind(owners, k)
      ensures OfKind(owners, k)[s] in entities && entities[OfKind(owners, k)[s]].kind == k && s in Signatures(signs, entities[OfKind(owners, k)[s]])
    {
      assert (k, s) in Flat(owners);
    }
  }

  /** Each identity signature of a kind is owned by the one entity that has it. */
  ghost predicate Identifies(signs: Signer, identities: map<(string, string), string>, entities: Entities) {
    && (forall id, s :: id in entities && s in Signatures(signs, entities[id]) ==>
          (entities[id].kind, s) in identities && identities[(entities[id].kind, s)] == id)
    && (forall k :: k in identities ==>
          identities[k] in entities && entities[identities[k]].kind == k.0 && k.1 in Signatures(signs, entities[identities[k]]))
  }

  /** validateIdentityIndexAvailable. */
  predicate Available(signs: Signer, identities: map<(string, string), string>, e: Entity) {
    forall s :: s in Signatures(signs, e) && (e.kind, s) in identities ==> identities[(e.kind, s)] == e.id
  }

  function Bumped<K>(counts: map<K, nat>, key: K, up: bool): map<K, nat> {
    var n := if key in counts then counts[key] else 0;
    if up then counts[key := n + 1] else if n <= 1 then counts - {key} else counts[key := n - 1]
  }

  lemma BumpedCounts<K(!new)>(counts: map<K, nat>, count: K -> nat, key: K, up: bool, count': K -> nat)
    requires Counts(counts, count)
    requires forall k :: k != key ==> count'(k) == count(k)
    requires if up then count'(key) == count(key) + 1 else count(key) == count'(key) + 1
    ensures Counts(Bumped(counts, key, up), count')
  {
    var counts' := Bumped(counts, key, up);
    assert key in counts <==> count(key) > 0;
    forall k ensures (k in counts' <==> count'(k) > 0) && (k in counts' ==> counts'[k] == count'(k)) {
      assert k in counts <==> count(k) > 0;
    }
  }

  /** Setting or clearing one field of one entity. */
  function WithField(entities: Entities, id: string, field: string, value: Value): Entities
    requires id in entities
  {
    entities[id := entities[id].(fields := entities[id].fields[field := value])]
  }

  function WithoutField(entities: Entities, id: string, field: string): Entities
    requires id in entities
  {
    entities[id := entities[id].(fields := entities[id].fields - {field})]
  }

  /** Replacing one entity adds it to the holders or leaves them alone. */
  lemma ReplacedHolders(entities: Entities, id: string, e: Entity, kind: string, f: string)
    requires id in entities && (HoldsComposite(entities[id], kind, f) ==> HoldsComposite(e, kind, f))
    ensures CompositeHolders(entities[id := e], kind, f) == CompositeHolders(entities, kind, f) + if HoldsComposite(e, kind, f) then {id} else {}
  {
    hide HoldsComposite;
  }

  lemma FieldCounts(entities: Entities, id: string, field: string, value: Value, kind: string, f: string)
    requires id in entities && entities[id].kind != "" && field !in entities[id].fields
    ensures |CompositeHolders(WithField(entities, id, field, value), kind, f)|
         == |CompositeHolders(entities, kind, f)|
          + if value.Composite? && f == field && (kind == "" || kind == entities[id].kind) then 1 else 0
  {
    var e := entities[id].(fields := entities[id].fields[field := value]);
    var holders := CompositeHolders(entities, kind, f);
    ReplacedHolders(entities, id, e, kind, f);
    assert id in holders <==> HoldsComposite(entities[id], kind, f);
    hide CompositeHolders;
    if f == field || !HoldsComposite(e, kind, f) {
    } else {
      assert holders + {id} == holders;
    }
  }

  lemma FieldPostings(entities: Entities, id: string, field: string, value: Value)
    requires id in entities && field !in entities[id].fields
    ensures var after := WithField(entities, id, field, value);
      forall k, x :: ByField(after)(k, x) <==> (ByField(entities)(k, x) || (value.Scalar? && k == (entities[id].kind, field, value.key) && x == id))
  {
  }

  /** Entities that agree on kinds and on which index class every field falls in are indexed alike. */
  ghost predicate SameClasses(a: Entity, b: Entity) {
    && a.kind == b.kind
    && a.fields.Keys == b.fields.Keys
    && forall f :: f in a.fields ==> SameClass(a.fields[f], b.fields[f])
  }

  predicate SameClass(a: Value, b: Value) {
    (a.Composite? && b.Composite?) || a == b
  }

  lemma SameClassesAgree(o: Origin, fields: FieldBuckets, nonScalar: map<(string, string), nat>, a: Entities, b: Entities)
    requires FieldsAgree(o, fields, nonScalar, a) && a.Keys == b.Keys
    requires forall id :: id in a ==> SameClasses(a[id], b[id])
    ensures FieldsAgree(o, fields, nonScalar, b)
  {
    hide HoldsFields, Counts, CompositeCount;
    forall k, x ensures ByField(b)(k, x) <==> ByField(a)(k, x) {
      if x in a {
        assert SameClasses(a[x], b[x]);
      }
    }
    SameFields(o, fields, ByField(a), ByField(b));
    SameCounts(nonScalar, a, b);
  }

  lemma SameCounts(nonScalar: map<(string, string), nat>, a: Entities, b: Entities)
    requires Counts(nonScalar, CompositeCount(a)) && a.Keys == b.Keys
    requires forall id :: id in a ==> SameClasses(a[id], b[id])
    ensures Counts(nonScalar, CompositeCount(b))
  {
    forall k: (string, string) ensures CompositeCount(b)(k) == CompositeCount(a)(k) {
      assert CompositeHolders(a, k.0, k.1) == CompositeHolders(b, k.0, k.1) by {
        forall id | id in a ensures id in CompositeHolders(a, k.0, k.1) <==> id in CompositeHolders(b, k.0, k.1) {
          assert SameClasses(a[id], b[id]);
        }
      }
    }
    forall k: (string, string) ensures (k in nonScalar <==> CompositeCount(b)(k) > 0) && (k in nonScalar ==> nonScalar[k] == CompositeCount(b)(k)) {
      assert k in nonScalar <==> CompositeCount(a)(k) > 0;
    }
  }

  /** An entity without fields weighs nothing in the field indexes. */
  lemma BareEntityAgrees(o: Origin, fields: FieldBuckets, nonScalar: map<(string, string), nat>, entities: Entities, id: string, bare: Entity)
    requires bare.fields == map[] && id !in entities
    ensures FieldsAgree(o, fields, nonScalar, entities) <==> FieldsAgree(o, fields, nonScalar, entities[id := bare])
  {
    var b := entities[id := bare];
    forall k, x ensures ByField(b)(k, x) <==> ByField(entities)(k, x) {
    }
    forall k: (string, string) ensures CompositeCount(b)(k) == CompositeCount(entities)(k) {
      assert CompositeHolders(entities, k.0, k.1) == CompositeHolders(b, k.0, k.1);
    }
    if HoldsFields(o, fields, ByField(entities)) {
      SameFields(o, fields, ByField(entities), ByField(b));
    }
    if HoldsFields(o, fields, ByField(b)) {
      SameFields(o, fields, ByField(b), ByField(entities));
    }
    assert Counts(nonScalar, CompositeCount(entities)) <==> Counts(nonScalar, CompositeCount(b)) by {
      if Counts(nonScalar, CompositeCount(entities)) {
        forall k: (string, string) ensures (k in nonScalar <==> CompositeCount(b)(k) > 0) && (k in nonScalar ==> nonScalar[k] == CompositeCount(b)(k)) {
          assert k in nonScalar <==> CompositeCount(entities)(k) > 0;
        }
      }
      if Counts(nonScalar, CompositeCount(b)) {
        forall k: (string, string) ensures (k in nonScalar <==> CompositeCount(entities)(k) > 0) && (k in nonScalar ==> nonScalar[k] == CompositeCount(entities)(k)) {
          assert k in nonScalar <==> CompositeCount(b)(k) > 0;
        }
      }
    }
  }

  /** The six entity indexes. */
  class EntityIndex {
    var kindIds: Buckets<string>
    var kindCounts: Gated<map<string, nat>>
    var aliases: Buckets<string>
    var fields: FieldBuckets
    var nonScalar: map<(string, string), nat>
    var owners: OwnerBuckets
    ghost const origin: Origin

    constructor (ghost signs: Signer)
      ensures Agrees(signs, map[]) && origin.entities && origin.identities
    {
      hide KindsAgree, AliasesAgree, FieldsAgree, IdentitiesAgree, Unshared;
      NothingAgrees(signs);
      kindIds, kindCounts, aliases := Unshared(), Gated(map[], map[], true), Unshared();
      fields, nonScalar, owners := UnsharedFields(), map[], Unshared();
      origin := UNCOPIED;
    }

    /** cloneForStorageImpact: the maps of counts, fields and identities are copied only if the commits may
        write them; buckets are shared, and the other directories cloned. */
    constructor Copy(source: EntityIndex, entityWrites: bool, identityWrites: bool, ghost signs: Signer, ghost entities: Entities)
      requires source.Agrees(signs, entities)
      ensures Agrees(signs, entities) && origin == Origin(source.Views(), entityWrites, identityWrites)
    {
      hide KindsAgree, AliasesAgree, FieldsAgree, IdentitiesAgree, View, Fork, ForkFields, Separated;
      ghost var o := Origin(source.Views(), entityWrites, identityWrites);
      ForkedKinds(source.origin, o, source.kindIds, source.kindCounts, entities);
      ForkedAliases(source.origin, o, source.aliases, entities);
      ForkedFields(source.origin, o, source.fields, source.nonScalar, entities);
      ForkedIdentities(source.origin, o, signs, source.owners, entities);
      kindIds, aliases := Separated(Fork(source.kindIds, false)), Separated(Fork(source.aliases, false));
      kindCounts := Gated(source.kindCounts.mine, source.kindCounts.mine, entityWrites);
      fields, nonScalar, owners := ForkFields(source.fields, entityWrites), source.nonScalar, Fork(source.owners, identityWrites);
      origin := o;
    }

    /** The owner of each signature of each kind. */
    function Identities(): map<(string, string), string>
      reads this
    {
      Flat(View(owners))
    }

    ghost function Views(): EntityView
      reads this
    {
      EntityView(View(kindIds), kindCounts.mine, View(aliases), View(fields.values), View(owners))
    }

    /** What readers of the published graph find in its indexes. */
    ghost function SeenByReaders(): EntityView
      reads this
    {
      EntityView(Seen(kindIds), kindCounts.theirs, Seen(aliases), Seen(fields.values), Seen(owners))
    }

    /** They find what was there when this graph was copied. */
    ghost predicate Isolated()
      reads this
    {
      SeenByReaders() == origin.published
    }

    lemma AgreesIsolates(signs: Signer, entities: Entities)
      requires Agrees(signs, entities)
      ensures Isolated()
    {
      hide Sound, Lists, View, Seen, Counts, Owned, Sizes;
    }

    /** The indexes are those that rebuildIndexes builds for `entities`. */
    ghost predicate Agrees(signs: Signer, entities: Entities)
      reads this
    {
      && KindsAgree(origin, kindIds, kindCounts, entities)
      && AliasesAgree(origin, aliases, entities)
      && FieldsAgree(origin, fields, nonScalar, entities)
      && IdentitiesAgree(origin, signs, owners, entities)
    }

    /** The bucket of an alias. */
    lemma Reads(signs: Signer, entities: Entities, key: string)
      requires Agrees(signs, entities)
      ensures forall id :: id in At(View(aliases), key) <==> id in entities && key != "" && key in entities[id].mergedFrom
    {
      hide Holds, View, At, KindsAgree, FieldsAgree, IdentitiesAgree;
      BucketIs(aliases, origin.published.aliases, ByMerged(entities), key);
    }

    /** What the indexes promise the engine: exact identities and postings. */
    lemma Gives(signs: Signer, entities: Entities)
      requires Agrees(signs, entities)
      ensures Identifies(signs, Identities(), entities) && Lists(View(fields.values), ByField(entities))
    {
      hide Sound, View, Seen, Identifies, Lists, Flat, Owned, Counts, KindsAgree, AliasesAgree;
      OwnedIdentifies(signs, View(owners), entities);
    }

    /** adjustNonScalarField: the kind's own counter and the one over all kinds. */
    method AdjustNonScalar(kind: string, field: string, up: bool)
      modifies this`nonScalar
      ensures nonScalar == if kind == "" then Bumped(old(nonScalar), (kind, field), up) else Bumped(Bumped(old(nonScalar), (kind, field), up), ("", field), up)
    {
      nonScalar := Bumped(nonScalar, (kind, field), up);
      if kind != "" {
        nonScalar := Bumped(nonScalar, ("", field), up);
      }
    }

    method AddField(id: string, kind: string, field: string, value: Value, ghost entities: Entities)
      requires id in entities && entities[id].kind == kind != "" && field !in entities[id].fields
      requires FieldsAgree(origin, fields, nonScalar, entities) && origin.entities
      modifies this`fields, this`nonScalar
      ensures FieldsAgree(origin, fields, nonScalar, WithField(entities, id, field, value))
    {
      hide HoldsFields, Counts, CompositeCount, ByField;
      ghost var after := WithField(entities, id, field, value);
      FieldPostings(entities, id, field, value);
      match value
      case Scalar(key) =>
        PostFieldHolds(origin, fields, entities, after, kind, field, key, id);
        fields := PostField(fields, kind, field, key, id);
        CountsFollow(nonScalar, entities, id, field, value);
      case Composite(_, _) =>
        SameFields(origin, fields, ByField(entities), ByField(after));
        CountsFollow(nonScalar, entities, id, field, value);
        AdjustNonScalar(kind, field, true);
    }

    method RemoveField(id: string, kind: string, field: string, value: Value, ghost entities: Entities)
      requires id in entities && entities[id].kind == kind != "" && field in entities[id].fields && entities[id].fields[field] == value
      requires FieldsAgree(origin, fields, nonScalar, entities) && origin.entities
      modifies this`fields, this`nonScalar
      ensures FieldsAgree(origin, fields, nonScalar, WithoutField(entities, id, field))
    {
      hide HoldsFields, Counts, CompositeCount, ByField;
      ghost var after := WithoutField(entities, id, field);
      assert entities[id].fields == (entities[id].fields - {field})[field := value];
      assert entities[id] == after[id].(fields := entities[id].fields);
      assert entities == WithField(after, id, field, value);
      FieldPostings(after, id, field, value);
      NotPosted(after, id, field);
      match value
      case Scalar(key) =>
        UnpostFieldHolds(origin, fields, entities, after, kind, field, key, id);
        fields := UnpostField(fields, kind, field, key, id);
        CountsReturn(nonScalar, after, id, field, value);
      case Composite(_, _) =>
        SameFields(origin, fields, ByField(entities), ByField(after));
        CountsReturn(nonScalar, after, id, field, value);
        AdjustNonScalar(kind, field, false);
    }

    method AddFields(id: string, kind: string, values: map<string, Value>, ghost entities: Entities)
      requires id in entities && entities[id].kind == kind != "" && entities[id].fields == map[]
      requires FieldsAgree(origin, fields, nonScalar, entities) && origin.entities
      modifies this`fields, this`nonScalar
      ensures FieldsAgree(origin, fields, nonScalar, entities[id := entities[id].(fields := values)])
    {
      hide FieldsAgree;
      ghost var base := entities[id];
      ghost var done: map<string, Value> := map[];
      var todo := values.Keys;
      assert entities[id := base.(fields := done)] == entities;
      while todo != {}
        invariant todo <= values.Keys && done == values - todo
        invariant FieldsAgree(origin, fields, nonScalar, entities[id := base.(fields := done)])
        decreases todo
      {
        var f :| f in todo;
        ghost var now := entities[id := base.(fields := done)];
        AddField(id, kind, f, values[f], now);
        todo := todo - {f};
        done := done[f := values[f]];
        assert WithField(now, id, f, values[f]) == entities[id := base.(fields := done)];
      }
      assert done == values;
    }

    method RemoveFields(id: string, kind: string, values: map<string, Value>, ghost entities: Entities)
      requires id in entities && entities[id].kind == kind != "" && entities[id].fields == values
      requires FieldsAgree(origin, fields, nonScalar, entities) && origin.entities
      modifies this`fields, this`nonScalar
      ensures FieldsAgree(origin, fields, nonScalar, entities[id := entities[id].(fields := map[])])
    {
      hide FieldsAgree;
      ghost var base := entities[id];
      ghost var left := values;
      var todo := values.Keys;
      assert entities[id := base.(fields := left)] == entities;
      while todo != {}
        invariant todo <= values.Keys && left == map f | f in values && f in todo :: values[f]
        invariant FieldsAgree(origin, fields, nonScalar, entities[id := base.(fields := left)])
        decreases todo
      {
        var f :| f in todo;
        ghost var now := entities[id := base.(fields := left)];
        RemoveField(id, kind, f, values[f], now);
        todo := todo - {f};
        left := left - {f};
        assert WithoutField(now, id, f) == entities[id := base.(fields := left)];
      }
      assert left == map[];
    }

    /** The first field loop of updateEntityIndexes: entries of fields that change class are removed. */
    method DropChanged(id: string, kind: string, before: map<string, Value>, after: map<string, Value>, ghost entities: Entities)
      requires id in entities && entities[id].kind == kind != "" && entities[id].fields == before
      requires FieldsAgree(origin, fields, nonScalar, entities) && origin.entities
      modifies this`fields, this`nonScalar
      ensures FieldsAgree(origin, fields, nonScalar, entities[id := entities[id].(fields := Steady(before, after, before))])
    {
      hide FieldsAgree;
      ghost var base := entities[id];
      ghost var now := before;
      var todo := before.Keys;
      assert entities[id := base.(fields := now)] == entities;
      while todo != {}
        invariant todo <= before.Keys
        invariant now == map f | f in before && (f in todo || (f in after && SameClass(before[f], after[f]))) :: before[f]
        invariant FieldsAgree(origin, fields, nonScalar, entities[id := base.(fields := now)])
        decreases todo
      {
        var f :| f in todo;
        todo := todo - {f};
        if f !in after || !SameClass(before[f], after[f]) {
          ghost var state := entities[id := base.(fields := now)];
          RemoveField(id, kind, f, before[f], state);
          now := now - {f};
          assert WithoutField(state, id, f) == entities[id := base.(fields := now)];
        }
      }
      assert now == Steady(before, after, before);
    }

    /** The second one: entries of fields in their new class are added. */
    method AddChanged(id: string, kind: string, before: map<string, Value>, after: map<string, Value>, ghost entities: Entities)
      requires id in entities && entities[id].kind == kind != "" && entities[id].fields == Steady(before, after, after)
      requires FieldsAgree(origin, fields, nonScalar, entities) && origin.entities
      modifies this`fields, this`nonScalar
      ensures FieldsAgree(origin, fields, nonScalar, entities[id := entities[id].(fields := after)])
    {
      hide FieldsAgree;
      ghost var base := entities[id];
      ghost var next := Steady(before, after, after);
      var todo := after.Keys;
      assert entities[id := base.(fields := next)] == entities;
      while todo != {}
        invariant todo <= after.Keys
        invariant next == map f | f in after && (f !in todo || (f in before && SameClass(before[f], after[f]))) :: after[f]
        invariant FieldsAgree(origin, fields, nonScalar, entities[id := base.(fields := next)])
        decreases todo
      {
        var f :| f in todo;
        todo := todo - {f};
        if f !in before || !SameClass(before[f], after[f]) {
          ghost var state := entities[id := base.(fields := next)];
          AddField(id, kind, f, after[f], state);
          next := next[f := after[f]];
          assert WithField(state, id, f, after[f]) == entities[id := base.(fields := next)];
        }
      }
      assert next == after;
    }

    /** The field half of updateEntityIndexes: only fields whose index class changed are touched. */
    method UpdateFields(id: string, kind: string, before: map<string, Value>, after: map<string, Value>, ghost entities: Entities)
      requires id in entities && entities[id].kind == kind != "" && entities[id].fields == before
      requires FieldsAgree(origin, fields, nonScalar, entities) && origin.entities
      modifies this`fields, this`nonScalar
      ensures FieldsAgree(origin, fields, nonScalar, entities[id := entities[id].(fields := after)])
    {
      hide FieldsAgree;
      DropChanged(id, kind, before, after, entities);
      ghost var dropped := entities[id := entities[id].(fields := Steady(before, after, before))];
      ghost var middle := entities[id := entities[id].(fields := Steady(before, after, after))];
      SameClassesAgree(origin, fields, nonScalar, dropped, middle);
      AddChanged(id, kind, before, after, middle);
      assert middle[id := middle[id].(fields := after)] == entities[id := entities[id].(fields := after)];
    }

    method AddKind(id: string, e: Entity, ghost entities: Entities)
      requires KindsAgree(origin, kindIds, kindCounts, entities) && origin.entities && id !in entities
      modifies this`kindIds, this`kindCounts
      ensures KindsAgree(origin, kindIds, kindCounts, entities[id := e])
    {
      KindAdded(origin, kindIds, kindCounts, entities, id, e);
      kindCounts := Put(kindCounts, Bumped(kindCounts.mine, e.kind, true));
      kindIds := Post(kindIds, e.kind, id);
    }

    method RemoveKind(id: string, e: Entity, ghost entities: Entities)
      requires KindsAgree(origin, kindIds, kindCounts, entities) && origin.entities && id in entities && entities[id].kind == e.kind
      modifies this`kindIds, this`kindCounts
      ensures KindsAgree(origin, kindIds, kindCounts, entities - {id})
    {
      KindRemoved(origin, kindIds, kindCounts, entities, id, e);
      kindIds := Unpost(kindIds, e.kind, id);
      kindCounts := Put(kindCounts, Bumped(kindCounts.mine, e.kind, false));
    }

    /** addEntityAliasesToIndex; empty aliases are skipped. */
    method AddAliases(id: string, values: seq<string>, ghost holds: (string, string) -> bool)
      requires Holds(aliases, origin.published.aliases, holds)
      modifies this`aliases
      ensures Holds(aliases, origin.published.aliases, PlusAliases(holds, id, values))
    {
      hide Holds;
      ghost var seen := origin.published.aliases;
      assert values[..0] == [];
      SameHolds(aliases, seen, holds, PlusAliases(holds, id, []));
      for i := 0 to |values|
        invariant Holds(aliases, seen, PlusAliases(holds, id, values[..i]))
      {
        assert values[..i + 1] == values[..i] + [values[i]];
        if values[i] != "" {
          PostHolds(aliases, seen, PlusAliases(holds, id, values[..i]), values[i], id, PlusAliases(holds, id, values[..i + 1]));
          aliases := Post(aliases, values[i], id);
        } else {
          SameHolds(aliases, seen, PlusAliases(holds, id, values[..i]), PlusAliases(holds, id, values[..i + 1]));
        }
      }
      assert values[..|values|] == values;
    }

    method RemoveAliases(id: string, values: seq<string>, ghost holds: (string, string) -> bool)
      requires Holds(aliases, origin.published.aliases, holds)
      modifies this`aliases
      ensures Holds(aliases, origin.published.aliases, MinusAliases(holds, id, values))
    {
      hide Holds;
      ghost var seen := origin.published.aliases;
      assert values[..0] == [];
      SameHolds(aliases, seen, holds, MinusAliases(holds, id, []));
      for i := 0 to |values|
        invariant Holds(aliases, seen, MinusAliases(holds, id, values[..i]))
      {
        assert values[..i + 1] == values[..i] + [values[i]];
        if values[i] != "" {
          UnpostHolds(aliases, seen, MinusAliases(holds, id, values[..i]), values[i], id, MinusAliases(holds, id, values[..i + 1]));
          aliases := Unpost(aliases, values[i], id);
        } else {
          SameHolds(aliases, seen, MinusAliases(holds, id, values[..i]), MinusAliases(holds, id, values[..i + 1]));
        }
      }
      assert values[..|values|] == values;
    }

    method AddEntityAliases(id: string, e: Entity, ghost entities: Entities)
      requires AliasesAgree(origin, aliases, entities) && id !in entities
      modifies this`aliases
      ensures AliasesAgree(origin, aliases, entities[id := e])
    {
      AddAliases(id, e.mergedFrom, ByMerged(entities));
      SameHolds(aliases, origin.published.aliases, PlusAliases(ByMerged(entities), id, e.mergedFrom), ByMerged(entities[id := e]));
    }

    method RemoveEntityAliases(id: string, e: Entity, ghost entities: Entities)
      requires AliasesAgree(origin, aliases, entities) && id in entities && entities[id] == e
      modifies this`aliases
      ensures AliasesAgree(origin, aliases, entities - {id})
    {
      RemoveAliases(id, e.mergedFrom, ByMerged(entities));
      SameHolds(aliases, origin.published.aliases, MinusAliases(ByMerged(entities), id, e.mergedFrom), ByMerged(entities - {id}));
    }

    method AddEntityFields(id: string, e: Entity, ghost entities: Entities)
      requires origin.entities && FieldsAgree(origin, fields, nonScalar, entities) && id !in entities && e.kind != ""
      modifies this`fields, this`nonScalar
      ensures FieldsAgree(origin, fields, nonScalar, entities[id := e])
    {
      ghost var bare := entities[id := e.(fields := map[])];
      BareEntityAgrees(origin, fields, nonScalar, entities, id, e.(fields := map[]));
      AddFields(id, e.kind, e.fields, bare);
      assert bare[id := bare[id].(fields := e.fields)] == entities[id := e];
    }

    method RemoveEntityFields(id: string, e: Entity, ghost entities: Entities)
      requires origin.entities && FieldsAgree(origin, fields, nonScalar, entities) && id in entities && entities[id] == e && e.kind != ""
      modifies this`fields, this`nonScalar
      ensures FieldsAgree(origin, fields, nonScalar, entities - {id})
    {
      RemoveFields(id, e.kind, e.fields, entities);
      assert (entities - {id})[id := e.(fields := map[])] == entities[id := e.(fields := map[])];
      BareEntityAgrees(origin, fields, nonScalar, entities - {id}, id, e.(fields := map[]));
    }

    method UpdateEntityFields(id: string, before: Entity, after: Entity, ghost entities: Entities)
      requires origin.entities && FieldsAgree(origin, fields, nonScalar, entities) && id in entities && entities[id] == before && before.kind == after.kind != ""
      modifies this`fields, this`nonScalar
      ensures FieldsAgree(origin, fields, nonScalar, entities[id := after])
    {
      UpdateFields(id, before.kind, before.fields, after.fields, entities);
      SameClassesAgree(origin, fields, nonScalar, entities[id := before.(fields := after.fields)], entities[id := after]);
    }

    method UpdateEntityAliases(id: string, before: Entity, after: Entity, ghost entities: Entities)
      requires AliasesAgree(origin, aliases, entities) && id in entities && entities[id] == before
      modifies this`aliases
      ensures AliasesAgree(origin, aliases, entities[id := after])
    {
      if before.mergedFrom != after.mergedFrom {
        RemoveEntityAliases(id, before, entities);
        AddEntityAliases(id, after, entities - {id});
        assert (entities - {id})[id := after] == entities[id := after];
      } else {
        SameHolds(aliases, origin.published.aliases, ByMerged(entities), ByMerged(entities[id := after]));
      }
    }

    method UpdateIdentities(signs: Signer, id: string, before: Entity, after: Entity, ghost entities: Entities)
      requires IdentitiesAgree(origin, signs, owners, entities) && origin.identities
      requires id in entities && entities[id] == before && before.kind == after.kind
      requires after.id == id && Available(signs, Identities(), after)
      modifies this`owners
      ensures IdentitiesAgree(origin, signs, owners, entities[id := after])
    {
      hide Identifies, Owned, Signatures, Available, Flat, Sound, View, Seen;
      OwnedIdentifies(signs, View(owners), entities);
      if Signatures(signs, before) != Signatures(signs, after) {
        ghost var were := Identities();
        RemoveIdentities(signs, id, before, entities);
        OwnedIdentifies(signs, View(owners), entities - {id});
        StaysAvailable(signs, were, Identities(), entities, id, after);
        AddIdentities(signs, id, after, entities - {id});
        assert (entities - {id})[id := after] == entities[id := after];
      } else {
        SameIdentities(signs, Identities(), entities, id, after);
        IdentifiesOwned(signs, View(owners), entities[id := after]);
      }
    }

    method RemoveIdentities(signs: Signer, id: string, e: Entity, ghost entities: Entities)
      requires IdentitiesAgree(origin, signs, owners, entities) && origin.identities && id in entities && entities[id] == e
      modifies this`owners
      ensures IdentitiesAgree(origin, signs, owners, entities - {id})
    {
      hide Identifies, Owned, Signatures, Flat, Sound, View, Seen, Unclaim;
      OwnedIdentifies(signs, View(owners), entities);
      UnclaimIs(owners, e.kind, Signatures(signs, e), id);
      UnclaimIdentifies(signs, Identities(), entities, id);
      owners := Unclaim(owners, e.kind, Signatures(signs, e), id);
      IdentifiesOwned(signs, View(owners), entities - {id});
    }

    method AddIdentities(signs: Signer, id: string, e: Entity, ghost entities: Entities)
      requires IdentitiesAgree(origin, signs, owners, entities) && origin.identities
      requires id !in entities && e.id == id && Available(signs, Identities(), e)
      modifies this`owners
      ensures IdentitiesAgree(origin, signs, owners, entities[id := e])
    {
      hide Identifies, Owned, Signatures, Available, Flat, Sound, View, Seen, Claim;
      OwnedIdentifies(signs, View(owners), entities);
      ClaimIs(owners, e.kind, Signatures(signs, e), id);
      ClaimAvailable(signs, Identities(), entities, id, e);
      owners := Claim(owners, e.kind, Signatures(signs, e), id);
      IdentifiesOwned(signs, View(owners), entities[id := e]);
    }

    /** addEntityToIndexes. */
    method Add(signs: Signer, id: string, e: Entity, ghost entities: Entities)
      requires Agrees(signs, entities) && Writes() && id !in entities && e.id == id && e.kind != "" && Available(signs, Identities(), e)
      modifies this
      ensures Agrees(signs, entities[id := e])
    {
      hide KindsAgree, AliasesAgree, FieldsAgree, IdentitiesAgree, Available, Flat, View;
      AddKind(id, e, entities);
      AddEntityAliases(id, e, entities);
      AddIdentities(signs, id, e, entities);
      AddEntityFields(id, e, entities);
    }

    /** removeEntityFromIndexes. */
    method Remove(signs: Signer, id: string, e: Entity, ghost entities: Entities)
      requires Agrees(signs, entities) && Writes() && id in entities && entities[id] == e && e.kind != ""
      modifies this
      ensures Agrees(signs, entities - {id})
    {
      hide KindsAgree, AliasesAgree, FieldsAgree, IdentitiesAgree;
      RemoveKind(id, e, entities);
      RemoveEntityAliases(id, e, entities);
      RemoveIdentities(signs, id, e, entities);
      RemoveEntityFields(id, e, entities);
    }

    /** updateEntityIndexes. */
    method Update(signs: Signer, id: string, before: Entity, after: Entity, ghost entities: Entities)
      requires Agrees(signs, entities) && Writes() && id in entities && entities[id] == before && before.kind != "" && after.kind != ""
      requires after.id == id && Available(signs, Identities(), after)
      modifies this
      ensures Agrees(signs, entities[id := after])
    {
      hide KindsAgree, AliasesAgree, FieldsAgree, IdentitiesAgree, Identifies, Available, Lists, View, Flat;
      if before.kind != after.kind {
        ghost var were := Identities();
        Gives(signs, entities);
        Remove(signs, id, before, entities);
        Gives(signs, entities - {id});
        StaysAvailable(signs, were, Identities(), entities, id, after);
        Add(signs, id, after, entities - {id});
        assert (entities - {id})[id := after] == entities[id := after];
      } else {
        UpdateInKind(signs, id, before, after, entities);
      }
    }

    method UpdateInKind(signs: Signer, id: string, before: Entity, after: Entity, ghost entities: Entities)
      requires Agrees(signs, entities) && Writes() && id in entities && entities[id] == before && before.kind == after.kind != ""
      requires after.id == id && Available(signs, Identities(), after)
      modifies this
      ensures Agrees(signs, entities[id := after])
    {
      hide KindsAgree, AliasesAgree, FieldsAgree, IdentitiesAgree, Available, Flat, View;
      KindKept(origin, kindIds, kindCounts, entities, id, after);
      UpdateEntityAliases(id, before, after, entities);
      UpdateIdentities(signs, id, before, after, entities);
      UpdateEntityFields(id, before, after, entities);
    }

    /** Whether the maps not copied bucket by bucket are this graph's own. */
    ghost predicate Writes() {
      origin.entities && origin.identities
    }

    /** rebuildIndexes for entities that share no identity, in an index that shares no bucket. */
    method Fill(signs: Signer, entities: Entities)
      requires Agrees(signs, map[]) && Writes() && EntitiesKeyed(entities) && SeparateIdentities(signs, entities)
      modifies this
      ensures Agrees(signs, entities)
    {
      hide KindsAgree, AliasesAgree, FieldsAgree, IdentitiesAgree, EntitiesKeyed, SeparateIdentities;
      ghost var done: Entities := map[];
      var todo := entities.Keys;
      while todo != {}
        invariant Filled(entities, todo, done)
        invariant Agrees(signs, done)
        decreases todo
      {
        var id :| id in todo;
        FilledStep(entities, todo, done, id);
        AddAnother(signs, id, entities, done);
        todo, done := todo - {id}, done[id := entities[id]];
      }
      FilledAll(entities, done);
    }

    /** rebuildIdentityIndexesForKinds: the identities of some kinds anew, under the keys they have now. */
    method RebuildKinds(signs: Signer, kinds: set<string>, entities: Entities, ghost before: Signer)
      requires Agrees(before, entities) && SeparateIdentities(signs, entities) && (kinds != {} ==> origin.identities)
      requires forall id :: id in entities && entities[id].kind !in kinds ==> Signatures(signs, entities[id]) == Signatures(before, entities[id])
      modifies this`owners
      ensures Agrees(signs, entities)
    {
      hide KindsAgree, AliasesAgree, FieldsAgree, Signatures, Sound, View, Seen, Identifies, Owned, Flat, SeparateIdentities, OfKinds;
      OwnedIdentifies(before, View(owners), entities);
      var next := ClaimKinds(signs, kinds, entities);
      RenewKinds(kinds, next);
      KindsReplaced(signs, before, old(Identities()), next, Identities(), entities, kinds);
      IdentifiesOwned(signs, View(owners), entities);
    }

    /** The first loop: the signatures of the entities of those kinds, by kind. */
    method ClaimKinds(signs: Signer, kinds: set<string>, entities: Entities) returns (next: map<string, map<string, string>>)
      requires SeparateIdentities(signs, entities)
      ensures next.Keys == kinds && Identifies(signs, Flat(next), OfKinds(entities, kinds, {}))
    {
      hide Signatures, Identifies, SeparateIdentities, OfKinds, Flat;
      next := map k | k in kinds :: map[];
      NothingClaimed(signs, next, entities, kinds);
      var todo := entities.Keys;
      while todo != {}
        invariant todo <= entities.Keys && next.Keys == kinds && Identifies(signs, Flat(next), OfKinds(entities, kinds, todo))
        decreases todo
      {
        var id :| id in todo;
        var e := entities[id];
        assert todo - {id} + {id} == todo;
        if e.kind in kinds {
          OfKindsStep(signs, Flat(next), entities, kinds, todo - {id}, id);
          ClaimedFlat(next, next[e.kind := OfKind(next, e.kind) + map s | s in Signatures(signs, e) :: id], e.kind, Signatures(signs, e), id);
          next := next[e.kind := OfKind(next, e.kind) + map s | s in Signatures(signs, e) :: id];
        } else {
          OfKindsSkip(entities, kinds, todo - {id}, id);
        }
        todo := todo - {id};
      }
    }

    /** The second loop: each of the maps goes in the place of the old one. */
    method RenewKinds(kinds: set<string>, next: map<string, map<string, string>>)
      requires Sound(owners) && Seen(owners) == origin.published.identities && owners.apart == origin.identities && (kinds != {} ==> origin.identities)
      requires next.Keys == kinds
      modifies this`owners
      ensures Sound(owners) && Seen(owners) == origin.published.identities && owners.apart == origin.identities
      ensures Identities() == (map k | k in old(Identities()) && k.0 !in kinds :: old(Identities())[k]) + Flat(next)
    {
      hide Sound, View, Seen, Flat, Renewed;
      ghost var before := View(owners);
      var todo := kinds;
      NoneRenewed(before, next);
      while todo != {}
        invariant todo <= kinds && Sound(owners) && Seen(owners) == origin.published.identities && owners.apart == origin.identities
        invariant View(owners) == before + (next - todo)
        decreases todo
      {
        var kind :| kind in todo;
        RenewedIs(owners, kind, next[kind]);
        OneRenewed(before, next, todo, kind);
        owners := Renewed(owners, kind, next[kind]);
        todo := todo - {kind};
      }
      RenewedFlat(before, next, kinds);
    }

    method AddAnother(signs: Signer, id: string, entities: Entities, ghost done: Entities)
      requires EntitiesKeyed(entities) && SeparateIdentities(signs, entities) && id in entities && id !in done
      requires Agrees(signs, done) && Writes() && forall i :: i in done ==> i in entities && done[i] == entities[i]
      modifies this
      ensures Agrees(signs, done[id := entities[id]])
    {
      hide KindsAgree, AliasesAgree, FieldsAgree, SeparateIdentities, Available, Sound, View, Flat, Identifies, Owned;
      OwnedIdentifies(signs, View(owners), done);
      SeparateIsAvailable(signs, Identities(), entities, done, id);
      Add(signs, id, entities[id], done);
    }
  }

  /** Counters that agree with the same counts are equal. */
  lemma CountsIsUnique<K(!new)>(a: map<K, nat>, b: map<K, nat>, count: K -> nat)
    requires Counts(a, count) && Counts(b, count)
    ensures a == b
  {
    forall k ensures k in a <==> k in b {
      assert k in a <==> count(k) > 0;
      assert k in b <==> count(k) > 0;
    }
  }

  /** Indexes maintained step by step are the rebuilt ones, bucket for bucket. */
  lemma EntityIndexIsUnique(signs: Signer, a: EntityIndex, b: EntityIndex, entities: Entities)
    requires a.Agrees(signs, entities) && b.Agrees(signs, entities)
    ensures View(a.kindIds) == View(b.kindIds) && a.kindCounts.mine == b.kindCounts.mine && View(a.aliases) == View(b.aliases)
    ensures View(a.fields.values) == View(b.fields.values) && a.nonScalar == b.nonScalar && a.Identities() == b.Identities()
  {
    hide Lists, Counts, Identifies, Owned, View, Seen, Sound, Flat, Sizes, ByKind, ByMerged, ByField, CompositeCount;
    OwnedIdentifies(signs, View(a.owners), entities);
    OwnedIdentifies(signs, View(b.owners), entities);
    ListsIsUnique(View(a.kindIds), View(b.kindIds), ByKind(entities));
    ListsIsUnique(View(a.aliases), View(b.aliases), ByMerged(entities));
    ListsIsUnique(View(a.fields.values), View(b.fields.values), ByField(entities));
    CountsIsUnique(a.nonScalar, b.nonScalar, CompositeCount(entities));
    IdentifiesIsUnique(signs, a.Identities(), b.Identities(), entities);
    SizesIsUnique(a.kindCounts.mine, b.kindCounts.mine, View(a.kindIds));
  }

  lemma SizesIsUnique(a: map<string, nat>, b: map<string, nat>, index: Postings<string>)
    requires Sizes(a, index) && Sizes(b, index)
    ensures a == b
  {
  }

  lemma IdentifiesIsUnique(signs: Signer, a: map<(string, string), string>, b: map<(string, string), string>, entities: Entities)
    requires Identifies(signs, a, entities) && Identifies(signs, b, entities)
    ensures a == b
  {
    forall k | k in a ensures k in b && b[k] == a[k] {
      assert entities[a[k]].kind == k.0 && k.1 in Signatures(signs, entities[a[k]]);
    }
    forall k | k in b ensures k in a {
      assert entities[b[k]].kind == k.0 && k.1 in Signatures(signs, entities[b[k]]);
    }
  }

  lemma EdgeIndexIsUnique(a: EdgeIndex, b: EdgeIndex, edges: Edges)
    requires a.Agrees(edges) && b.Agrees(edges)
    ensures a.Views() == b.Views()
  {
    ListsIsUnique(View(a.out), View(b.out), BySource(edges));
    ListsIsUnique(View(a.into), View(b.into), ByTarget(edges));
    ListsIsUnique(View(a.types), View(b.types), ByType(edges));
    ListsIsUnique(View(a.aliases), View(b.aliases), ByAlias(edges));
  }

  /** The entities of some kinds that are not still to do. */
  ghost function OfKinds(entities: Entities, kinds: set<string>, todo: set<string>): Entities {
    map id | id in entities && id !in todo && entities[id].kind in kinds :: entities[id]
  }

  lemma OfKindsStep(signs: Signer, next: map<(string, string), string>, entities: Entities, kinds: set<string>, todo: set<string>, id: string)
    requires SeparateIdentities(signs, entities) && id in entities && id !in todo && entities[id].kind in kinds
    requires Identifies(signs, next, OfKinds(entities, kinds, todo + {id}))
    ensures Identifies(signs, next + Claims(entities[id].kind, Signatures(signs, entities[id]), id), OfKinds(entities, kinds, todo))
  {
    hide Signatures;
    var e := entities[id];
    var done := OfKinds(entities, kinds, todo + {id});
    assert OfKinds(entities, kinds, todo) == done[id := e];
    assert forall k :: k in next ==> next[k] in done && done[next[k]] == entities[next[k]] && next[k] != id;
    forall s | s in Signatures(signs, e) ensures (e.kind, s) !in next {
    }
    hide OfKinds;
    ClaimFree(signs, next, done, id, e);
  }

  lemma OfKindsSkip(entities: Entities, kinds: set<string>, todo: set<string>, id: string)
    requires id in entities && entities[id].kind !in kinds
    ensures OfKinds(entities, kinds, todo) == OfKinds(entities, kinds, todo + {id})
  {
  }

  lemma NothingClaimed(signs: Signer, next: map<string, map<string, string>>, entities: Entities, kinds: set<string>)
    requires forall k :: k in next ==> next[k] == map[]
    ensures Identifies(signs, Flat(next), OfKinds(entities, kinds, entities.Keys))
  {
    assert Flat(next) == map[];
  }

  /** Signatures nobody has claimed are claimed. */
  lemma ClaimFree(signs: Signer, identities: map<(string, string), string>, entities: Entities, id: string, e: Entity)
    requires Identifies(signs, identities, entities) && id !in entities
    requires forall s :: s in Signatures(signs, e) ==> (e.kind, s) !in identities
    ensures Identifies(signs, identities + Claims(e.kind, Signatures(signs, e), id), entities[id := e])
  {
    hide Signatures;
  }

  lemma ClaimAvailable(signs: Signer, identities: map<(string, string), string>, entities: Entities, id: string, e: Entity)
    requires Identifies(signs, identities, entities) && id !in entities && e.id == id && Available(signs, identities, e)
    ensures Identifies(signs, identities + Claims(e.kind, Signatures(signs, e), id), entities[id := e])
  {
    hide Signatures;
    assert forall s :: s in Signatures(signs, e) ==> (e.kind, s) !in identities;
    ClaimFree(signs, identities, entities, id, e);
  }

  lemma UnclaimIdentifies(signs: Signer, identities: map<(string, string), string>, entities: Entities, id: string)
    requires Identifies(signs, identities, entities) && id in entities
    ensures var e := entities[id];
      Identifies(signs, identities - Claimed(identities, e.kind, Signatures(signs, e), id), entities - {id})
  {
    hide Signatures;
  }

  /** An entity in another's place with the same identities. */
  lemma SameIdentities(signs: Signer, identities: map<(string, string), string>, entities: Entities, id: string, after: Entity)
    requires Identifies(signs, identities, entities) && id in entities && entities[id].kind == after.kind
    requires Signatures(signs, entities[id]) == Signatures(signs, after)
    ensures Identifies(signs, identities, entities[id := after])
  {
    hide Signatures;
  }

  lemma NoneRenewed(before: map<string, map<string, string>>, next: map<string, map<string, string>>)
    ensures before + (next - next.Keys) == before && next - {} == next
  {
  }

  lemma OneRenewed(before: map<string, map<string, string>>, next: map<string, map<string, string>>, todo: set<string>, kind: string)
    requires kind in todo && kind in next
    ensures before + (next - (todo - {kind})) == (before + (next - todo))[kind := next[kind]]
  {
  }

  lemma RenewedFlat(before: map<string, map<string, string>>, next: map<string, map<string, string>>, kinds: set<string>)
    requires next.Keys == kinds
    ensures Flat(before + next) == (map k | k in Flat(before) && k.0 !in kinds :: Flat(before)[k]) + Flat(next)
  {
    hide Flat;
    FlatAt(before);
    FlatAt(next);
    FlatAt(before + next);
    var expected := (map k | k in Flat(before) && k.0 !in kinds :: Flat(before)[k]) + Flat(next);
    forall k: (string, string) ensures (k in Flat(before + next) <==> k in expected) && (k in expected ==> Flat(before + next)[k] == expected[k]) {
      assert OfKind(before + next, k.0) == if k.0 in kinds then OfKind(next, k.0) else OfKind(before, k.0);
    }
  }

  lemma KindsReplaced(signs: Signer, before: Signer, identities: map<(string, string), string>, next: map<string, map<string, string>>,
      after: map<(string, string), string>, entities: Entities, kinds: set<string>)
    requires Identifies(before, identities, entities) && Identifies(signs, Flat(next), OfKinds(entities, kinds, {}))
    requires after == (map k | k in identities && k.0 !in kinds :: identities[k]) + Flat(next)
    requires forall id :: id in entities && entities[id].kind !in kinds ==> Signatures(signs, entities[id]) == Signatures(before, entities[id])
    ensures Identifies(signs, after, entities)
  {
    hide Signatures, Flat;
    var some, claimed := OfKinds(entities, kinds, {}), Flat(next);
    assert forall k :: k in claimed ==> k.0 in kinds && claimed[k] in some;
    forall id, s | id in entities && s in Signatures(signs, entities[id]) ensures (entities[id].kind, s) in after && after[(entities[id].kind, s)] == id {
      if entities[id].kind in kinds {
        assert id in some && s in Signatures(signs, some[id]);
      } else {
        assert s in Signatures(before, entities[id]);
      }
    }
    forall k | k in after ensures after[k] in entities && entities[after[k]].kind == k.0 && k.1 in Signatures(signs, entities[after[k]]) {
      if k in claimed {
        assert k.1 in Signatures(signs, some[claimed[k]]);
      } else {
        assert k.1 in Signatures(before, entities[identities[k]]);
      }
    }
  }

  lemma ForkedKinds(o: Origin, next: Origin, kindIds: Buckets<string>, kindCounts: Gated<map<string, nat>>, entities: Entities)
    requires KindsAgree(o, kindIds, kindCounts, entities) && next.published.kindIds == View(kindIds) && next.published.kindCounts == kindCounts.mine
    ensures KindsAgree(next, Separated(Fork(kindIds, false)), Gated(kindCounts.mine, kindCounts.mine, next.entities), entities)
  {
    hide Lists, View, Seen, Sizes, ByKind;
    ForkHolds(kindIds, o.published.kindIds, ByKind(entities));
    ForkIsSound(kindIds, false);
    SeparatedIsSound(Fork(kindIds, false));
  }

  lemma ForkedAliases(o: Origin, next: Origin, aliases: Buckets<string>, entities: Entities)
    requires AliasesAgree(o, aliases, entities) && next.published.aliases == View(aliases)
    ensures AliasesAgree(next, Separated(Fork(aliases, false)), entities)
  {
    ForkHolds(aliases, o.published.aliases, ByMerged(entities));
  }

  lemma ForkedFields(o: Origin, next: Origin, fields: FieldBuckets, nonScalar: map<(string, string), nat>, entities: Entities)
    requires FieldsAgree(o, fields, nonScalar, entities) && next.published.fields == View(fields.values)
    ensures FieldsAgree(next, ForkFields(fields, next.entities), nonScalar, entities)
  {
    hide Lists, View, Seen, ByField, Counts, CompositeCount;
    ForkIsSound(fields.values, next.entities);
  }

  lemma ForkedIdentities(o: Origin, next: Origin, signs: Signer, owners: OwnerBuckets, entities: Entities)
    requires IdentitiesAgree(o, signs, owners, entities) && next.published.identities == View(owners)
    ensures IdentitiesAgree(next, signs, Fork(owners, next.identities), entities)
  {
    hide View, Seen, Owned;
    ForkIsSound(owners, next.identities);
  }

  /** Posting a scalar value of a field. */
  lemma PostFieldHolds(o: Origin, fields: FieldBuckets, before: Entities, after: Entities, kind: string, field: string, key: string, id: string)
    requires HoldsFields(o, fields, ByField(before)) && o.entities
    requires forall k, x :: ByField(after)(k, x) <==> (ByField(before)(k, x) || (k == (kind, field, key) && x == id))
    ensures HoldsFields(o, PostField(fields, kind, field, key, id), ByField(after))
  {
    hide Sound, Lists, View, Seen, PostField, ByField;
    PostFieldIs(fields, kind, field, key, id);
    PostedLists(View(fields.values), ByField(before), (kind, field, key), id, ByField(after));
  }

  lemma UnpostFieldHolds(o: Origin, fields: FieldBuckets, before: Entities, after: Entities, kind: string, field: string, key: string, id: string)
    requires HoldsFields(o, fields, ByField(before)) && o.entities
    requires forall k, x :: ByField(before)(k, x) <==> (ByField(after)(k, x) || (k == (kind, field, key) && x == id))
    requires !ByField(after)((kind, field, key), id)
    ensures HoldsFields(o, UnpostField(fields, kind, field, key, id), ByField(after))
  {
    hide Sound, Lists, View, Seen, UnpostField, ByField;
    UnpostFieldIs(fields, kind, field, key, id);
    UnpostedLists(View(fields.values), ByField(before), (kind, field, key), id, ByField(after));
  }

  lemma NotPosted(entities: Entities, id: string, field: string)
    requires id in entities && field !in entities[id].fields
    ensures forall kind, key :: !ByField(entities)((kind, field, key), id)
  {
  }

  ghost predicate Filled(entities: Entities, todo: set<string>, done: Entities) {
    && todo !! done.Keys
    && todo + done.Keys == entities.Keys
    && forall i :: i in done ==> i in entities && done[i] == entities[i]
  }

  lemma FilledStep(entities: Entities, todo: set<string>, done: Entities, id: string)
    requires Filled(entities, todo, done) && id in todo
    ensures id in entities && id !in done && Filled(entities, todo - {id}, done[id := entities[id]])
  {
  }

  lemma FilledAll(entities: Entities, done: Entities)
    requires Filled(entities, {}, done)
    ensures done == entities
  {
  }

  lemma SeparateIsAvailable(signs: Signer, identities: map<(string, string), string>, entities: Entities, done: Entities, id: string)
    requires SeparateIdentities(signs, entities) && EntitiesKeyed(entities) && id in entities && id !in done
    requires Identifies(signs, identities, done) && forall i :: i in done ==> i in entities && done[i] == entities[i]
    ensures Available(signs, identities, entities[id])
  {
  }

  lemma IdentifiesSeparates(signs: Signer, identities: map<(string, string), string>, entities: Entities)
    requires Identifies(signs, identities, entities)
    ensures SeparateIdentities(signs, entities)
  {
  }

  lemma KindAdded(o: Origin, kindIds: Buckets<string>, kindCounts: Gated<map<string, nat>>, entities: Entities, id: string, e: Entity)
    requires KindsAgree(o, kindIds, kindCounts, entities) && o.entities && id !in entities
    ensures KindsAgree(o, Post(kindIds, e.kind, id), Put(kindCounts, Bumped(kindCounts.mine, e.kind, true)), entities[id := e])
  {
    assert id in At(View(kindIds), e.kind) <==> ByKind(entities)(e.kind, id);
    hide View, Sound, Seen, Post, Lists, ByKind, Posted, Bumped, Sizes;
    PostIs(kindIds, e.kind, id);
    PostedSizes(kindCounts.mine, View(kindIds), e.kind, id);
    AddedKind(entities, id, e);
    PostHolds(kindIds, o.published.kindIds, ByKind(entities), e.kind, id, ByKind(entities[id := e]));
  }

  lemma AddedKind(entities: Entities, id: string, e: Entity)
    requires id !in entities
    ensures var after := entities[id := e]; forall k, x :: ByKind(after)(k, x) <==> (ByKind(entities)(k, x) || (k == e.kind && x == id))
  {
  }

  lemma PostedSizes(counts: map<string, nat>, index: Postings<string>, key: string, id: string)
    requires Sizes(counts, index) && id !in At(index, key)
    ensures Sizes(Bumped(counts, key, true), Posted(index, key, id))
  {
  }

  lemma KindRemoved(o: Origin, kindIds: Buckets<string>, kindCounts: Gated<map<string, nat>>, entities: Entities, id: string, e: Entity)
    requires KindsAgree(o, kindIds, kindCounts, entities) && o.entities && id in entities && entities[id].kind == e.kind
    ensures KindsAgree(o, Unpost(kindIds, e.kind, id), Put(kindCounts, Bumped(kindCounts.mine, e.kind, false)), entities - {id})
  {
    assert id in At(View(kindIds), e.kind) <==> ByKind(entities)(e.kind, id);
    hide View, Sound, Seen, Unpost, Lists, ByKind, Unposted, Bumped, Sizes;
    UnpostIs(kindIds, e.kind, id);
    UnpostedSizes(kindCounts.mine, View(kindIds), e.kind, id);
    RemovedKind(entities, id);
    UnpostHolds(kindIds, o.published.kindIds, ByKind(entities), e.kind, id, ByKind(entities - {id}));
  }

  lemma RemovedKind(entities: Entities, id: string)
    requires id in entities
    ensures var after := entities - {id}; forall k, x :: ByKind(after)(k, x) <==> (ByKind(entities)(k, x) && !(k == entities[id].kind && x == id))
  {
  }

  lemma UnpostedSizes(counts: map<string, nat>, index: Postings<string>, key: string, id: string)
    requires Sizes(counts, index) && id in At(index, key)
    ensures Sizes(Bumped(counts, key, false), Unposted(index, key, id))
  {
    assert |At(index, key) - {id}| == |At(index, key)| - 1;
    assert At(index, key) - {id} == {} <==> |At(index, key)| <= 1;
  }

  lemma KindKept(o: Origin, kindIds: Buckets<string>, kindCounts: Gated<map<string, nat>>, entities: Entities, id: string, after: Entity)
    requires KindsAgree(o, kindIds, kindCounts, entities) && id in entities && entities[id].kind == after.kind
    ensures KindsAgree(o, kindIds, kindCounts, entities[id := after])
  {
    hide Holds;
    SameHolds(kindIds, o.published.kindIds, ByKind(entities), ByKind(entities[id := after]));
  }

  /** Removing an entity's own identities cannot make its new ones unavailable. */
  lemma StaysAvailable(signs: Signer, before: map<(string, string), string>, after: map<(string, string), string>, entities: Entities, id: string, e: Entity)
    requires Identifies(signs, before, entities) && Identifies(signs, after, entities - {id}) && e.id == id && Available(signs, before, e)
    ensures Available(signs, after, e)
  {
    forall s | s in Signatures(signs, e) && (e.kind, s) in after ensures after[(e.kind, s)] == e.id {
      var owner := after[(e.kind, s)];
      assert owner in entities - {id};
      assert before[(e.kind, s)] == owner;
    }
  }

  /** The fields present on both sides in one class, with the values of `from`. */
  function Steady(before: map<string, Value>, after: map<string, Value>, from: map<string, Value>): map<string, Value>
    requires from == before || from == after
  {
    map f | f in before && f in after && SameClass(before[f], after[f]) :: from[f]
  }

  ghost function PlusAliases(holds: (string, string) -> bool, id: string, values: seq<string>): (string, string) -> bool {
    (k, x) => holds(k, x) || (x == id && k != "" && k in values)
  }

  ghost function MinusAliases(holds: (string, string) -> bool, id: string, values: seq<string>): (string, string) -> bool {
    (k, x) => holds(k, x) && !(x == id && k != "" && k in values)
  }

  /** What the counters must become when a field is set. */
  function Adjusted(nonScalar: map<(string, string), nat>, kind: string, field: string, value: Value, up: bool): map<(string, string), nat> {
    if value.Composite? then Bumped(Bumped(nonScalar, (kind, field), up), ("", field), up) else nonScalar
  }

  lemma CountsFollow(nonScalar: map<(string, string), nat>, entities: Entities, id: string, field: string, value: Value)
    requires id in entities && entities[id].kind != "" && field !in entities[id].fields
    requires Counts(nonScalar, CompositeCount(entities))
    ensures Counts(Adjusted(nonScalar, entities[id].kind, field, value, true), CompositeCount(WithField(entities, id, field, value)))
  {
    hide CompositeHolders, WithField, Bumped;
    var kind := entities[id].kind;
    var before, after := CompositeCount(entities), CompositeCount(WithField(entities, id, field, value));
    forall k: (string, string) ensures after(k) == before(k) + if value.Composite? && k.1 == field && (k.0 == "" || k.0 == kind) then 1 else 0 {
      FieldCounts(entities, id, field, value, k.0, k.1);
    }
    if value.Composite? {
      var middle := (k: (string, string)) => if k == (kind, field) then after(k) else before(k);
      BumpedCounts(nonScalar, before, (kind, field), true, middle);
      BumpedCounts(Bumped(nonScalar, (kind, field), true), middle, ("", field), true, after);
    } else {
      forall k: (string, string) ensures (k in nonScalar <==> after(k) > 0) && (k in nonScalar ==> nonScalar[k] == after(k)) {
        assert k in nonScalar <==> before(k) > 0;
      }
    }
  }

  lemma CountsReturn(nonScalar: map<(string, string), nat>, entities: Entities, id: string, field: string, value: Value)
    requires id in entities && entities[id].kind != "" && field !in entities[id].fields
    requires Counts(nonScalar, CompositeCount(WithField(entities, id, field, value)))
    ensures Counts(Adjusted(nonScalar, entities[id].kind, field, value, false), CompositeCount(entities))
  {
    hide CompositeHolders, WithField, Bumped;
    var kind := entities[id].kind;
    var before, after := CompositeCount(entities), CompositeCount(WithField(entities, id, field, value));
    forall k: (string, string) ensures after(k) == before(k) + if value.Composite? && k.1 == field && (k.0 == "" || k.0 == kind) then 1 else 0 {
      FieldCounts(entities, id, field, value, k.0, k.1);
    }
    if value.Composite? {
      var middle := (k: (string, string)) => if k == (kind, field) then before(k) else after(k);
      BumpedCounts(nonScalar, after, (kind, field), false, middle);
      BumpedCounts(Bumped(nonScalar, (kind, field), false), middle, ("", field), false, before);
    } else {
      forall k: (string, string) ensures (k in nonScalar <==> before(k) > 0) && (k in nonScalar ==> nonScalar[k] == before(k)) {
        assert k in nonScalar <==> after(k) > 0;
      }
    }
  }
}
