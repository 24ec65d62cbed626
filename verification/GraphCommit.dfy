/** One commit against a private copy of a graph: every mutation kind, the indexes and the fingerprint
    it keeps up to date on the way, and the local checks it makes (internal/graph/apply.go, merge.go,
    merge_edges.go, split.go, entity_delete.go, relation_mutation.go, entity_stale.go, edge_delete.go).
    Each method computes what GraphReference.dfy says by scanning. */
module GraphCommits {
  import opened GraphImpacts
  import opened GraphModel
  import opened CopyOnWrites
  import opened GraphIndexes
  import opened Fingerprints
  import opened UniqueFields
  import opened GraphReference
  import opened HashCaches
  import opened GraphConsistency
  import opened CommitSteps
  import opened SchemaChanges
  import opened Schemas
  import opened StringOrder

  class Graph {
    const base: Base
    // What the copy was made for: the kinds and relation types of a copy are maps of its own only under
    // their flags.
    const impact: Impact
    const edgeIndex: EdgeIndex
    const entityIndex: EntityIndex
    var types: Types
    // What the kinds make of the given functions.
    var rules: Rules
    var entities: Entities
    var edges: Edges
    var relations: RelationTypes
    var fingerprint: Digest
    // The logical hash cache, once a content hash was asked for.
    var cache: Option<LogicalCache>
    ghost const publishedBlocks: CacheView
    // The tracker of the commit being applied.
    var tracker: Tracker
    ghost var start: State
    // Replacements of splits that were stored under an identity the tracker had not captured.
    ghost var missed: Entities

    /** An empty graph with its relation types. */
    constructor (base: Base, relations: RelationTypes)
      ensures this.base == base && impact == EVERYTHING && cache.None? && Whole() == State(map[], Store(map[], map[], relations))
      ensures Sane() && fresh(edgeIndex) && fresh(entityIndex)
    {
      hide EdgeIndex.Agrees, EntityIndex.Agrees, Under;
      this.base, impact, this.relations, types, rules := base, EVERYTHING, relations, map[], Under(base, map[]);
      entities, edges, fingerprint := map[], map[], ZERO;
      tracker, start, missed := UNTOUCHED, State(map[], Store(map[], map[], relations)), map[];
      cache, publishedBlocks := None, NO_BLOCKS;
      edgeIndex := new EdgeIndex();
      entityIndex := new EntityIndex(Under(base, map[]).signs);
    }

    /** cloneForStorageImpact: a private copy that shares index buckets with its source and may take commits
        of the given impact. */
    constructor Copy(source: Graph, impact: Impact)
      requires source.Sane()
      ensures base == source.base && this.impact == impact && Whole() == source.Whole() && fingerprint == source.fingerprint
      ensures Sane() && fresh(edgeIndex) && fresh(entityIndex)
      ensures edgeIndex.published == source.edgeIndex.Views() && entityIndex.origin.published == source.entityIndex.Views()
      ensures publishedBlocks == source.BlockViews() && (source.Cached() ==> Cached())
    {
      hide Coherent, CacheOf, CacheFor, CacheViews, ShareCache, EdgeIndex.Agrees, EntityIndex.Agrees, EdgesKeyed, EntitiesKeyed, Under, EdgeIndex.Views, EntityIndex.Views, Captured, Tracks;
      source.SharedIsCached();
      source.CoherentShows();
      base, this.impact, types, rules := source.base, impact, source.types, source.rules;
      entities, edges, relations, fingerprint := source.entities, source.edges, source.relations, source.fingerprint;
      tracker, start, missed := UNTOUCHED, source.Whole(), map[];
      cache := if source.cache.Some? then Some(ShareCache(source.cache.value)) else None;
      publishedBlocks := source.BlockViews();
      edgeIndex := new EdgeIndex.Copy(source.edgeIndex, source.edges);
      entityIndex := new EntityIndex.Copy(source.entityIndex, impact.entities, impact.entities || impact.types, source.rules.signs, source.entities);
      new;
      AsSource(source);
    }

    /** A graph with the state of another is as sane. */
    lemma AsSource(source: Graph)
      requires source.Coherent() && base == source.base && types == source.types && rules == source.rules && Whole() == source.Whole()
      requires edgeIndex.Agrees(edges) && tracker == UNTOUCHED && start == Whole() && missed == map[]
      ensures Coherent()
    {
      hide EdgeIndex.Agrees, EdgesKeyed, EntitiesKeyed, Under, Follows;
      NothingTracked();
    }

    ghost function Content(): Store
      reads this
    {
      Store(entities, edges, relations)
    }

    ghost function Whole(): State
      reads this
    {
      State(types, Content())
    }

    /** The cache, if there is one, is that of a fresh build, and the blocks it shares are as they were. */
    ghost predicate Cached()
      reads this
    {
      if cache.Some? then CacheOf(base, cache.value, publishedBlocks, Whole()) else publishedBlocks == NO_BLOCKS
    }

    ghost function BlockViews(): CacheView
      reads this
    {
      if cache.Some? then CacheViews(cache.value) else NO_BLOCKS
    }

    /** Readers of the published graph find its blocks as they were. */
    ghost predicate BlocksIsolated()
      reads this
    {
      cache.Some? ==> SeenBlocks(cache.value) == publishedBlocks
    }

    lemma SharedIsCached()
      ensures cache.Some? && Cached() ==> CacheOf(base, ShareCache(cache.value), CacheViews(cache.value), Whole())
    {
      if cache.Some? && Cached() {
        SharedCacheFor(base.logical, cache.value, publishedBlocks, types, entities, relations, edges);
      }
    }

    /** The edge side is indexed, keys are identities and the tracker has captured every change, as though
        the replacements it missed had been there from the start. */
    ghost predicate Coherent()
      reads this, edgeIndex
    {
      rules == Under(base, types) && Followed()
    }

    ghost predicate Followed()
      reads this, edgeIndex
    {
      && edgeIndex.Agrees(edges)
      && EdgesKeyed(rules.canonical, edges)
      && EntitiesKeyed(entities)
      && missed.Keys !! start.store.entities.Keys
      && Follows(base, tracker, Assumed(start, missed), Whole())
    }

    ghost predicate Sane()
      reads this, edgeIndex, entityIndex
    {
      Coherent() && entityIndex.Agrees(rules.signs, entities) && Linked()
    }

    /** The index may write what the commits the graph was copied for may change. */
    ghost predicate Linked() {
      entityIndex.origin.entities == impact.entities && entityIndex.origin.identities == (impact.entities || impact.types)
    }

    /** Readers of the published graph find its indexes as they were. */
    ghost predicate Isolated()
      reads edgeIndex, entityIndex
    {
      edgeIndex.Isolated() && entityIndex.Isolated()
    }

    lemma NothingTracked()
      ensures Follows(base, UNTOUCHED, Assumed(Whole(), map[]), Whole())
    {
      assert entities + map[] == entities;
    }

    lemma CoherentShows()
      requires Coherent()
      ensures edgeIndex.Agrees(edges) && EdgesKeyed(rules.canonical, edges) && EntitiesKeyed(entities)
    {
    }

    lemma CoherentGives()
      requires Followed()
      ensures edgeIndex.Agrees(edges) && EdgesKeyed(rules.canonical, edges) && EntitiesKeyed(entities)
    {
    }

    lemma EdgesIsolate()
      requires Followed()
      ensures edgeIndex.Isolated()
    {
      edgeIndex.AgreesIsolates(edges);
    }

    lemma GraphIsolates()
      requires Sane()
      ensures Isolated()
    {
      hide EdgeIndex.Isolated, EntityIndex.Isolated;
      EdgesIsolate();
      SaneIsolates();
    }

    lemma SaneIsolates()
      requires entityIndex.Agrees(rules.signs, entities)
      ensures entityIndex.Isolated()
    {
      entityIndex.AgreesIsolates(rules.signs, entities);
    }

    /** An entity and its edges are captured. */
    ghost predicate Touched(id: string)
      reads this
    {
      id in tracker.entities && Incidents(edges, id) <= tracker.edges.Keys
    }

    // ---------- primitive changes ----------

    method TouchEdge(id: string)
      requires Coherent()
      modifies this`tracker
      ensures Coherent() && tracker == old(tracker).(edges := Touch(base.edgeHash, old(tracker).edges, edges, id))
    {
      hide EdgeIndex.Agrees, EdgesKeyed, EntitiesKeyed, Follows, Under, Touch;
      TouchFollows(base, tracker, Assumed(start, missed), Whole(), id);
      tracker := tracker.(edges := Touch(base.edgeHash, tracker.edges, edges, id));
    }

    method TouchEntity(id: string)
      requires Coherent()
      modifies this`tracker
      ensures Coherent() && tracker == old(tracker).(entities := Touch(base.entityHash, old(tracker).entities, entities, id))
    {
      hide EdgeIndex.Agrees, EdgesKeyed, EntitiesKeyed, Follows, Under, Touch;
      TouchFollows(base, tracker, Assumed(start, missed), Whole(), id);
      tracker := tracker.(entities := Touch(base.entityHash, tracker.entities, entities, id));
    }

    method TouchRelation(name: string)
      requires Coherent()
      modifies this`tracker
      ensures Coherent() && tracker == old(tracker).(relations := Touch(base.relationHash, old(tracker).relations, relations, name))
    {
      hide EdgeIndex.Agrees, EdgesKeyed, EntitiesKeyed, Follows, Under, Touch;
      TouchFollows(base, tracker, Assumed(start, missed), Whole(), name);
      tracker := tracker.(relations := Touch(base.relationHash, tracker.relations, relations, name));
    }

    method DropEdge(id: string)
      requires Coherent() && id in edges && id in tracker.edges
      modifies this`edges, edgeIndex
      ensures Coherent() && edges == old(edges) - {id}
    {
      hide EdgeIndex.Agrees, EntitiesKeyed, Follows;
      EdgeFollows(base, tracker, Assumed(start, missed), Whole(), edges - {id}, id);
      edgeIndex.Remove(id, edges[id], edges);
      edges := edges - {id};
    }

    method PutEdge(e: Edge)
      requires Coherent() && e.id !in edges && e.id == CanonicalId(rules, e) && e.id in tracker.edges
      modifies this`edges, edgeIndex
      ensures Coherent() && edges == old(edges)[e.id := e]
    {
      hide EdgeIndex.Agrees, EntitiesKeyed, Follows;
      EdgeFollows(base, tracker, Assumed(start, missed), Whole(), edges[e.id := e], e.id);
      edgeIndex.Add(e.id, e, edges);
      edges := edges[e.id := e];
    }

    /** Take an entity out of the store; its index entries are the caller's. */
    method DropEntity(id: string)
      requires Coherent() && id in tracker.entities
      modifies this`entities
      ensures Coherent() && entities == old(entities) - {id}
    {
      hide EdgeIndex.Agrees, EdgesKeyed, Follows;
      EntityFollows(base, tracker, Assumed(start, missed), Whole(), entities - {id}, id);
      entities := entities - {id};
    }

    method PutEntity(e: Entity)
      requires Coherent() && e.id != "" && e.kind != "" && e.id in tracker.entities
      modifies this`entities
      ensures Coherent() && entities == old(entities)[e.id := e]
    {
      hide EdgeIndex.Agrees, EdgesKeyed, Follows;
      EntityFollows(base, tracker, Assumed(start, missed), Whole(), entities[e.id := e], e.id);
      entities := entities[e.id := e];
    }

    method PutMissed(e: Entity)
      requires Coherent() && e.id != "" && e.kind != "" && e.id !in entities && e.id !in tracker.entities
      modifies this`entities, this`missed
      ensures Coherent() && entities == old(entities)[e.id := e] && missed == old(missed)[e.id := e]
    {
      hide EdgeIndex.Agrees, EdgesKeyed, Follows, Under, Assumed;
      MissFollows(base, tracker, start, missed, Whole(), e);
      missed := missed[e.id := e];
      entities := entities[e.id := e];
    }

    /** Store a new entity whether or not its identity was captured. */
    method PutNewEntity(e: Entity)
      requires Coherent() && e.id != "" && e.kind != "" && e.id !in entities
      modifies this`entities, this`missed
      ensures Coherent() && entities == old(entities)[e.id := e]
      ensures missed == if e.id in tracker.entities then old(missed) else old(missed)[e.id := e]
    {
      hide Followed, Under;
      if e.id in tracker.entities {
        PutEntity(e);
      } else {
        PutMissed(e);
      }
    }

    /** incidentEdgeIDs: the edges at an entity, from the adjacency indexes. */
    method IncidentEdges(entity: string) returns (ids: seq<string>)
      requires edgeIndex.Agrees(edges)
      ensures ids == Sorted(Incidents(edges, entity))
    {
      hide EdgeIndex.Agrees, View, At;
      edgeIndex.Reads(edges, entity);
      var found := At(View(edgeIndex.out), entity) + At(View(edgeIndex.into), entity);
      assert found == Incidents(edges, entity);
      ids := SortSet(found);
    }

    method TouchEdges(ids: seq<string>)
      requires Coherent()
      modifies this`tracker
      ensures Coherent() && tracker.entities == old(tracker).entities && tracker.relations == old(tracker).relations
      ensures forall x :: x in tracker.edges <==> x in old(tracker).edges || x in ids
    {
      hide Coherent;
      for i := 0 to |ids|
        invariant Coherent() && tracker.entities == old(tracker).entities && tracker.relations == old(tracker).relations
        invariant forall x :: x in tracker.edges <==> x in old(tracker).edges || x in ids[..i]
      {
        TouchEdge(ids[i]);
      }
    }

    /** touchEntityWithEdges. */
    method TouchEntityWithEdges(id: string)
      requires Coherent()
      modifies this`tracker
      ensures Coherent() && Touched(id)
      ensures tracker.entities.Keys == old(tracker).entities.Keys + {id} && old(tracker).edges.Keys <= tracker.edges.Keys
    {
      hide Followed, Under;
      CoherentGives();
      TouchEntity(id);
      var ids := IncidentEdges(id);
      TouchEdges(ids);
    }

    method DropEdges(ids: seq<string>)
      requires Coherent() && Among(ids) * edges.Keys <= tracker.edges.Keys
      modifies this`edges, edgeIndex
      ensures Coherent() && edges == old(edges) - Among(ids)
    {
      hide Coherent;
      for i := 0 to |ids|
        invariant Coherent() && edges == old(edges) - Among(ids[..i])
      {
        assert ids[i] in Among(ids);
        if ids[i] in edges {
          DropEdge(ids[i]);
        }
        assert Among(ids[..i + 1]) == Among(ids[..i]) + {ids[i]};
      }
      assert ids[..|ids|] == ids;
    }

    // ---------- deletes ----------

    /** resolveEdgeReference. */
    method LookupEdge(ref: string) returns (found: Found)
      requires edgeIndex.Agrees(edges)
      ensures found == ResolveEdge(edges, ref) && (found.One? ==> found.id in edges)
    {
      hide EdgeIndex.Agrees, View, At, Single;
      edgeIndex.Reads(edges, ref);
      if ref in edges {
        return One(ref);
      }
      var matches := At(View(edgeIndex.aliases), ref);
      assert matches == set id | id in edges && ref in edges[id].aliases;
      SingleIsStored(matches);
      found := OnlyOne(matches);
    }

    method DeleteEdgeByName(ref: string) returns (ok: bool)
      requires Coherent()
      modifies this`edges, this`tracker, edgeIndex
      ensures ok <==> DeleteEdge(old(Content()), ref).Some?
      ensures Coherent() && (ok ==> Content() == DeleteEdge(old(Content()), ref).value)
    {
      hide Followed, ResolveEdge, EdgeIndex.Agrees, Under, Captured;
      CoherentGives();
      if ref == "" {
        return false;
      }
      var found := LookupEdge(ref);
      match found
      case Ambiguous => return false;
      case Missing =>
        TouchEdge(ref);
        return true;
      case One(id) =>
        TouchEdge(id);
        DropEdge(id);
        return true;
    }

    method DeleteEdges(refs: seq<string>) returns (ok: bool)
      requires Coherent()
      modifies this`edges, this`tracker, edgeIndex
      ensures ok <==> Each(DeleteEdge, old(Content()), refs).Some?
      ensures Coherent() && (ok ==> Content() == Each(DeleteEdge, old(Content()), refs).value)
    {
      hide Coherent, DeleteEdge;
      ghost var before := Content();
      for i := 0 to |refs|
        invariant Coherent()
        invariant Each(DeleteEdge, before, refs[..i]) == Some(Content())
      {
        EachStep(DeleteEdge, before, refs, i);
        ok := DeleteEdgeByName(refs[i]);
        if !ok {
          return;
        }
      }
      assert refs[..|refs|] == refs;
      ok := true;
    }

    /** The owner of an edge or a better one may delete it. */
    method DeleteEdgeRanked(id: string, rank: int)
      requires Coherent()
      modifies this`edges, this`tracker, edgeIndex
      ensures Coherent() && Content() == DeleteRanked(old(Content()), id, rank)
    {
      hide Coherent;
      if id in edges {
        TouchEdge(id);
        if rank >= edges[id].rank {
          DropEdge(id);
        }
      }
    }

    method DeleteEdgeRequested(r: EdgeDelete) returns (ok: bool)
      requires Coherent()
      modifies this`edges, this`tracker, edgeIndex
      ensures ok <==> DeleteEdgeRequest(rules, old(Content()), r).Some?
      ensures Coherent() && (ok ==> Content() == DeleteEdgeRequest(rules, old(Content()), r).value)
    {
      match r
      case ByEndpoints(typ, source, target, rank) =>
        if typ == "" || source == "" || target == "" {
          return false;
        }
        DeleteEdgeRanked(rules.canonical(typ, source, target), rank);
        return true;
      case ByReference(id, rank) =>
        if id == "" {
          return false;
        }
        var found := LookupEdge(id);
        match found {
          case Ambiguous => return false;
          case Missing => return true;
          case One(id) =>
            DeleteEdgeRanked(id, rank);
            return true;
        }
    }

    method DeleteEdgeRequests(requests: seq<EdgeDelete>) returns (ok: bool)
      requires Coherent()
      modifies this`edges, this`tracker, edgeIndex
      ensures ok <==> Each(DeletingEdge(rules), old(Content()), requests).Some?
      ensures Coherent() && (ok ==> Content() == Each(DeletingEdge(rules), old(Content()), requests).value)
    {
      hide Coherent, DeleteEdgeRequest;
      ghost var before := Content();
      for i := 0 to |requests|
        invariant Coherent()
        invariant Each(DeletingEdge(rules), before, requests[..i]) == Some(Content())
      {
        EachStep(DeletingEdge(rules), before, requests, i);
        ok := DeleteEdgeRequested(requests[i]);
        if !ok {
          return;
        }
      }
      assert requests[..|requests|] == requests;
      ok := true;
    }

    /** ResolveEntityReference. */
    method LookupEntity(ref: string) returns (found: Found)
      requires entityIndex.Agrees(rules.signs, entities)
      ensures found == ResolveReference(entities, ref) && (found.One? ==> found.id in entities)
    {
      hide EntityIndex.Agrees, View, At, Single;
      entityIndex.Reads(rules.signs, entities, ref);
      if ref == "" {
        return Missing;
      }
      if ref in entities {
        return One(ref);
      }
      var matches := At(View(entityIndex.aliases), ref);
      assert matches == set id | id in entities && ref in entities[id].mergedFrom;
      SingleIsStored(matches);
      found := OnlyOne(matches);
      if found.Ambiguous? {
        found := Missing;
      }
    }

    /** The entity a source identity belongs to, by the identity index. */
    method LookupOwner(kind: string, signature: string) returns (found: Found)
      requires entityIndex.Agrees(rules.signs, entities)
      ensures found == Single(Owners(rules.signs, entities, kind, signature))
    {
      hide EntityIndex.Agrees, Identifies, Single, Flat, View;
      entityIndex.Gives(rules.signs, entities);
      MatchesAre(rules.signs, entityIndex.Identities(), entities, kind, signature);
      if (kind, signature) in entityIndex.Identities() {
        var id := entityIndex.Identities()[(kind, signature)];
        SingleIs(Owners(rules.signs, entities, kind, signature), id);
        return One(id);
      }
      assert Owners(rules.signs, entities, kind, signature) == {};
      EmptySingle();
      found := Missing;
    }

    /** Take an entity out of the store and its indexes; its edges are the caller's. */
    method TakeEntity(id: string)
      requires entityIndex.Writes() && Sane() && id in entities && id in tracker.entities
      modifies this`entities, entityIndex
      ensures Sane() && entities == old(entities) - {id}
    {
      hide EntityIndex.Agrees, EdgeIndex.Agrees, EdgesKeyed, Follows;
      entityIndex.Remove(rules.signs, id, entities[id], entities);
      DropEntity(id);
    }

    method DropIncident(id: string)
      requires Coherent() && Incidents(edges, id) <= tracker.edges.Keys
      modifies this`edges, edgeIndex
      ensures Coherent() && edges == Detached(old(edges), {id})
    {
      var ids := IncidentEdges(id);
      hide Coherent, SortedAs, Among, Incidents, Detached;
      AmongSorted(Incidents(edges, id));
      IncidentsDetach(edges, id);
      DropEdges(ids);
    }

    /** deleteEntityForce. */
    method RemoveEntity(id: string)
      requires entityIndex.Writes() && Sane() && id in entities && Touched(id)
      modifies this`entities, this`edges, edgeIndex, entityIndex
      ensures Sane() && Content() == WithoutEntity(old(Content()), id)
    {
      hide Coherent, EntityIndex.Agrees;
      TakeEntity(id);
      DropIncident(id);
    }

    /** touchEntityWithEdges and deleteEntityForce. */
    method TouchAndRemove(id: string)
      requires entityIndex.Writes() && Sane() && id in entities
      modifies this`entities, this`edges, this`tracker, edgeIndex, entityIndex
      ensures Sane() && Content() == WithoutEntity(old(Content()), id)
    {
      hide Coherent, EntityIndex.Agrees, EdgeIndex.Agrees, Touched, WithoutEntity;
      TouchEntityWithEdges(id);
      RemoveEntity(id);
    }

    method DeleteEntityByName(ref: string) returns (ok: bool)
      requires entityIndex.Writes() && Sane()
      modifies this`entities, this`edges, this`tracker, edgeIndex, entityIndex
      ensures ok <==> DeleteEntity(old(Content()), ref).Some?
      ensures Sane() && (ok ==> Content() == DeleteEntity(old(Content()), ref).value)
    {
      hide Coherent, EntityIndex.Agrees, EdgeIndex.Agrees, WithoutEntity, Single;
      if ref == "" {
        return false;
      }
      var found := LookupEntity(ref);
      if found.One? {
        TouchAndRemove(found.id);
      }
      ok := true;
    }

    method DeleteEntities(refs: seq<string>) returns (ok: bool)
      requires (|refs| > 0 ==> entityIndex.Writes()) && Sane()
      modifies this`entities, this`edges, this`tracker, edgeIndex, entityIndex
      ensures ok <==> Each(DeleteEntity, old(Content()), refs).Some?
      ensures Sane() && (ok ==> Content() == Each(DeleteEntity, old(Content()), refs).value)
    {
      hide Sane, DeleteEntity;
      ghost var before := Content();
      for i := 0 to |refs|
        invariant Sane()
        invariant Each(DeleteEntity, before, refs[..i]) == Some(Content())
      {
        EachStep(DeleteEntity, before, refs, i);
        ok := DeleteEntityByName(refs[i]);
        if !ok {
          return;
        }
      }
      assert refs[..|refs|] == refs;
      ok := true;
    }

    /** resolveEntityDeleteRequest; the request is rejected when it names nothing. */
    method LookupRequested(r: EntityDelete) returns (found: Found)
      requires entityIndex.Agrees(rules.signs, entities)
      ensures found == match r
        case ByEntity(id, _) => if id == "" then Ambiguous else ResolveReference(entities, id)
        case ByIdentity(kind, signature, _) => if kind == "" || signature == "" then Ambiguous else Single(Owners(rules.signs, entities, kind, signature))
    {
      hide EntityIndex.Agrees;
      match r
      case ByEntity(id, _) =>
        if id == "" {
          return Ambiguous;
        }
        found := LookupEntity(id);
      case ByIdentity(kind, signature, _) =>
        if kind == "" || signature == "" {
          return Ambiguous;
        }
        found := LookupOwner(kind, signature);
    }

    method DeleteEntityRequested(r: EntityDelete) returns (ok: bool)
      requires entityIndex.Writes() && Sane()
      modifies this`entities, this`edges, this`tracker, edgeIndex, entityIndex
      ensures ok <==> DeleteEntityRequest(rules, old(Content()), r).Some?
      ensures Sane() && (ok ==> Content() == DeleteEntityRequest(rules, old(Content()), r).value)
    {
      hide Coherent, EntityIndex.Agrees, EdgeIndex.Agrees, Owners, ResolveReference, Single;
      var found := LookupRequested(r);
      match found
      case Ambiguous => return false;
      case Missing => return true;
      case One(id) =>
        if id in entities && r.rank >= entities[id].rank {
          TouchAndRemove(id);
        }
        return true;
    }

    method DeleteEntityRequests(requests: seq<EntityDelete>) returns (ok: bool)
      requires (|requests| > 0 ==> entityIndex.Writes()) && Sane()
      modifies this`entities, this`edges, this`tracker, edgeIndex, entityIndex
      ensures ok <==> Each(DeletingEntity(rules), old(Content()), requests).Some?
      ensures Sane() && (ok ==> Content() == Each(DeletingEntity(rules), old(Content()), requests).value)
    {
      hide Sane, DeleteEntityRequest;
      ghost var before := Content();
      for i := 0 to |requests|
        invariant Sane()
        invariant Each(DeletingEntity(rules), before, requests[..i]) == Some(Content())
      {
        EachStep(DeletingEntity(rules), before, requests, i);
        ok := DeleteEntityRequested(requests[i]);
        if !ok {
          return;
        }
      }
      assert requests[..|requests|] == requests;
      ok := true;
    }

    method Deletes(m: Mutations) returns (ok: bool)
      requires (|m.deleteEntityRequests| > 0 || |m.deleteEntities| > 0 ==> entityIndex.Writes()) && Sane()
      modifies this`entities, this`edges, this`tracker, edgeIndex, entityIndex
      ensures ok <==> DeleteStages(rules, old(Content()), m).Some?
      ensures Sane() && (ok ==> Content() == DeleteStages(rules, old(Content()), m).value)
    {
      hide Coherent, EntityIndex.Agrees, EdgeIndex.Agrees, Each;
      ok := DeleteEdges(m.deleteEdges);
      if ok {
        ok := DeleteEdgeRequests(m.deleteEdgeRequests);
      }
      if ok {
        ok := DeleteEntityRequests(m.deleteEntityRequests);
      }
      if ok {
        ok := DeleteEntities(m.deleteEntities);
      }
    }

    // ---------- edge validation ----------

    /** hasCardinalityConflict. */
    method HasConflict(e: Edge, ids: set<string>) returns (found: bool)
      requires ids <= edges.Keys
      ensures found <==> exists id :: id in ids && edges[id].id != e.id && edges[id].typ == e.typ
    {
      found := false;
      var todo := ids;
      while todo != {}
        invariant todo <= ids
        invariant found <==> exists id :: id in ids - todo && edges[id].id != e.id && edges[id].typ == e.typ
        decreases todo
      {
        var id :| id in todo;
        todo := todo - {id};
        if edges[id].id != e.id && edges[id].typ == e.typ {
          found := true;
        }
      }
    }

    /** validateCardinality: looking at the neighbours of one endpoint finds every conflict. */
    method ValidateCardinality(e: Edge) returns (ok: bool)
      requires edgeIndex.Agrees(edges)
      ensures ok <==> forall x :: x in edges ==> !Conflict(CardinalityOf(relations, e.typ), e, edges[x])
    {
      hide EdgeIndex.Agrees, View, At;
      edgeIndex.Reads(edges, e.source);
      edgeIndex.Reads(edges, e.target);
      var out, into := At(View(edgeIndex.out), e.source), At(View(edgeIndex.into), e.target);
      var outgoing := HasConflict(e, out);
      var incoming := HasConflict(e, into);
      match CardinalityOf(relations, e.typ)
      case ManyToMany => ok := true;
      case OneToOne => ok := !outgoing && !incoming;
      case OneToMany => ok := !incoming;
      case ManyToOne => ok := !outgoing;
    }

    method ValidateEdge(e: Edge) returns (ok: bool)
      requires edgeIndex.Agrees(edges)
      ensures ok <==> EdgeHolds(Content(), e)
    {
      hide EdgeIndex.Agrees;
      ok := ValidateCardinality(e);
      ok := ok && EdgeOk(relations, entities, e);
    }

    // ---------- relation types ----------

    method SetRelations(next: RelationTypes, name: string)
      requires impact.relations && Coherent() && DifferAt(relations, next, name)
      modifies this`relations, this`tracker
      ensures Coherent() && relations == next && tracker.entities == old(tracker).entities && tracker.edges == old(tracker).edges
    {
      hide EdgeIndex.Agrees, EdgesKeyed, EntitiesKeyed, Follows, Under, Captured;
      TouchRelation(name);
      RelationFollows(base, tracker, Assumed(start, missed), Whole(), next, name);
      relations := next;
    }

    method DropTouched(ids: set<string>)
      requires Coherent() && ids <= edges.Keys
      modifies this`edges, this`tracker, edgeIndex
      ensures Coherent() && edges == old(edges) - ids
    {
      hide Coherent;
      var todo := ids;
      while todo != {}
        invariant Coherent() && todo <= ids && edges == old(edges) - (ids - todo)
        decreases todo
      {
        var id :| id in todo;
        todo := todo - {id};
        TouchEdge(id);
        DropEdge(id);
      }
    }

    method TypedEdges(name: string) returns (ids: set<string>)
      requires edgeIndex.Agrees(edges)
      ensures ids == OfType(edges, name)
    {
      hide EdgeIndex.Agrees, View, At;
      edgeIndex.Reads(edges, name);
      ids := At(View(edgeIndex.types), name);
      assert ids == OfType(edges, name);
    }

    /** The second loop of applyRelationTypeDeletes. */
    method DropTypes(names: set<string>)
      requires Coherent()
      modifies this`edges, this`tracker, edgeIndex
      ensures Coherent() && edges == Untyped(old(edges), names)
    {
      hide Followed, OfType, EdgeIndex.Agrees;
      CoherentGives();
      var todo := names;
      assert Untyped(old(edges), {}) == old(edges);
      while todo != {}
        invariant Coherent() && todo <= names
        invariant edges == Untyped(old(edges), names - todo)
        decreases todo
      {
        var name :| name in todo;
        CoherentGives();
        var ids := TypedEdges(name);
        UntypedStep(old(edges), names - todo, name);
        DropTouched(ids);
        assert names - (todo - {name}) == names - todo + {name};
        todo := todo - {name};
      }
      assert names - {} == names;
    }

    /** applyRelationTypeDeletes. */
    method DeleteRelationTypes(names: seq<string>) returns (ok: bool)
      requires (|names| > 0 ==> impact.relations) && Coherent()
      modifies this`edges, this`relations, this`tracker, edgeIndex
      ensures ok <==> DeleteRelations(old(Content()), names).Some?
      ensures Coherent() && (ok ==> Content() == DeleteRelations(old(Content()), names).value)
    {
      hide Coherent;
      for i := 0 to |names|
        invariant Coherent() && edges == old(edges) && "" !in names[..i]
        invariant relations == old(relations) - Among(names[..i])
      {
        if names[i] == "" {
          return false;
        }
        SetRelations(relations - {names[i]}, names[i]);
        assert Among(names[..i + 1]) == Among(names[..i]) + {names[i]};
      }
      assert names[..|names|] == names;
      assert Among(names) == set n | n in names;
      hide Untyped, Among;
      DropTypes(Among(names));
      ok := true;
    }

    /** validateRelationTypeEdges for one type. */
    method ValidateTyped(name: string) returns (ok: bool)
      requires edgeIndex.Agrees(edges)
      ensures ok <==> forall id :: id in edges && edges[id].typ == name ==> EdgeHolds(Content(), edges[id])
    {
      hide EdgeIndex.Agrees, EdgeHolds;
      var ids := TypedEdges(name);
      var todo := ids;
      while todo != {}
        invariant todo <= ids
        invariant forall id :: id in ids && id !in todo ==> EdgeHolds(Content(), edges[id])
        decreases todo
      {
        var id :| id in todo;
        todo := todo - {id};
        ok := ValidateEdge(edges[id]);
        if !ok {
          return;
        }
      }
      ok := true;
    }

    method RegisterTypes(types: seq<RelationType>) returns (ok: bool)
      requires (|types| > 0 ==> impact.relations) && Coherent()
      modifies this`relations, this`tracker
      ensures ok <==> forall j :: 0 <= j < |types| ==> AdmitsRelation(types[j])
      ensures Coherent() && (ok ==> relations == Registered(old(relations), types))
    {
      hide Coherent, AdmitsRelation;
      for i := 0 to |types|
        invariant Coherent() && forall j :: 0 <= j < i ==> AdmitsRelation(types[j])
        invariant relations == Registered(old(relations), types[..i])
      {
        if !AdmitsRelation(types[i]) {
          return false;
        }
        assert types[..i + 1][..i] == types[..i];
        SetRelations(relations[types[i].name := types[i]], types[i].name);
      }
      assert types[..|types|] == types;
      ok := true;
    }

    /** validateRelationTypeEdges. */
    method ValidateTypes(types: seq<RelationType>) returns (ok: bool)
      requires edgeIndex.Agrees(edges)
      ensures ok <==> forall id :: id in edges && (exists i :: 0 <= i < |types| && types[i].name == edges[id].typ) ==> EdgeHolds(Content(), edges[id])
    {
      hide EdgeHolds, EdgeIndex.Agrees;
      for i := 0 to |types|
        invariant forall id :: id in edges && (exists j :: 0 <= j < i && types[j].name == edges[id].typ) ==> EdgeHolds(Content(), edges[id])
      {
        ok := ValidateTyped(types[i].name);
        if !ok {
          return;
        }
      }
      ok := true;
    }

    /** applyRelationTypeUpserts. */
    method UpsertRelationTypes(types: seq<RelationType>) returns (ok: bool)
      requires (|types| > 0 ==> impact.relations) && Coherent()
      modifies this`relations, this`tracker
      ensures ok <==> UpsertRelations(old(Content()), types).Some?
      ensures Coherent() && (ok ==> Content() == UpsertRelations(old(Content()), types).value)
    {
      hide EdgeHolds, EdgeIndex.Agrees, Follows, Registered, AdmitsRelation;
      ok := RegisterTypes(types);
      if ok {
        ok := ValidateTypes(types);
      }
    }

    // ---------- kinds ----------

    /** touchCIType, and the change; the rules wait for the end of the stage. */
    method SetTypes(next: Types, name: string)
      requires impact.types && Followed() && DifferAt(types, next, name)
      modifies this`types, this`tracker
      ensures Followed() && types == next
    {
      hide EdgeIndex.Agrees, EdgesKeyed, EntitiesKeyed, Follows, Under;
      TouchFollows(base, tracker, Assumed(start, missed), Whole(), name);
      tracker := tracker.(types := Touch(base.typeHash, tracker.types, types, name));
      TypeFollows(base, tracker, Assumed(start, missed), Whole(), next, name);
      types := next;
    }

    method DeleteKinds(deletes: seq<string>, used: set<string>) returns (ok: bool)
      requires (|deletes| > 0 ==> impact.types) && Followed()
      modifies this`types, this`tracker
      ensures ok <==> forall n :: n in deletes ==> n != "" && n !in used
      ensures Followed() && (ok ==> types == old(types) - Among(deletes))
    {
      hide Followed;
      for i := 0 to |deletes|
        invariant Followed() && types == old(types) - Among(deletes[..i])
        invariant forall n :: n in deletes[..i] ==> n != "" && n !in used
      {
        assert deletes[i] in deletes && deletes[..i + 1] == deletes[..i] + [deletes[i]];
        if deletes[i] == "" || deletes[i] in used {
          return false;
        }
        SetTypes(types - {deletes[i]}, deletes[i]);
        assert Among(deletes[..i + 1]) == Among(deletes[..i]) + {deletes[i]};
      }
      assert deletes[..|deletes|] == deletes;
      ok := true;
    }

    method DefineKinds(upserts: seq<NamedType>) returns (ok: bool)
      requires (|upserts| > 0 ==> impact.types) && Followed()
      modifies this`types, this`tracker
      ensures ok <==> forall n :: n in upserts ==> AdmitsType(base, n)
      ensures Followed() && (ok ==> types == Retyped(old(types), upserts))
    {
      hide Followed, AdmitsType;
      for i := 0 to |upserts|
        invariant Followed() && types == Retyped(old(types), upserts[..i])
        invariant forall n :: n in upserts[..i] ==> AdmitsType(base, n)
      {
        assert upserts[i] in upserts;
        if !AdmitsType(base, upserts[i]) {
          return false;
        }
        assert upserts[..i + 1][..i] == upserts[..i] && upserts[..i + 1] == upserts[..i] + [upserts[i]];
        SetTypes(types[upserts[i].name := upserts[i].typ], upserts[i].name);
      }
      assert upserts[..|upserts|] == upserts;
      ok := true;
    }

    /** The deletes and the definitions, one by one. */
    method EditKinds(deletes: seq<string>, upserts: seq<NamedType>, used: set<string>) returns (ok: bool)
      requires impact.types && Followed()
      modifies this`types, this`tracker
      ensures ok <==> (forall n :: n in deletes ==> n != "" && n !in used) && forall n :: n in upserts ==> AdmitsType(base, n)
      ensures Followed() && (ok ==> types == Retyped(old(types) - (set n | n in deletes), upserts))
    {
      hide Followed, AdmitsType, Retyped;
      ok := DeleteKinds(deletes, used);
      assert Among(deletes) == set n | n in deletes;
      if ok {
        ok := DefineKinds(upserts);
      }
    }

    /** applyCITypeMutations: the identity index of the changed kinds is made anew, and only the kinds below
        a change are looked at. */
    method ChangeKinds(deletes: seq<string>, upserts: seq<NamedType>) returns (ok: bool)
      requires (|deletes| > 0 || |upserts| > 0 ==> impact.types && entityIndex.origin.identities) && Sane() && Apart(base)
      modifies this`types, this`rules, this`tracker, entityIndex`owners
      ensures ok <==> ChangeTypes(base, old(types), entities, deletes, upserts).Some?
      ensures ok ==> Sane() && ChangeTypes(base, old(types), entities, deletes, upserts) == Some(types)
      ensures Followed() && entityIndex.Isolated()
    {
      hide Followed, EntityIndex.Agrees, AdmitsType, Apart, Under, UsedKinds, ParentsExist, Acyclic, KindsFit, Retyped, Names, EntityIndex.Isolated;
      SaneIsolates();
      if deletes == [] && upserts == [] {
        ok := true;
      } else {
        ghost var before := types;
        var used := UsedKinds(entities);
        ok := EditKinds(deletes, upserts, used);
        if ok {
          ok := ValidateCITypes(types);
        }
        if ok {
          ChangedAgree(before, deletes, upserts);
          ok := AdoptKinds(before, Names(deletes, upserts), used);
        }
      }
    }

    /** The check of the kinds below a change, and the identities under the new keys. */
    method AdoptKinds(ghost before: Types, changed: set<string>, used: set<string>) returns (ok: bool)
      requires entityIndex.origin.identities && Linked() && Followed() && rules == Under(base, before) && entityIndex.Agrees(rules.signs, entities) && used == UsedKinds(entities)
      requires AgreeBut(before, types, changed) && ParentsExist(types) && Apart(base) && entityIndex.Isolated()
      modifies this`rules, entityIndex`owners
      ensures ok <==> KindsFit(base, types, entities, iset kind | Below(types, changed, kind))
      ensures ok ==> Sane()
      ensures Followed() && entityIndex.Isolated()
    {
      hide Followed, EntityIndex.Agrees, Apart, Under, UsedKinds, ParentsExist, AgreeBut, KindsFit, EntityIndex.Isolated, Below;
      CoherentGives();
      ok := FitKinds(changed, used);
      if ok {
        Rekey(before, changed, used);
        SaneIsolates();
      }
    }

    /** The check of the used kinds below a change. */
    method FitKinds(changed: set<string>, used: set<string>) returns (ok: bool)
      requires EntitiesKeyed(entities) && entityIndex.Agrees(rules.signs, entities) && ParentsExist(types) && used == UsedKinds(entities)
      ensures ok <==> KindsFit(base, types, entities, iset kind | Below(types, changed, kind))
    {
      var affected := AffectedKinds(types, changed);
      assert Lists(View(entityIndex.fields.values), ByField(entities));
      hide KindsFit, ParentsExist, Below, EntityIndex.Agrees, Lists;
      ok := ValidateEntities(base, types, entities, affected * used, View(entityIndex.fields.values));
      OnlyUsedMatter(base, types, entities, affected, iset kind | Below(types, changed, kind));
    }

    method Rekey(ghost before: Types, changed: set<string>, used: set<string>)
      requires entityIndex.origin.identities && Linked() && Followed() && rules == Under(base, before) && entityIndex.Agrees(rules.signs, entities) && used == UsedKinds(entities)
      requires AgreeBut(before, types, changed) && ParentsExist(types) && Apart(base)
      requires KindsFit(base, types, entities, iset kind | Below(types, changed, kind))
      modifies this`rules, entityIndex`owners
      ensures Sane()
    {
      hide Under, EntityIndex.Agrees, EdgeIndex.Agrees, Follows, EdgesKeyed, EntitiesKeyed, SeparateIdentities, KindsFit, AgreeBut, Apart, ParentsExist, Identifies, Signatures, Flat, View;
      var next := Under(base, types);
      entityIndex.Gives(rules.signs, entities);
      IdentifiesSeparates(rules.signs, entityIndex.Identities(), entities);
      KindsKeepIdentities(base, before, types, changed, entities);
      KeysKept(base, before, types, changed, entities);
      SameCanonical(base, before, types);
      entityIndex.RebuildKinds(next.signs, changed * used, entities, rules.signs);
      rules := next;
    }

    // ---------- entities ----------

    /** findEntityByIdentity, and whether a rejecting signature was among those that found it. */
    method FindByIdentity(kind: string, lookup: set<string>, rejecting: set<string>) returns (found: Found, rejected: bool)
      requires entityIndex.Agrees(rules.signs, entities)
      ensures found == Single(Matches(rules.signs, entities, kind, lookup))
      ensures found.One? ==> found.id in entities && (rejected <==> Signatures(rules.signs, entities[found.id]) * rejecting * lookup != {})
    {
      hide EntityIndex.Agrees, Identifies, Matches, Single, View, Flat, Signatures;
      var identities := entityIndex.Identities();
      entityIndex.Gives(rules.signs, entities);
      found, rejected := Missing, false;
      ghost var finder := "";
      var todo := lookup;
      while todo != {}
        invariant todo <= lookup && !found.Ambiguous?
        invariant found.Missing? ==> forall s :: s in lookup - todo ==> (kind, s) !in identities
        invariant found.One? ==> finder in lookup - todo && (kind, finder) in identities && identities[(kind, finder)] == found.id
        invariant found.One? ==> forall s :: s in lookup - todo && (kind, s) in identities ==> identities[(kind, s)] == found.id
        invariant rejected <==> exists s :: s in lookup - todo && s in rejecting && (kind, s) in identities
        decreases todo
      {
        var s :| s in todo;
        todo := todo - {s};
        if (kind, s) in identities {
          var id := identities[(kind, s)];
          if found.One? && found.id != id {
            MatchesMany(rules.signs, identities, entities, kind, lookup, finder, s);
            return Ambiguous, false;
          }
          finder := s;
          found, rejected := One(id), rejected || s in rejecting;
        }
      }
      if found.One? {
        MatchesOne(rules.signs, identities, entities, kind, lookup, finder, rejecting);
        SingleIs(Matches(rules.signs, entities, kind, lookup), found.id);
        MatchesStored(rules.signs, entities, kind, lookup);
      } else {
        MatchesNone(rules.signs, identities, entities, kind, lookup);
        EmptySingle();
      }
    }

    /** resolveEntityID. */
    method ResolveUpsert(u: Upsert) returns (found: Found)
      requires entityIndex.Agrees(rules.signs, entities)
      ensures found == TargetOf(rules.signs, entities, u)
    {
      hide EntityIndex.Agrees, Single, Matches;
      var e := u.entity;
      var rejected;
      found, rejected := FindByIdentity(e.kind, u.lookup, u.rejecting);
      match found
      case Ambiguous =>
      case Missing =>
        if e.id != "" {
          found := One(e.id);
        } else if u.generated != "" {
          found := One(u.generated);
        }
      case One(id) =>
        if e.id != "" && id != e.id && rejected {
          found := Ambiguous;
        }
    }

    /** uniqueValidator.validate and validateIdentityIndexAvailable. `indexed` is what the entity index
        lists, which may differ from the store at the entity itself. */
    method Fits(e: Entity, validator: Validator, ghost indexed: Entities) returns (ok: bool)
      requires validator.unique == rules.unique && validator.Complete(entities - {e.id})
      requires entityIndex.Agrees(rules.signs, indexed) && indexed - {e.id} == entities - {e.id}
      modifies validator
      ensures validator.Complete(entities - {e.id})
      ensures ok <==> EntityFits(rules, entities, e)
      ensures ok ==> Available(rules.signs, entityIndex.Identities(), e)
    {
      hide EntityIndex.Agrees, Lists, Identifies, Available, PostsOthers, SharesUnique, View, Flat, Validator.Complete, Signatures;
      entityIndex.Gives(rules.signs, indexed);
      PostingsOfOthers(View(entityIndex.fields.values), indexed, entities, e.id);
      AvailableIsSeparate(rules.signs, entityIndex.Identities(), indexed, entities, e);
      ok := validator.Validate(e, entities, View(entityIndex.fields.values));
      ok := ok && Available(rules.signs, entityIndex.Identities(), e);
    }

    /** Store an entity that fits, in the indexes and in the validator too. */
    method StoreEntity(e: Entity, validator: Validator)
      requires entityIndex.Writes() && Sane() && validator.unique == rules.unique && validator.Complete(entities - {e.id})
      requires e.id != "" && e.kind != "" && Available(rules.signs, entityIndex.Identities(), e) && e.id in tracker.entities
      modifies this`entities, entityIndex, validator
      ensures Sane() && entities == old(entities)[e.id := e] && validator.Complete(entities)
    {
      hide EntityIndex.Agrees, EdgeIndex.Agrees, EdgesKeyed, Follows, Available;
      if e.id in entities {
        entityIndex.Update(rules.signs, e.id, entities[e.id], e, entities);
      } else {
        entityIndex.Add(rules.signs, e.id, e, entities);
      }
      validator.Record(e, entities);
      PutEntity(e);
    }

    /** Likewise for a new entity, captured or not. */
    method StoreNewEntity(e: Entity, validator: Validator)
      requires entityIndex.Writes() && Sane() && validator.unique == rules.unique && validator.Complete(entities)
      requires e.id != "" && e.kind != "" && Available(rules.signs, entityIndex.Identities(), e) && e.id !in entities
      modifies this`entities, this`missed, entityIndex, validator
      ensures Sane() && entities == old(entities)[e.id := e] && validator.Complete(entities)
      ensures missed == if e.id in tracker.entities then old(missed) else old(missed)[e.id := e]
    {
      hide EntityIndex.Agrees, EdgeIndex.Agrees, EdgesKeyed, Follows, Available;
      assert entities - {e.id} == entities;
      entityIndex.Add(rules.signs, e.id, e, entities);
      validator.Record(e, entities);
      PutNewEntity(e);
    }

    /** The merged or new value, checked and stored. */
    method StoreUpsert(next: Entity, validator: Validator) returns (ok: bool)
      requires entityIndex.Writes() && Sane() && validator.unique == rules.unique && validator.Complete(entities) && next.id != "" && next.kind != ""
      modifies this`entities, this`tracker, entityIndex, validator
      ensures ok <==> EntityFits(rules, old(entities), next)
      ensures Sane() && entities == (if ok then old(entities)[next.id := next] else old(entities))
      ensures ok ==> validator.Complete(entities)
    {
      hide Followed, EntityIndex.Agrees, EntityFits, Available, Under, Validator.Complete, Captured, Flat, View;
      TouchEntity(next.id);
      validator.StaysComplete(entities, entities - {next.id});
      ok := Fits(next, validator, entities);
      if ok {
        StoreEntity(next, validator);
      }
    }

    method UpsertOne(u: Upsert, validator: Validator) returns (ok: bool)
      requires entityIndex.Writes() && Sane() && validator.unique == rules.unique && validator.Complete(entities)
      modifies this`entities, this`tracker, entityIndex, validator
      ensures ok <==> UpsertEntity(rules, old(Content()), u).Some?
      ensures Sane() && (ok ==> Content() == UpsertEntity(rules, old(Content()), u).value)
      ensures ok ==> validator.Complete(entities)
    {
      hide Followed, EntityIndex.Agrees, EntityFits, TargetOf, Under, Prepared, Upserted, Validator.Complete;
      CoherentGives();
      TargetIsNamed(rules.signs, entities, u);
      PreparedIs(rules, u.entity);
      var prepared := Prepared(rules, u.entity);
      if prepared.None? {
        ok := false;
      } else {
        var found := ResolveUpsert(u);
        ok := found.One? && TargetFits(entities, prepared.value, found.id);
        if ok {
          UpsertedIs(rules, entities, prepared.value, found.id);
          ok := StoreUpsert(Upserted(rules, entities, prepared.value, found.id), validator);
        }
      }
    }

    method UpsertEntities(upserts: seq<Upsert>, validator: Validator) returns (ok: bool)
      requires (|upserts| > 0 ==> entityIndex.Writes()) && Sane() && validator.unique == rules.unique && validator.Complete(entities)
      modifies this`entities, this`tracker, entityIndex, validator
      ensures ok <==> Each(UpsertingEntity(rules), old(Content()), upserts).Some?
      ensures Sane() && (ok ==> Content() == Each(UpsertingEntity(rules), old(Content()), upserts).value)
      ensures ok ==> validator.Complete(entities)
    {
      hide Sane, UpsertEntity, Validator.Complete;
      ghost var before := Content();
      for i := 0 to |upserts|
        invariant Sane() && validator.Complete(entities)
        invariant Each(UpsertingEntity(rules), before, upserts[..i]) == Some(Content())
      {
        EachStep(UpsertingEntity(rules), before, upserts, i);
        ok := UpsertOne(upserts[i], validator);
        if !ok {
          return;
        }
      }
      assert upserts[..|upserts|] == upserts;
      ok := true;
    }

    // ---------- stale marks ----------

    /** Marking changes no index, but goes through updateEntityIndexes. */
    method MarkEntity(id: string, body: string)
      requires entityIndex.Writes() && Sane() && id in entities
      modifies this`entities, this`tracker, entityIndex
      ensures Sane() && entities == old(entities)[id := old(entities)[id].(body := body)]
    {
      hide EdgeIndex.Agrees, EdgesKeyed, Follows, Available, Under, EntityIndex.Agrees, Identifies, Lists, Captured;
      TouchEntity(id);
      var e := entities[id].(body := body);
      entityIndex.Gives(rules.signs, entities);
      KeepsIdentities(rules.signs, entityIndex.Identities(), entities, id, e);
      entityIndex.Update(rules.signs, id, entities[id], e, entities);
      PutEntity(e);
    }

    method MarkOne(id: string, st: Stale, ghost before: Store, ghost done: set<string>)
      requires entityIndex.Writes() && Sane() && id in before.entities && id !in done && Content() == StaleUpTo(rules, st, before, done)
      modifies this`entities, this`edges, this`tracker, edgeIndex, entityIndex
      ensures Sane() && Content() == StaleUpTo(rules, st, before, done + {id})
    {
      hide Sane, StaleUpTo, WithoutEntity, Selected, StaleMarked;
      StaleStep(rules, st, before, done, id);
      if Selected(st, entities[id]) {
        if !st.deletes {
          MarkEntity(id, rules.staleBody(entities[id], st.source));
        } else if st.rank >= entities[id].rank {
          TouchAndRemove(id);
        }
      }
    }

    /** applySourceStale. */
    method MarkSourceStale(st: Stale, validator: Validator) returns (ok: bool)
      requires entityIndex.Writes() && Sane() && validator.unique == rules.unique && validator.Complete(entities)
      modifies this`entities, this`edges, this`tracker, edgeIndex, entityIndex
      ensures ok <==> MarkStale(rules, old(Content()), st).Some?
      ensures Sane() && (ok ==> Content() == MarkStale(rules, old(Content()), st).value)
      ensures ok ==> validator.Complete(entities)
    {
      hide Sane, StaleUpTo, Validator.Complete, SortedAs, StaleGone, StaleMarked, Detached;
      if st.source == "" {
        return false;
      }
      ghost var before := Content();
      StaleEnds(rules, st, before);
      var ids := SortSet(entities.Keys);
      MarkEach(ids, st);
      StaleKeepsFields(rules, st, before);
      validator.StaysComplete(before.entities, entities);
      ok := true;
    }

    method MarkEach(ids: seq<string>, st: Stale)
      requires entityIndex.Writes() && Sane() && SortedAs(ids, entities.Keys)
      modifies this`entities, this`edges, this`tracker, edgeIndex, entityIndex
      ensures Sane() && Content() == StaleUpTo(rules, st, old(Content()), old(entities).Keys)
    {
      ghost var before := Content();
      hide Sane, MarkStale, StaleUpTo, SortedAs, Among;
      StaleStarts(rules, st, before);
      SortedEnds(ids, before.entities.Keys);
      for i := 0 to |ids|
        invariant Sane()
        invariant Content() == StaleUpTo(rules, st, before, Among(ids[..i]))
      {
        SortedStep(ids, before.entities.Keys, i);
        MarkOne(ids[i], st, before, Among(ids[..i]));
      }
    }

    method MarkAllStale(marks: seq<Stale>, validator: Validator) returns (ok: bool)
      requires (|marks| > 0 ==> entityIndex.Writes()) && Sane() && validator.unique == rules.unique && validator.Complete(entities)
      modifies this`entities, this`edges, this`tracker, edgeIndex, entityIndex
      ensures ok <==> Each(MarkingStale(rules), old(Content()), marks).Some?
      ensures Sane() && (ok ==> Content() == Each(MarkingStale(rules), old(Content()), marks).value)
      ensures ok ==> validator.Complete(entities)
    {
      hide Sane, MarkStale, Validator.Complete;
      ghost var before := Content();
      for i := 0 to |marks|
        invariant Sane() && validator.Complete(entities)
        invariant Each(MarkingStale(rules), before, marks[..i]) == Some(Content())
      {
        EachStep(MarkingStale(rules), before, marks, i);
        ok := MarkSourceStale(marks[i], validator);
        if !ok {
          return;
        }
      }
      assert marks[..|marks|] == marks;
      ok := true;
    }

    // ---------- merges ----------

    /** Put an edge in the place of the one stored under its identity, if any. */
    method StoreEdge(e: Edge)
      requires Coherent() && e.id == CanonicalId(rules, e) && e.id in tracker.edges
      modifies this`edges, edgeIndex
      ensures Coherent() && edges == old(edges)[e.id := e]
    {
      hide Coherent, CanonicalId;
      if e.id in edges {
        DropEdge(e.id);
      }
      PutEdge(e);
      assert edges == old(edges)[e.id := e];
    }

    /** A redirected edge meets the edge it coincides with. */
    method LandEdge(e: Edge)
      requires Coherent() && e.id == CanonicalId(rules, e) && e.id in tracker.edges
      modifies this`edges, edgeIndex
      ensures Coherent()
      ensures edges == old(edges)[e.id := if e.id in old(edges) then MergedEdge(rules, e, Canonicalized(rules, old(edges)[e.id])) else e]
    {
      KeyedAt(rules, edges, e.id);
      hide Coherent, EdgesKeyed;
      StoreEdge(if e.id in edges then MergedEdge(rules, e, Canonicalized(rules, edges[e.id])) else e);
    }

    /** One pass of the loop of redirectMergeEdges. */
    method Redirect(id: string, source: string, target: string) returns (next: string)
      requires Coherent() && id in edges && id in tracker.edges
      modifies this`edges, this`tracker, edgeIndex
      ensures Coherent() && edges == RedirectOne(rules, old(edges), id, source, target)
      ensures next == CanonicalId(rules, Redirected(old(edges)[id], source, target))
      ensures tracker.entities == old(tracker).entities && tracker.edges.Keys == old(tracker).edges.Keys + {next}
    {
      hide Coherent, MergedEdge, Captured;
      var e := Redirected(edges[id], source, target);
      next := CanonicalId(rules, e);
      TouchEdge(next);
      DropEdge(id);
      LandEdge(Canonicalized(rules, e));
    }

    method RedirectNth(ids: seq<string>, i: nat, source: string, target: string, ghost before: Edges) returns (next: string)
      requires Coherent() && Injective(rules.canonical) && EdgesKeyed(rules.canonical, before) && source != target
      requires SortedAs(ids, Incidents(before, source)) && i < |ids| && Incidents(before, source) <= tracker.edges.Keys
      requires edges == RedirectAll(rules, before, ids[..i], source, target)
      modifies this`edges, this`tracker, edgeIndex
      ensures Coherent() && edges == RedirectAll(rules, before, ids[..i + 1], source, target)
      ensures NextIds(rules, before, Among(ids[..i + 1]), source, target) == NextIds(rules, before, Among(ids[..i]), source, target) + {next}
      ensures tracker.entities == old(tracker).entities && tracker.edges.Keys == old(tracker).edges.Keys + {next}
    {
      hide Coherent, EdgesKeyed, Injective, Incidents, NextIds, RedirectOne, RedirectAll, SortedAs, Among;
      RedirectAt(rules, before, ids, i, source, target);
      SortedStep(ids, Incidents(before, source), i);
      NextStep(rules, before, Among(ids[..i]), ids[i], source, target);
      next := Redirect(ids[i], source, target);
    }

    /** redirectMergeEdges. */
    method RedirectEdges(source: string, target: string) returns (affected: set<string>)
      requires Coherent() && Injective(rules.canonical) && source != target && Incidents(edges, source) <= tracker.edges.Keys
      modifies this`edges, this`tracker, edgeIndex
      ensures Coherent() && edges == RedirectAll(rules, old(edges), Sorted(Incidents(old(edges), source)), source, target)
      ensures affected == NextIds(rules, old(edges), Incidents(old(edges), source), source, target)
      ensures tracker.entities == old(tracker).entities && tracker.edges.Keys == old(tracker).edges.Keys + affected
    {
      hide Coherent, Followed, Injective, Incidents, NextIds, RedirectAll, SortedAs, Among, EdgeIndex.Agrees, Under, EdgesKeyed, EntitiesKeyed;
      ghost var before := edges;
      CoherentShows();
      var ids := IncidentEdges(source);
      affected := {};
      SortedEnds(ids, Incidents(before, source));
      NothingRedirected(rules, before, ids, source, target);
      for i := 0 to |ids|
        invariant Coherent() && edges == RedirectAll(rules, before, ids[..i], source, target)
        invariant affected == NextIds(rules, before, Among(ids[..i]), source, target)
        invariant tracker.entities == old(tracker).entities && tracker.edges.Keys == old(tracker).edges.Keys + affected
      {
        var next := RedirectNth(ids, i, source, target, before);
        affected := affected + {next};
      }
    }

    method TakeSource(source: string, target: string)
      requires entityIndex.Writes() && Coherent() && entityIndex.Agrees(rules.signs, entities - {target}) && source != target && source in entities && source in tracker.entities
      modifies this`entities, entityIndex
      ensures Coherent() && entityIndex.Agrees(rules.signs, entities - {target}) && entities == old(entities) - {source}
    {
      hide EdgeIndex.Agrees, EntityIndex.Agrees, EdgesKeyed, Follows;
      assert entities[source].kind != "";
      ghost var indexed := entities - {target};
      assert source in indexed && indexed[source] == entities[source];
      assert indexed - {source} == entities - {source} - {target};
      entityIndex.Remove(rules.signs, source, entities[source], indexed);
      DropEntity(source);
    }

    /** One source of applyMerge, other than the target; `value` is the target folded so far, which is
        out of the indexes. */
    method FoldSource(source: string, target: string) returns (affected: set<string>)
      requires entityIndex.Writes() && Coherent() && Injective(rules.canonical) && entityIndex.Agrees(rules.signs, entities - {target})
      requires source != target && source in entities && Touched(source)
      modifies this`entities, this`edges, this`tracker, edgeIndex, entityIndex
      ensures Coherent() && entityIndex.Agrees(rules.signs, entities - {target}) && entities == old(entities) - {source}
      ensures edges == RedirectAll(rules, old(edges), Sorted(Incidents(old(edges), source)), source, target)
      ensures affected == NextIds(rules, old(edges), Incidents(old(edges), source), source, target)
      ensures tracker.entities == old(tracker).entities && tracker.edges.Keys == old(tracker).edges.Keys + affected
      ensures forall id :: old(Touched(id)) ==> Touched(id)
    {
      hide Followed, Under, EntityIndex.Agrees, EdgeIndex.Agrees, Injective, RedirectAll, NextIds, Incidents, SortedAs;
      CoherentGives();
      ghost var before, known := edges, tracker;
      RedirectedTouched(rules, before, source, target, tracker.edges.Keys);
      affected := RedirectEdges(source, target);
      TakeSource(source, target);
      forall id | old(Touched(id)) ensures Touched(id) {
        assert Incidents(before, id) <= known.edges.Keys;
      }
    }

    ghost predicate AllTouched(ids: seq<string>)
      reads this
    {
      forall id :: id in ids ==> Touched(id)
    }

    /** touchMerge. */
    method TouchMerge(r: Merge)
      requires Coherent()
      modifies this`tracker
      ensures Coherent() && Touched(r.target) && AllTouched(r.sources)
    {
      hide Coherent, Incidents;
      TouchEntityWithEdges(r.target);
      for i := 0 to |r.sources|
        invariant Coherent() && Touched(r.target) && AllTouched(r.sources[..i])
      {
        if r.sources[i] != r.target {
          TouchEntityWithEdges(r.sources[i]);
        }
        assert r.sources[..i + 1] == r.sources[..i] + [r.sources[i]];
      }
      assert r.sources[..|r.sources|] == r.sources;
    }

    lemma StayTouched(ids: seq<string>, id: string)
      requires AllTouched(ids) && id in ids
      ensures Touched(id)
    {
    }

    twostate lemma KeepTouched(ids: seq<string>)
      requires old(AllTouched(ids)) && forall id :: old(Touched(id)) ==> Touched(id)
      ensures AllTouched(ids)
    {
      forall id | id in ids ensures Touched(id) {
        assert old(Touched(id));
      }
    }

    /** A pass of the loop of applyMerge; `value` is the target folded so far. */
    method FoldNth(r: Merge, i: nat, value: Entity, known: set<string>) returns (ok: bool, folded: Entity, affected: set<string>)
      requires entityIndex.Writes() && Coherent() && Injective(rules.canonical) && entityIndex.Agrees(rules.signs, entities - {r.target})
      requires i < |r.sources| && AllTouched(r.sources)
      modifies this`entities, this`edges, this`tracker, edgeIndex, entityIndex
      ensures ok <==> MergeSource(rules, Merging(old(Content()), value, known), r.target, r.sources[i]).Some?
      ensures ok ==> MergeSource(rules, Merging(old(Content()), value, known), r.target, r.sources[i]) == Some(Merging(Content(), folded, affected))
      ensures Coherent() && entityIndex.Agrees(rules.signs, entities - {r.target})
      ensures ok ==> AllTouched(r.sources) && tracker.entities == old(tracker).entities && Fewer(old(entities), entities)
    {
      hide Fewer, AllTouched, Coherent, EntityIndex.Agrees, Injective, RedirectAll, NextIds, Incidents, SortedAs, AppendUnique, Touched;
      var source := r.sources[i];
      FewerWithout(entities, source);
      if source == r.target {
        return true, value, known;
      }
      if source !in entities || entities[source].kind != value.kind {
        return false, value, known;
      }
      StayTouched(r.sources, source);
      folded := rules.mergeEntity(value, entities[source]);
      folded := folded.(kind := value.kind, mergedFrom := AppendUnique(folded.mergedFrom + [source]));
      label fold:
      affected := FoldSource(source, r.target);
      KeepTouched@fold(r.sources);
      affected := known + affected;
      ok := true;
    }

    method FoldSources(r: Merge) returns (ok: bool, folded: Entity, affected: set<string>)
      requires entityIndex.Writes() && Coherent() && Injective(rules.canonical) && r.target in entities && entityIndex.Agrees(rules.signs, entities - {r.target})
      requires AllTouched(r.sources)
      modifies this`entities, this`edges, this`tracker, edgeIndex, entityIndex
      ensures ok <==> MergeSources(rules, Merging(old(Content()), old(entities)[r.target], {}), r.target, r.sources).Some?
      ensures ok ==> MergeSources(rules, Merging(old(Content()), old(entities)[r.target], {}), r.target, r.sources) == Some(Merging(Content(), folded, affected))
      ensures Coherent() && entityIndex.Agrees(rules.signs, entities - {r.target})
      ensures ok ==> tracker.entities == old(tracker).entities && Fewer(old(entities), entities)
    {
      hide Coherent, EntityIndex.Agrees, Injective, MergeSource, AllTouched;
      ghost var first := Merging(Content(), entities[r.target], {});
      folded, affected := entities[r.target], {};
      for i := 0 to |r.sources|
        invariant Coherent() && entityIndex.Agrees(rules.signs, entities - {r.target})
        invariant MergeSources(rules, first, r.target, r.sources[..i]) == Some(Merging(Content(), folded, affected))
        invariant AllTouched(r.sources) && tracker.entities == old(tracker).entities && Fewer(old(entities), entities)
      {
        assert r.sources[..i + 1][..i] == r.sources[..i];
        ok, folded, affected := FoldNth(r, i, folded, affected);
        if !ok {
          MergeSourcesFails(rules, first, r.target, r.sources, i + 1);
          return;
        }
      }
      assert r.sources[..|r.sources|] == r.sources;
      ok := true;
    }

    /** validateAffectedMergeEdges. */
    method ValidateAffected(affected: set<string>) returns (ok: bool)
      requires edgeIndex.Agrees(edges)
      ensures ok <==> forall id :: id in affected && id in edges ==> EdgeHolds(Content(), edges[id])
    {
      hide EdgeIndex.Agrees, EdgeHolds;
      var todo := affected;
      while todo != {}
        invariant todo <= affected
        invariant forall id :: id in affected && id in edges && id !in todo ==> EdgeHolds(Content(), edges[id])
        decreases todo
      {
        var id :| id in todo;
        todo := todo - {id};
        if id in edges {
          ok := ValidateEdge(edges[id]);
          if !ok {
            return;
          }
        }
      }
      ok := true;
    }

    /** An entity already stored goes into the indexes and the validator. */
    method IndexStored(e: Entity, validator: Validator, ghost indexed: Entities)
      requires entityIndex.Writes() && Linked() && Coherent() && entityIndex.Agrees(rules.signs, indexed) && e.id !in indexed && indexed[e.id := e] == entities
      requires e.kind != "" && Available(rules.signs, entityIndex.Identities(), e) && validator.Complete(indexed) && indexed == entities - {e.id} && entities[e.id := e] == entities
      modifies entityIndex, validator
      ensures Sane() && entityIndex.Isolated() && validator.Complete(entities)
    {
      hide EntityIndex.Agrees, Followed, Available, Validator.Complete, EntityIndex.Isolated, Flat, View;
      entityIndex.Add(rules.signs, e.id, e, indexed);
      validator.Record(e, entities);
      SaneIsolates();
    }

    /** The end of applyMerge: the folded target is stored, checked, indexed and its edges checked. */
    method FinishMerge(e: Entity, affected: set<string>, validator: Validator) returns (ok: bool)
      requires entityIndex.Writes() && Linked() && Coherent() && entityIndex.Agrees(rules.signs, entities - {e.id}) && e.id != "" && e.kind != "" && e.id in tracker.entities
      requires validator.unique == rules.unique && validator.Complete(entities - {e.id})
      modifies this`entities, entityIndex, validator
      ensures var next := old(Content()).(entities := old(entities)[e.id := e]);
        && (ok <==>
          && rules.conforms(e)
          && EntityFits(rules, next.entities, e)
          && forall id :: id in affected && id in next.edges ==> EdgeHolds(next, next.edges[id]))
        && (ok ==> Sane() && Content() == next && validator.Complete(entities))
      ensures Coherent() && entityIndex.Isolated()
    {
      hide EntityIndex.Agrees, EdgeIndex.Agrees, Followed, EntityFits, Available, Validator.Complete, EdgeHolds, EntityIndex.Isolated, Under;
      ghost var indexed := entities - {e.id};
      entityIndex.AgreesIsolates(rules.signs, indexed);
      PutBack(entities, e);
      PutEntity(e);
      if !rules.conforms(e) {
        ok := false;
      } else {
        ok := Fits(e, validator, indexed);
        if ok {
          IndexStored(e, validator, indexed);
          CoherentGives();
          ok := ValidateAffected(affected);
        }
      }
    }

    /** applyMerge. */
    method MergeOne(r: Merge, validator: Validator) returns (ok: bool)
      requires entityIndex.Writes() && Sane() && Injective(rules.canonical) && validator.unique == rules.unique && validator.Complete(entities)
      modifies this`entities, this`edges, this`tracker, edgeIndex, entityIndex, validator
      ensures ok <==> MergeEntities(rules, old(Content()), r).Some?
      ensures ok ==> Sane() && Content() == MergeEntities(rules, old(Content()), r).value
      ensures Coherent() && entityIndex.Isolated()
      ensures ok ==> validator.Complete(entities)
    {
      hide EdgeIndex.Agrees, EntityIndex.Agrees, Followed, Injective, Validator.Complete, EntityFits, EdgeHolds, MergeSources, Incidents, EntityIndex.Isolated;
      CoherentGives();
      SaneIsolates();
      if r.target !in entities {
        return false;
      }
      ghost var before := entities;
      TouchMerge(r);
      assert entities[r.target].kind != "" && r.target != "";
      entityIndex.Remove(rules.signs, r.target, entities[r.target], entities);
      var folded, affected;
      ok, folded, affected := FoldSources(r);
      entityIndex.AgreesIsolates(rules.signs, entities - {r.target});
      if !ok {
        return;
      }
      MergedKind(rules, Merging(old(Content()), before[r.target], {}), r.target, r.sources);
      FewerComplete(validator, before, entities, r.target);
      ok := FinishMerge(folded.(id := r.target), affected, validator);
    }

    method MergeAll(merges: seq<Merge>, validator: Validator) returns (ok: bool)
      requires (|merges| > 0 ==> entityIndex.Writes()) && Sane() && Injective(rules.canonical) && validator.unique == rules.unique && validator.Complete(entities)
      modifies this`entities, this`edges, this`tracker, edgeIndex, entityIndex, validator
      ensures ok <==> Each(MergingEntities(rules), old(Content()), merges).Some?
      ensures ok ==> Sane() && Content() == Each(MergingEntities(rules), old(Content()), merges).value
      ensures Coherent() && entityIndex.Isolated()
      ensures ok ==> validator.Complete(entities)
    {
      hide Coherent, EntityIndex.Agrees, MergeEntities, Injective, Validator.Complete, EntityIndex.Isolated;
      ghost var before := Content();
      SaneIsolates();
      for i := 0 to |merges|
        invariant Sane() && validator.Complete(entities)
        invariant Each(MergingEntities(rules), before, merges[..i]) == Some(Content())
      {
        EachStep(MergingEntities(rules), before, merges, i);
        ok := MergeOne(merges[i], validator);
        if !ok {
          return;
        }
      }
      assert merges[..|merges|] == merges;
      SaneIsolates();
      ok := true;
    }

    // ---------- splits ----------

    ghost predicate PartsTouched(parts: seq<Part>)
      reads this`tracker
    {
      forall part :: part in parts && part.raw != "" ==> part.raw in tracker.entities
    }

    /** touchSplit: replacements are captured under the spelling of the request. */
    method TouchSplit(r: Split)
      requires Coherent()
      modifies this`tracker
      ensures Coherent() && Touched(r.source)
      ensures tracker.entities.Keys == old(tracker).entities.Keys + {r.source} + Raws(r.parts)
    {
      hide Coherent, Incidents;
      TouchEntityWithEdges(r.source);
      assert Raws(r.parts[..0]) == {};
      for i := 0 to |r.parts|
        invariant Coherent() && Touched(r.source)
        invariant tracker.entities.Keys == old(tracker).entities.Keys + {r.source} + Raws(r.parts[..i])
      {
        assert r.parts[..i + 1] == r.parts[..i] + [r.parts[i]];
        RawsNext(r.parts[..i], r.parts[i]);
        if r.parts[i].raw != "" {
          TouchEntity(r.parts[i].raw);
        }
      }
      assert r.parts[..|r.parts|] == r.parts;
    }

    method SplitNth(r: Split, i: nat, validator: Validator) returns (ok: bool)
      requires entityIndex.Writes() && Sane() && validator.unique == rules.unique && validator.Complete(entities)
      requires i < |r.parts| && NamedParts(rules.trim, r.parts)
      modifies this`entities, this`missed, entityIndex, validator
      ensures ok <==> SplitPart(rules, r.source)(old(Content()), r.parts[i]).Some?
      ensures Sane() && (ok ==> SplitPart(rules, r.source)(old(Content()), r.parts[i]) == Some(Content()))
      ensures ok ==> validator.Complete(entities)
      ensures ok ==> Replacement(rules, r.parts[i]).Some?
      ensures ok ==> var e := Replacement(rules, r.parts[i]).value; missed == if e.id in tracker.entities then old(missed) else old(missed)[e.id := e]
    {
      hide EntityIndex.Agrees, EdgeIndex.Agrees, EdgesKeyed, Follows, EntityFits, Available, Coherent;
      var part := r.parts[i];
      assert part in r.parts;
      var replacement := Replacement(rules, part);
      if replacement.None? {
        return false;
      }
      var e := replacement.value;
      if e.id == r.source || e.id in entities {
        return false;
      }
      assert entities - {e.id} == entities;
      ok := Fits(e, validator, entities);
      if ok {
        StoreNewEntity(e, validator);
      }
    }

    /** applySplit. A replacement is missed when it is stored under an identity not captured by then. */
    method SplitOne(r: Split, validator: Validator) returns (ok: bool)
      requires entityIndex.Writes() && Sane() && validator.unique == rules.unique && validator.Complete(entities) && NamedParts(rules.trim, r.parts)
      modifies this`entities, this`edges, this`tracker, this`missed, edgeIndex, entityIndex, validator
      ensures ok <==> SplitEntity(rules, old(Content()), r).Some?
      ensures Sane() && (ok ==> SplitEntity(rules, old(Content()), r) == Some(Content()))
      ensures ok ==> validator.Complete(entities)
      ensures ok ==> tracker.entities.Keys == old(tracker).entities.Keys + {r.source} + Raws(r.parts)
      ensures ok ==> missed == old(missed) + MissedParts(rules, tracker.entities.Keys, r.parts)
    {
      hide EntityIndex.Agrees, EdgeIndex.Agrees, Coherent, NamedParts, Touched, Validator.Complete, SplitPart, Raws, MissedParts;
      if r.source == "" || r.source !in entities {
        return false;
      }
      ghost var before := entities;
      TouchSplit(r);
      RemoveEntity(r.source);
      FewerWithout(before, r.source);
      FewerComplete(validator, before, entities, r.source);
      assert entities - {r.source} == entities;
      ok := SplitParts(r, validator);
    }

    method SplitParts(r: Split, validator: Validator) returns (ok: bool)
      requires entityIndex.Writes() && Sane() && validator.unique == rules.unique && validator.Complete(entities)
      requires NamedParts(rules.trim, r.parts)
      modifies this`entities, this`missed, entityIndex, validator
      ensures ok <==> Each(SplitPart(rules, r.source), old(Content()), r.parts).Some?
      ensures Sane() && (ok ==> Each(SplitPart(rules, r.source), old(Content()), r.parts) == Some(Content()))
      ensures ok ==> validator.Complete(entities)
      ensures ok ==> missed == old(missed) + MissedParts(rules, tracker.entities.Keys, r.parts)
    {
      hide Sane, NamedParts, Validator.Complete, SplitPart, Replacement;
      ghost var before := Content();
      assert old(missed) + map[] == old(missed);
      for i := 0 to |r.parts|
        invariant Sane() && validator.Complete(entities)
        invariant missed == old(missed) + MissedParts(rules, tracker.entities.Keys, r.parts[..i])
        invariant Each(SplitPart(rules, r.source), before, r.parts[..i]) == Some(Content())
      {
        EachStep(SplitPart(rules, r.source), before, r.parts, i);
        assert r.parts[..i + 1][..i] == r.parts[..i];
        ok := SplitNth(r, i, validator);
        if !ok {
          return;
        }
      }
      assert r.parts[..|r.parts|] == r.parts;
      ok := true;
    }

    method SplitAll(splits: seq<Split>, validator: Validator) returns (ok: bool)
      requires (|splits| > 0 ==> entityIndex.Writes()) && Sane() && validator.unique == rules.unique && validator.Complete(entities) && NamedSplits(rules.trim, splits)
      modifies this`entities, this`edges, this`tracker, this`missed, edgeIndex, entityIndex, validator
      ensures ok <==> Each(SplittingEntity(rules), old(Content()), splits).Some?
      ensures Sane() && (ok ==> Each(SplittingEntity(rules), old(Content()), splits) == Some(Content()))
      ensures ok && AllMisspelled(rules.trim, splits, old(missed)) ==> AllMisspelled(rules.trim, splits, missed)
      ensures ok && TrimmedSplits(rules.trim, splits) ==> missed == old(missed)
    {
      hide Sane, SplitEntity, Validator.Complete, TrimmedParts, NamedParts, AllMisspelled, MissedParts, Raws;
      ghost var before := Content();
      for i := 0 to |splits|
        invariant Sane() && validator.Complete(entities)
        invariant AllMisspelled(rules.trim, splits, old(missed)) ==> AllMisspelled(rules.trim, splits, missed)
        invariant TrimmedSplits(rules.trim, splits) ==> missed == old(missed)
        invariant Each(SplittingEntity(rules), before, splits[..i]) == Some(Content())
      {
        assert splits[i] in splits;
        EachStep(SplittingEntity(rules), before, splits, i);
        ghost var known := missed;
        ok := SplitOne(splits[i], validator);
        if !ok {
          return;
        }
        SplitMisses(rules, tracker.entities.Keys, splits, splits[i], known, missed);
      }
      assert splits[..|splits|] == splits;
      ok := true;
    }

    /** The entity stages share one validator, made before the first of them. */
    method EntityChanges(m: Mutations) returns (ok: bool)
      requires (ImpactOf(m).entities ==> entityIndex.Writes()) && Sane() && Injective(rules.canonical) && NamedSplits(rules.trim, m.splitEntities)
      modifies this`entities, this`edges, this`tracker, this`missed, edgeIndex, entityIndex
      ensures ok <==> EntityStages(rules, old(Content()), m).Some?
      ensures ok ==> Sane() && EntityStages(rules, old(Content()), m) == Some(Content())
      ensures Coherent() && entityIndex.Isolated()
      ensures ok && AllMisspelled(rules.trim, m.splitEntities, old(missed)) ==> AllMisspelled(rules.trim, m.splitEntities, missed)
      ensures ok && TrimmedSplits(rules.trim, m.splitEntities) ==> missed == old(missed)
    {
      hide Coherent, EntityIndex.Agrees, EdgeIndex.Agrees, Injective, NamedSplits, TrimmedSplits, AllMisspelled, Each, Validator.Complete, EntityIndex.Isolated;
      var validator := new Validator(rules.unique);
      validator.UnpreparedIsComplete(entities);
      ok := UpsertEntities(m.upsertEntities, validator);
      if ok {
        ok := MarkAllStale(m.markStale, validator);
      }
      SaneIsolates();
      if ok {
        ok := MergeAll(m.mergeEntities, validator);
        if ok {
          ok := SplitAll(m.splitEntities, validator);
          SaneIsolates();
        }
      }
    }

    // ---------- edges ----------

    method UpsertEdgeOne(incoming: Edge) returns (ok: bool)
      requires Coherent()
      modifies this`edges, this`tracker, edgeIndex
      ensures ok <==> UpsertEdge(rules, old(Content()), incoming).Some?
      ensures Coherent() && (ok ==> UpsertEdge(rules, old(Content()), incoming) == Some(Content()))
    {
      if incoming.typ == "" || incoming.source == "" || incoming.target == "" {
        ok := false;
      } else {
        ok := UpsertNamedEdge(incoming);
      }
    }

    /** An edge that names its type and both ends. */
    method UpsertNamedEdge(incoming: Edge) returns (ok: bool)
      requires Coherent() && incoming.typ != "" && incoming.source != "" && incoming.target != ""
      modifies this`edges, this`tracker, edgeIndex
      ensures ok <==> UpsertEdge(rules, old(Content()), incoming).Some?
      ensures Coherent() && (ok ==> UpsertEdge(rules, old(Content()), incoming) == Some(Content()))
    {
      hide Coherent, Followed, Captured, Under, Canonicalized, MergedEdge, CanonicalId, UpsertEdge, EdgeOk, Conflict, NoConflict, StoredEdge;
      var e := Canonicalized(rules, incoming);
      UpsertedEdge(rules, Content(), incoming);
      TouchEdge(e.id);
      if !EdgeOk(relations, entities, e) {
        return false;
      }
      var stored := StoredEdge(rules, edges, e);
      StoreEdge(stored);
      ok := ConflictFree(stored);
    }

    method ConflictFree(e: Edge) returns (ok: bool)
      requires Coherent()
      ensures ok <==> NoConflict(Content(), e)
    {
      ok := ValidateCardinality(e);
    }

    method UpsertEdges(upserts: seq<Edge>) returns (ok: bool)
      requires Coherent()
      modifies this`edges, this`tracker, edgeIndex
      ensures ok <==> Each(UpsertingEdge(rules), old(Content()), upserts).Some?
      ensures Coherent() && (ok ==> Each(UpsertingEdge(rules), old(Content()), upserts) == Some(Content()))
    {
      hide Coherent, UpsertEdge;
      ghost var before := Content();
      for i := 0 to |upserts|
        invariant Coherent()
        invariant Each(UpsertingEdge(rules), before, upserts[..i]) == Some(Content())
      {
        EachStep(UpsertingEdge(rules), before, upserts, i);
        ok := UpsertEdgeOne(upserts[i]);
        if !ok {
          return;
        }
      }
      assert upserts[..|upserts|] == upserts;
      ok := true;
    }

    // ---------- the fingerprint ----------

    /** ensureContentFingerprint: from scratch. */
    method EnsureFingerprint()
      modifies this`fingerprint
      ensures IsFingerprint(base, Whole(), fingerprint)
    {
      var a := FoldAll(base.typeHash, types);
      var b := FoldAll(base.entityHash, entities);
      var c := FoldAll(base.relationHash, relations);
      var d := FoldAll(base.edgeHash, edges);
      fingerprint := Joint(a, b, c, d);
      assert FoldsTo(base, Whole(), a, b, c, d);
    }

    /** finish: exchange the entries of the captured keys, category by category. The fingerprint ends right
        if and only if the entries of the replacements that were missed cancel each other. */
    method Finish() returns (changed: bool)
      requires Follows(base, tracker, Assumed(start, missed), Whole()) && missed.Keys !! start.store.entities.Keys
      requires IsFingerprint(base, start, fingerprint)
      modifies this`fingerprint
      ensures IsFingerprint(base, Whole(), fingerprint) <==> IsFold(base.entityHash, missed, ZERO)
      ensures changed <==> ContentDiffers(base, Assumed(start, missed), Whole())
    {
      hide Joint, Xor, IsFold, Tracks, EntriesDiffer;
      ghost var known := Assumed(start, missed);
      ghost var a, b, c, d :| FoldsTo(base, start, a, b, c, d) && fingerprint == Joint(a, b, c, d);
      ghost var m := FoldOf(base.entityHash, missed);
      UnionFold(base.entityHash, start.store.entities, missed, b, m);
      ghost var a', b', c', d';
      var f, typesChanged, entitiesChanged, relationsChanged, edgesChanged;
      JointApart(a, b, c, d, m);
      f, typesChanged, a' := FinishCategory(base.typeHash, tracker.types, types, fingerprint, known.types, Xor(b, Xor(c, d)), a);
      JointApart(a', b, c, d, m);
      f, entitiesChanged, b' := FinishCategory(base.entityHash, tracker.entities, entities, f, known.store.entities, Xor(Xor(a', Xor(c, d)), m), Xor(b, m));
      LostApart(a', b', c, d, m);
      f, relationsChanged, c' := FinishCategory(base.relationHash, tracker.relations, relations, f, start.store.relations, Xor(Xor(Xor(a', b'), d), m), c);
      LostApart(a', b', c', d, m);
      f, edgesChanged, d' := FinishCategory(base.edgeHash, tracker.edges, edges, f, start.store.edges, Xor(Xor(Xor(a', b'), c'), m), d);
      LostApart(a', b', c', d', m);
      fingerprint := f;
      changed := typesChanged || entitiesChanged || relationsChanged || edgesChanged;
      assert FoldsTo(base, Whole(), a', b', c', d');
      LostShows(base, Whole(), fingerprint, Joint(a', b', c', d'), missed, m);
      TrackedDiffer(base.typeHash, tracker.types, start.types, types);
      TrackedDiffer(base.entityHash, tracker.entities, known.store.entities, entities);
      TrackedDiffer(base.relationHash, tracker.relations, start.store.relations, relations);
      TrackedDiffer(base.edgeHash, tracker.edges, start.store.edges, edges);
    }

    // ---------- the content hash ----------

    /** The refresh that ends finish. */
    method Refresh()
      requires cache.Some? && CacheOf(base, cache.value, publishedBlocks, start)
      modifies this`cache
      ensures cache.Some? && CacheOf(base, cache.value, publishedBlocks, RefreshedState(start, Whole(), tracker))
    {
      hide CacheFor, Refreshed;
      var next := RefreshCache(base.logical, cache.value, tracker.types.Keys, tracker.entities.Keys, tracker.relations.Keys, tracker.edges.Keys,
        types, entities, relations, edges, publishedBlocks, start.types, start.store.entities, start.store.relations, start.store.edges);
      cache := Some(next);
    }

    /** ContentHashWithLogicalSize: the digest and the size of a fresh build, from a cache made once and
        refreshed by commits. */
    method ContentHash() returns (digest: string, bytes: int)
      requires Cached()
      modifies this`cache
      ensures Cached() && cache.Some? && CacheOf(base, cache.value, publishedBlocks, Whole())
      ensures digest == FinalDigest(base.logical, CacheViews(cache.value))
      ensures bytes == TotalSize(base.logical, types, entities, relations, edges)
    {
      hide Caches, TotalSize, FinalDigest;
      if cache.None? {
        var built := BuildCache(base.logical, types, entities, relations, edges);
        cache := Some(built);
      }
      var c := cache.value;
      if !c.ready {
        c := c.(digest := FinalDigest(base.logical, CacheViews(c)), ready := true);
        cache := Some(c);
      }
      digest, bytes := c.digest, c.bytes;
    }

    // ---------- the commit ----------

    method Stages(m: Mutations) returns (ok: bool)
      requires Sane() && Covers(impact, m) && Lawful(base) && NamedSplits(base.trim, m.splitEntities)
      modifies this`types, this`rules, this`entities, this`edges, this`relations, this`tracker, this`missed, edgeIndex, entityIndex
      ensures ok <==> GraphReference.Commit(base, old(Whole()), m).Some?
      ensures ok ==> Sane() && GraphReference.Commit(base, old(Whole()), m) == Some(Whole())
      ensures Isolated()
      ensures ok && AllMisspelled(base.trim, m.splitEntities, old(missed)) ==> AllMisspelled(base.trim, m.splitEntities, missed)
      ensures ok && TrimmedSplits(base.trim, m.splitEntities) ==> missed == old(missed)
    {
      hide Followed, EntityIndex.Agrees, Injective, Apart, NamedSplits, TrimmedSplits, AllMisspelled, DeleteStages, DeleteRelations, UpsertRelations, ChangeTypes, EntityStages, Each, Under, EdgeIndex.Isolated, EntityIndex.Isolated;
      StageRules(base, types);
      ok := Deletes(m);
      if ok {
        ok := DeleteRelationTypes(m.deleteRelationTypes);
      }
      SaneIsolates();
      if ok {
        ok := ChangeKinds(m.deleteCITypes, m.upsertCITypes);
        if ok {
          StageRules(base, types);
          ok := UpsertRelationTypes(m.upsertRelationTypes);
          if ok {
            ok := EntityChanges(m);
          }
          if ok {
            ok := UpsertEdges(m.upsertEdges);
          }
        }
      }
      EdgesIsolate();
    }

    /** applyMutations on a private copy: accepted exactly when the reference accepts, with the content
        the reference gives and indexes that a rebuild would give. The fingerprint is that of the content if
        and only if the entries of the missed replacements cancel; none is missed when every replacement is
        spelled as it is stored. The hash cache is that of a fresh build if and only if the missed ones were
        all touched later. On failure the caller discards the copy. */
    method Commit(m: Mutations) returns (ok: bool, changed: bool)
      requires Sane() && Covers(impact, m) && Lawful(base) && NamedSplits(base.trim, m.splitEntities)
      requires IsFingerprint(base, Whole(), fingerprint) && Cached()
      modifies this, edgeIndex, entityIndex
      ensures ok <==> GraphReference.Commit(base, old(Whole()), m).Some?
      ensures ok ==> Sane() && GraphReference.Commit(base, old(Whole()), m) == Some(Whole())
      ensures Isolated() && BlocksIsolated()
      ensures ok ==> AllMisspelled(base.trim, m.splitEntities, missed) && missed.Keys !! old(entities).Keys
      ensures ok && TrimmedSplits(base.trim, m.splitEntities) ==> missed == map[]
      ensures ok ==> (IsFingerprint(base, Whole(), fingerprint) <==> IsFold(base.entityHash, missed, ZERO))
      ensures ok ==> (changed <==> ContentDiffers(base, Assumed(old(Whole()), missed), Whole()))
      ensures ok ==> Follows(base, tracker, Assumed(old(Whole()), missed), Whole())
      ensures ok && changed ==> (Cached() <==> cache.None? || missed.Keys <= tracker.entities.Keys)
      ensures ok && !changed && missed == map[] && Discerning(base) ==> Cached()
      ensures ok && GoodGraph(base, old(Whole())) ==> GoodGraph(base, Whole())
    {
      hide Sane, Lawful, NamedSplits, TrimmedSplits, AllMisspelled, IsFingerprint, ContentDiffers, Each, GoodGraph, Follows, IsFold, GraphReference.Commit, CacheOf, Isolated, Discerning, RefreshedState, SeenBlocks;
      changed := false;
      CachedIsolates();
      Begin();
      NoneMisspelled(base.trim, m.splitEntities);
      ok := Stages(m);
      if ok {
        if GoodGraph(base, old(Whole())) {
          CommitKeepsGood(base, old(Whole()), m);
        }
        changed := End();
        CacheEnds(old(Whole()), changed);
      }
    }

    lemma CachedIsolates()
      requires Cached()
      ensures BlocksIsolated()
    {
      if cache.Some? {
        CacheForIsolates(base.logical, cache.value, publishedBlocks, types, entities, relations, edges);
      }
    }

    /** What the cache is once a commit has ended. */
    lemma CacheEnds(before: State, changed: bool)
      requires Follows(base, tracker, Assumed(before, missed), Whole()) && missed.Keys !! before.store.entities.Keys
      requires changed <==> ContentDiffers(base, Assumed(before, missed), Whole())
      requires cache.None? ==> publishedBlocks == NO_BLOCKS
      requires cache.Some? ==> CacheOf(base, cache.value, publishedBlocks, if changed then RefreshedState(before, Whole(), tracker) else before)
      ensures changed ==> (Cached() <==> cache.None? || missed.Keys <= tracker.entities.Keys)
      ensures !changed && missed == map[] && Discerning(base) ==> Cached()
      ensures BlocksIsolated()
    {
      hide Follows, ContentDiffers, CacheFor, Discerning, RefreshedState, SeenBlocks;
      if cache.Some? {
        if changed {
          RefreshIsExact(base, tracker, before, missed, Whole(), cache.value, publishedBlocks);
          StateIsolates(RefreshedState(before, Whole(), tracker));
        } else {
          StateIsolates(before);
          AssumedNothing(base, before);
          if missed == map[] && Discerning(base) {
            UnchangedIsCached(base, cache.value, publishedBlocks, before, Whole());
          }
        }
      }
    }

    lemma StateIsolates(s: State)
      requires cache.Some? && CacheOf(base, cache.value, publishedBlocks, s)
      ensures SeenBlocks(cache.value) == publishedBlocks
    {
      CacheForIsolates(base.logical, cache.value, publishedBlocks, s.types, s.store.entities, s.store.relations, s.store.edges);
    }

    /** newMutationFingerprintTracker. */
    method Begin()
      requires Sane()
      modifies this`tracker, this`start, this`missed
      ensures Sane() && missed == map[] && start == Whole() && tracker == UNTOUCHED
    {
      hide EdgeIndex.Agrees, EntityIndex.Agrees, EdgesKeyed, EntitiesKeyed, Under, Follows;
      NothingTracked();
      tracker, start, missed := UNTOUCHED, Whole(), map[];

    }

    method End() returns (changed: bool)
      requires Sane() && IsFingerprint(base, start, fingerprint) && (cache.Some? ==> CacheOf(base, cache.value, publishedBlocks, start))
      modifies this`fingerprint, this`cache
      ensures Sane() && missed.Keys !! start.store.entities.Keys
      ensures IsFingerprint(base, Whole(), fingerprint) <==> IsFold(base.entityHash, missed, ZERO)
      ensures changed <==> ContentDiffers(base, Assumed(start, missed), Whole())
      ensures Follows(base, tracker, Assumed(start, missed), Whole())
      ensures cache.Some? <==> old(cache).Some?
      ensures cache.Some? ==> CacheOf(base, cache.value, publishedBlocks, if changed then RefreshedState(start, Whole(), tracker) else start)
    {
      hide EdgeIndex.Agrees, EntityIndex.Agrees, EdgesKeyed, EntitiesKeyed, IsFingerprint, ContentDiffers, Under, IsFold, CacheFor, RefreshedState;
      changed := Finish();
      if changed && cache.Some? {
        Refresh();
      }
    }

    /** The steps of a commit of one split whose replacement is spelled otherwise than it is stored, " b" for
        "b" say: afterwards the fingerprint is wrong, unless the replacement's entry has no ones at all. */
    method SplitMisspelled(source: string, part: Part) returns (changed: bool)
      requires Sane() && entityIndex.Writes() && IsFingerprint(base, Whole(), fingerprint) && cache.None?
      requires SplitEntity(rules, Content(), Split(source, [part])).Some? && rules.trim(part.raw) !in {"", part.raw, source}
      modifies this, edgeIndex, entityIndex
      ensures Sane() && SplitEntity(rules, old(Content()), Split(source, [part])) == Some(Content())
      ensures var e := Replacement(rules, part);
        e.Some? && (IsFingerprint(base, Whole(), fingerprint) <==> base.entityHash(e.value.id, e.value) == ZERO)
    {
      hide Coherent, EntityIndex.Agrees, EdgeIndex.Agrees, IsFingerprint, IsFold, ContentDiffers, Follows, SplitEntity, Under, Validator.Complete, MissedParts, Raws, Replacement;
      OneReplaced(rules, Content(), source, part);
      Begin();
      var validator := new Validator(rules.unique);
      validator.UnpreparedIsComplete(entities);
      var ok := SplitOne(Split(source, [part]), validator);
      assert missed == map[] + MissedParts(rules, tracker.entities.Keys, [part]) == MissedParts(rules, tracker.entities.Keys, [part]);
      OneMissed(rules, base, tracker.entities.Keys, source, part);
      changed := End();
    }

    /** The loop of ApplyCommitBatchStorageCopyWithOptions: a successful batch is its commits one at a time,
        each of which changed something; at the first that fails or changes nothing the copy is discarded.
        Either way readers of the graph it was copied from find the indexes they had. */
    method ApplyBatch(commits: seq<Mutations>) returns (ok: bool)
      requires Sane() && Lawful(base) && IsFingerprint(base, Whole(), fingerprint) && Cached()
      requires forall m :: m in commits ==> TrimmedSplits(base.trim, m.splitEntities) && Covers(impact, m)
      modifies this, edgeIndex, entityIndex
      ensures ok <==> AllChange(base, old(Whole()), commits)
      ensures ok ==> Sane() && Each(Committing(base), old(Whole()), commits) == Some(Whole())
      ensures ok ==> IsFingerprint(base, Whole(), fingerprint) && Cached()
      ensures Isolated() && BlocksIsolated()
    {
      hide Coherent, EntityIndex.Agrees, Lawful, TrimmedSplits, NamedSplits, IsFingerprint, ContentDiffers, Follows, GraphReference.Commit, IsFold, Covers, Isolated, Cached, BlocksIsolated;
      ghost var before := Whole();
      GraphIsolates();
      CachedIsolates();
      for i := 0 to |commits|
        invariant Sane() && IsFingerprint(base, Whole(), fingerprint) && Cached() && Isolated() && BlocksIsolated()
        invariant AllChange(base, before, commits[..i]) && Each(Committing(base), before, commits[..i]) == Some(Whole())
      {
        assert commits[i] in commits;
        TrimmedAreNamed(base.trim, commits[i].splitEntities);
        EachStep(Committing(base), before, commits, i);
        assert commits[..i + 1][..i] == commits[..i];
        ghost var now := Whole();
        var changed;
        ok, changed := Commit(commits[i]);
        AssumedNothing(base, now);
        if !ok || !changed {
          AllChangePrefix(base, before, commits, i + 1);
          return false;
        }
      }
      assert commits[..|commits|] == commits;
      ok := true;
    }

    /** ApplyCommitBatchStorageCopyWithOptions on a published graph: nothing of the graph changes, its readers
        find the indexes it had, and the copy is the graph after the batch. */
    method ApplyCommits(commits: seq<Mutations>) returns (ok: bool, next: Graph)
      requires Sane() && Lawful(base) && IsFingerprint(base, Whole(), fingerprint) && Cached()
      requires forall m :: m in commits ==> TrimmedSplits(base.trim, m.splitEntities)
      ensures ok <==> AllChange(base, Whole(), commits)
      ensures ok ==> next.Sane() && Each(Committing(base), Whole(), commits) == Some(next.Whole()) && next.base == base
      ensures ok ==> IsFingerprint(base, next.Whole(), next.fingerprint) && next.Cached()
      ensures commits != [] && next.cache.Some? ==> SeenBlocks(next.cache.value) == BlockViews()
      ensures commits != [] ==> next.edgeIndex.SeenByReaders() == edgeIndex.Views() && next.entityIndex.SeenByReaders() == entityIndex.Views()
    {
      hide Coherent, EntityIndex.Agrees, Lawful, TrimmedSplits, IsFingerprint, AllChange, Committing, Covers, ImpactOfAll, EdgeIndex.Views, EntityIndex.Views, EdgeIndex.SeenByReaders, EntityIndex.SeenByReaders, Cached, BlockViews, SeenBlocks;
      if commits == [] {
        NoCommits(base, Whole());
        return true, this;
      }
      next := new Graph.Copy(this, ImpactOfAll(commits));
      forall m | m in commits ensures Covers(ImpactOfAll(commits), m) {
        BatchCovers(commits, m);
      }
      ok := next.ApplyBatch(commits);
    }
  }
}
