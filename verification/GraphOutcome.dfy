/** What a whole commit does to one entity or one edge: how it can come, go and change, and that everything the commit does
    not name stays as it was (internal/graph/apply.go). */
module GraphOutcomes {
  import opened GraphModel
  import opened GraphReference
  import opened GraphConsistency
  import opened CommitSteps
  import opened GraphPieces
  import opened GraphEffects
  import opened GraphWrites
  import opened GraphMerges
  import opened Schemas

  // ---------- what a request is about ----------

  /** The commit may store an entity under an identity that no entity has. */
  ghost predicate Creates(base: Base, m: Mutations, id: string) {
    || (exists u :: u in m.upsertEntities && (u.entity.id == id || u.generated == id))
    || (exists r, part :: r in m.splitEntities && part in r.parts && base.trim(part.raw) == id)
  }

  /** It asks for the entity to go. */
  ghost predicate Takes(base: Base, s: State, m: Mutations, id: string)
    requires id in s.store.entities
  {
    var e := s.store.entities[id];
    || (exists ref :: ref in m.deleteEntities && EntityNamed(s.store.entities, ref, id))
    || (exists r :: r in m.deleteEntityRequests && Requested(base, s, r, id))
    || (exists st :: st in m.markStale && st.deletes && Missed(st, e) && e.rank <= st.rank)
    || (exists r :: r in m.mergeEntities && id in r.sources && id != r.target)
    || (exists r :: r in m.splitEntities && r.source == id)
  }

  ghost predicate Requested(base: Base, s: State, r: EntityDelete, id: string)
    requires id in s.store.entities
  {
    s.store.entities[id].rank <= r.rank &&
    match r
    case ByEntity(ref, _) => EntityNamed(s.store.entities, ref, id)
    case ByIdentity(kind, signature, _) => Owns(base, s.types, s.store.entities, kind, signature, id)
  }

  /** It asks for the entity to change. */
  ghost predicate Rewrites(base: Base, s: State, m: Mutations, id: string)
    requires id in s.store.entities
  {
    || (exists u :: u in m.upsertEntities && IsAbout(base, s.types, s.store.entities, u, id))
    || (exists st :: st in m.markStale && !st.deletes && Missed(st, s.store.entities[id]))
    || (exists r :: r in m.mergeEntities && r.target == id)
  }

  /** It asks for an edge with these ends, or moves one there, to the target of a merge. */
  ghost predicate Attaches(edges: Edges, m: Mutations, e: Ends) {
    || (exists x :: x in m.upsertEdges && EndsOf(x) == e)
    || (exists r, b :: r in m.mergeEntities && b in edges && MovesTo(edges[b], r, e))
  }

  predicate MovesTo(b: Edge, r: Merge, e: Ends) {
    && e.typ == b.typ
    && e.source == (if b.source in Folding(r.target, r.sources) then r.target else b.source)
    && e.target == (if b.target in Folding(r.target, r.sources) then r.target else b.target)
    && (r.target == e.source || r.target == e.target)
  }

  /** It asks for the edge to go, or for an entity at one of its ends. */
  ghost predicate TakesEdge(base: Base, s: State, m: Mutations, k: string)
    requires k in s.store.edges
  {
    var e := s.store.edges[k];
    || (exists ref :: ref in m.deleteEdges && EdgeNamed(s.store.edges, ref, k))
    || (exists r :: r in m.deleteEdgeRequests && RequestedEdge(s.store.edges, r, k))
    || e.typ in m.deleteRelationTypes
    || (e.source in s.store.entities && Takes(base, s, m, e.source))
    || (e.target in s.store.entities && Takes(base, s, m, e.target))
  }

  predicate RequestedEdge(edges: Edges, r: EdgeDelete, k: string)
    requires k in edges
  {
    edges[k].rank <= r.rank &&
    match r
    case ByReference(ref, _) => EdgeNamed(edges, ref, k)
    case ByEndpoints(typ, source, target, _) => EndsOf(edges[k]) == Ends(typ, source, target)
  }

  // ---------- one piece ----------

  /** How two graphs differ: every difference was asked for. */
  ghost predicate Asked(base: Base, s: State, m: Mutations, after: State) {
    && (forall id :: id in after.store.entities && id !in s.store.entities ==> Creates(base, m, id))
    && (forall id :: id in s.store.entities && id !in after.store.entities ==> Takes(base, s, m, id))
    && (forall id :: id in s.store.entities && id in after.store.entities && s.store.entities[id] != after.store.entities[id] ==> Rewrites(base, s, m, id))
    && (forall k :: k in s.store.edges && k !in after.store.edges ==> TakesEdge(base, s, m, k))
    && (forall k :: k in after.store.edges && !(k in s.store.edges && s.store.edges[k] == after.store.edges[k]) ==> Attaches(s.store.edges, m, EndsOf(after.store.edges[k])))
  }

  /** Only edges that were asked for are gone. */
  lemma EdgesAsked(base: Base, s: State, m: Mutations, after: State)
    requires after.store == s.store.(edges := after.store.edges)
    requires forall k :: k in after.store.edges ==> k in s.store.edges && s.store.edges[k] == after.store.edges[k]
    requires forall k :: k in s.store.edges && k !in after.store.edges ==> TakesEdge(base, s, m, k)
    ensures Asked(base, s, m, after)
  {
    hide Takes, TakesEdge, Rewrites, Creates, Attaches;
  }

  lemma EdgeDeleteAsked(base: Base, s: State, ref: string)
    requires Commit(base, s, NOTHING.(deleteEdges := [ref])).Some?
    ensures Asked(base, s, NOTHING.(deleteEdges := [ref]), Commit(base, s, NOTHING.(deleteEdges := [ref])).value)
  {
    hide Commit, Asked, Takes;
    var m := NOTHING.(deleteEdges := [ref]);
    EdgeDeleteEffect(base, s.types, s.store, ref);
    var after := Commit(base, s, m).value;
    forall k | k in s.store.edges && k !in after.store.edges ensures TakesEdge(base, s, m, k) {
      assert ref in m.deleteEdges;
    }
    EdgesAsked(base, s, m, after);
  }

  lemma EdgeRequestAsked(base: Base, s: State, r: EdgeDelete)
    requires Injective(base.canonical) && EdgesKeyed(base.canonical, s.store.edges)
    requires Commit(base, s, NOTHING.(deleteEdgeRequests := [r])).Some?
    ensures Asked(base, s, NOTHING.(deleteEdgeRequests := [r]), Commit(base, s, NOTHING.(deleteEdgeRequests := [r])).value)
  {
    hide Commit, Asked, Takes, EdgesKeyed, Injective;
    var m := NOTHING.(deleteEdgeRequests := [r]);
    match r {
      case ByReference(ref, rank) => EdgeRequestEffect(base, s.types, s.store, ref, rank);
      case ByEndpoints(typ, source, target, rank) => EdgeBetweenEffect(base, s.types, s.store, typ, source, target, rank);
    }
    var after := Commit(base, s, m).value;
    forall k | k in s.store.edges && k !in after.store.edges ensures TakesEdge(base, s, m, k) {
      assert r in m.deleteEdgeRequests;
    }
    EdgesAsked(base, s, m, after);
  }

  lemma RelationsAsked(base: Base, s: State, names: seq<string>)
    requires Commit(base, s, NOTHING.(deleteRelationTypes := names)).Some?
    ensures Asked(base, s, NOTHING.(deleteRelationTypes := names), Commit(base, s, NOTHING.(deleteRelationTypes := names)).value)
  {
    hide Commit, Takes;
    RelationDeleteEffect(base, s.types, s.store, names);
  }

  /** Entities that go with their edges, and nothing else. */
  lemma GoneAsked(base: Base, s: State, m: Mutations, goes: string -> bool)
    requires EdgesOk(s.store.relations, s.store.entities, s.store.edges)
    requires forall id :: id in s.store.entities && goes(id) ==> Takes(base, s, m, id)
    ensures Asked(base, s, m, State(s.types, Gone(s.store, goes)))
  {
    hide Takes, Rewrites, Creates, Attaches;
    var after := Gone(s.store, goes);
    forall k | k in s.store.edges && k !in after.edges ensures TakesEdge(base, s, m, k) {
      assert EdgeOk(s.store.relations, s.store.entities, s.store.edges[k]);
    }
  }

  lemma EntityDeleteAsked(base: Base, s: State, ref: string)
    requires GoodGraph(base, s) && Commit(base, s, NOTHING.(deleteEntities := [ref])).Some?
    ensures Asked(base, s, NOTHING.(deleteEntities := [ref]), Commit(base, s, NOTHING.(deleteEntities := [ref])).value)
  {
    hide Commit, Asked, Under, Gone;
    var m := NOTHING.(deleteEntities := [ref]);
    EntityDeleteEffect(base, s.types, s.store, ref);
    assert ref in m.deleteEntities;
    GoneAsked(base, s, m, k => OnlyEntityNamed(s.store.entities, ref, k));
  }

  lemma EntityRequestAsked(base: Base, s: State, r: EntityDelete)
    requires GoodGraph(base, s) && Commit(base, s, NOTHING.(deleteEntityRequests := [r])).Some?
    ensures Asked(base, s, NOTHING.(deleteEntityRequests := [r]), Commit(base, s, NOTHING.(deleteEntityRequests := [r])).value)
  {
    hide Commit, Asked, Under, Gone, Owns;
    var m := NOTHING.(deleteEntityRequests := [r]);
    assert r in m.deleteEntityRequests;
    match r {
      case ByEntity(ref, rank) =>
        EntityRequestEffect(base, s.types, s.store, ref, rank);
        var goes := (k: string) => OnlyEntityNamed(s.store.entities, ref, k) && s.store.entities[k].rank <= rank;
        GoneAsked(base, s, m, goes);
        assert Commit(base, s, m).value == State(s.types, Gone(s.store, goes));
      case ByIdentity(kind, signature, rank) =>
        EntityIdentityEffect(base, s.types, s.store, kind, signature, rank);
        OwnsStored(base, s, kind, signature);
        var goes := (k: string) => Owns(base, s.types, s.store.entities, kind, signature, k) && s.store.entities[k].rank <= rank;
        GoneAsked(base, s, m, goes);
        assert Commit(base, s, m).value == State(s.types, Gone(s.store, goes));
    }
  }

  lemma OwnsStored(base: Base, s: State, kind: string, signature: string)
    ensures forall id :: Owns(base, s.types, s.store.entities, kind, signature, id) ==> id in s.store.entities
  {
  }

  lemma TypesAsked(base: Base, s: State, m: Mutations, after: State)
    requires after.store.entities == s.store.entities && after.store.edges == s.store.edges
    ensures Asked(base, s, m, after)
  {
  }

  lemma RelationUpsertAsked(base: Base, s: State, defined: seq<RelationType>)
    requires GoodGraph(base, s) && Commit(base, s, NOTHING.(upsertRelationTypes := defined)).Some?
    ensures Asked(base, s, NOTHING.(upsertRelationTypes := defined), Commit(base, s, NOTHING.(upsertRelationTypes := defined)).value)
  {
    hide Commit, Asked, Under, RelationsRedefined, Good;
    RelationUpsertEffect(base, s.types, s.store, defined);
    TypesAsked(base, s, NOTHING.(upsertRelationTypes := defined), Commit(base, s, NOTHING.(upsertRelationTypes := defined)).value);
  }

  lemma KindChangeAsked(base: Base, s: State, deletes: seq<string>, upserts: seq<NamedType>)
    requires GoodGraph(base, s) && Apart(base) && Commit(base, s, NOTHING.(deleteCITypes := deletes, upsertCITypes := upserts)).Some?
    ensures Asked(base, s, NOTHING.(deleteCITypes := deletes, upsertCITypes := upserts), Commit(base, s, NOTHING.(deleteCITypes := deletes, upsertCITypes := upserts)).value)
  {
    hide Commit, Asked, GoodGraph, ChangeTypes;
    OneKindChange(base, s.types, s.store, deletes, upserts);
    TypesAsked(base, s, NOTHING.(deleteCITypes := deletes, upsertCITypes := upserts),
      Commit(base, s, NOTHING.(deleteCITypes := deletes, upsertCITypes := upserts)).value);
  }

  lemma UpsertAsked(base: Base, s: State, u: Upsert)
    requires GoodGraph(base, s) && Commit(base, s, NOTHING.(upsertEntities := [u])).Some?
    ensures Asked(base, s, NOTHING.(upsertEntities := [u]), Commit(base, s, NOTHING.(upsertEntities := [u])).value)
  {
    hide Commit, Under, Good, Distinguished, Takes, Attaches, IsAbout;
    var m := NOTHING.(upsertEntities := [u]);
    UpsertEffect(base, s.types, s.store, u);
    var after := Commit(base, s, m).value;
    var target, value :| Stores(base, s.types, s.store.entities, u, target, value) && after == State(s.types, s.store.(entities := s.store.entities[target := value]));
    AboutNew(base, s, u, target);
    assert u in m.upsertEntities;
  }

  lemma AboutNew(base: Base, s: State, u: Upsert, target: string)
    requires IsAbout(base, s.types, s.store.entities, u, target)
    ensures target in s.store.entities || u.entity.id == target || u.generated == target
  {
  }

  lemma StaleAsked(base: Base, s: State, st: Stale)
    requires GoodGraph(base, s) && Commit(base, s, NOTHING.(markStale := [st])).Some?
    ensures Asked(base, s, NOTHING.(markStale := [st]), Commit(base, s, NOTHING.(markStale := [st])).value)
  {
    hide Commit, Under, Gone, GoodGraph;
    var m := NOTHING.(markStale := [st]);
    assert st in m.markStale;
    StaleEffect(base, s.types, s.store, st);
    if st.deletes {
      GoodEdges(base, s);
      hide Asked;
      GoneAsked(base, s, m, k => k in s.store.entities && Missed(st, s.store.entities[k]) && s.store.entities[k].rank <= st.rank);
    }
  }

  lemma GoodEdges(base: Base, s: State)
    requires GoodGraph(base, s)
    ensures EdgesOk(s.store.relations, s.store.entities, s.store.edges) && EdgesKeyed(base.canonical, s.store.edges) && EntitiesKeyed(s.store.entities)
    ensures Good(Under(base, s.types), s.store)
  {
  }

  lemma EdgeUpsertAsked(base: Base, s: State, e: Edge)
    requires GoodGraph(base, s) && Injective(base.canonical) && Commit(base, s, NOTHING.(upsertEdges := [e])).Some?
    ensures Asked(base, s, NOTHING.(upsertEdges := [e]), Commit(base, s, NOTHING.(upsertEdges := [e])).value)
  {
    hide Commit, Under, GoodGraph, Takes, Creates, Rewrites;
    var m := NOTHING.(upsertEdges := [e]);
    GoodEdges(base, s);
    EdgeUpsertEffect(base, s.types, s.store, e);
    assert e in m.upsertEdges;
  }

  lemma SplitAsked(base: Base, s: State, r: Split)
    requires GoodGraph(base, s) && NamedParts(base.trim, r.parts) && Commit(base, s, NOTHING.(splitEntities := [r])).Some?
    ensures Asked(base, s, NOTHING.(splitEntities := [r]), Commit(base, s, NOTHING.(splitEntities := [r])).value)
  {
    hide Commit, Under, GoodGraph, Replaced, Rewrites;
    var m := NOTHING.(splitEntities := [r]);
    GoodEdges(base, s);
    SplitEffect(base, s.types, s.store, r);
    assert r in m.splitEntities;
    var after := Commit(base, s, m).value;
    forall k | k in s.store.edges && k !in after.store.edges ensures TakesEdge(base, s, m, k) {
      assert EdgeOk(s.store.relations, s.store.entities, s.store.edges[k]);
    }
    forall id | id in after.store.entities && id !in s.store.entities ensures Creates(base, m, id) {
      var part :| part in r.parts && base.trim(part.raw) == id;
    }
  }

  lemma MergeAsked(base: Base, s: State, r: Merge)
    requires GoodGraph(base, s) && Injective(base.canonical) && Commit(base, s, NOTHING.(mergeEntities := [r])).Some?
    ensures Asked(base, s, NOTHING.(mergeEntities := [r]), Commit(base, s, NOTHING.(mergeEntities := [r])).value)
  {
    hide Commit, Under, GoodGraph, Moves, Folded, Creates, EdgesKeyed, EdgesOk, Injective, TakesEdge, Attaches;
    var m := NOTHING.(mergeEntities := [r]);
    GoodEdges(base, s);
    MergeEffect(base, s.types, s.store, r);
    assert r in m.mergeEntities;
    var after, to := Commit(base, s, m).value, MovedAll(s.store.edges, Folding(r.target, r.sources), r.target);
    forall k | k in s.store.edges && k !in after.store.edges ensures TakesEdge(base, s, m, k) {
      MovedAway(base, s, r, after.store.edges, k);
    }
    forall k | k in after.store.edges && !(k in s.store.edges && s.store.edges[k] == after.store.edges[k]) ensures Attaches(s.store.edges, m, EndsOf(after.store.edges[k])) {
      MovedHere(base, s, r, after.store.edges, k);
    }
  }

  lemma MovedAway(base: Base, s: State, r: Merge, after: Edges, k: string)
    requires EdgesOk(s.store.relations, s.store.entities, s.store.edges) && EdgesKeyed(base.canonical, s.store.edges)
    requires Moves(base.canonical, s.store.edges, MovedAll(s.store.edges, Folding(r.target, r.sources), r.target), after)
    requires k in s.store.edges && k !in after
    ensures TakesEdge(base, s, NOTHING.(mergeEntities := [r]), k)
  {
    hide EdgesKeyed, Lands, EdgeNamed, RequestedEdge, Arrives, Alone;
    var m := NOTHING.(mergeEntities := [r]);
    assert r in m.mergeEntities && EdgeOk(s.store.relations, s.store.entities, s.store.edges[k]);
    var to := MovedAll(s.store.edges, Folding(r.target, r.sources), r.target);
    OwnKey(base.canonical, s.store.edges, k);
    LandsAt(base.canonical, to, after, k);
    assert to[k] != EndsOf(s.store.edges[k]);
  }

  lemma MovedHere(base: Base, s: State, r: Merge, after: Edges, k: string)
    requires Injective(base.canonical) && EdgesKeyed(base.canonical, s.store.edges)
    requires Moves(base.canonical, s.store.edges, MovedAll(s.store.edges, Folding(r.target, r.sources), r.target), after)
    requires k in after && !(k in s.store.edges && s.store.edges[k] == after[k])
    ensures Attaches(s.store.edges, NOTHING.(mergeEntities := [r]), EndsOf(after[k]))
  {
    hide EdgesKeyed, Injective, Lands;
    var m := NOTHING.(mergeEntities := [r]);
    assert r in m.mergeEntities;
    var edges, to := s.store.edges, MovedAll(s.store.edges, Folding(r.target, r.sources), r.target);
    var b := ComesFrom(base.canonical, to, after, k);
    var e := EndsOf(after[k]);
    if to[b] == EndsOf(edges[b]) {
      OwnKey(base.canonical, edges, b);
      assert b == k && !Alone(to, b);
      var c :| c in to && c != b && to[c] == to[b];
      OwnKey(base.canonical, edges, c);
      assert to[c] != EndsOf(edges[c]);
      assert MovesTo(edges[c], r, e);
    } else {
      assert MovesTo(edges[b], r, e);
    }
  }

  lemma ComesFrom(canonical: Naming, to: map<string, Ends>, after: Edges, x: string) returns (b: string)
    requires Lands(canonical, to, after) && x in after
    ensures b in to && x == KeyOf(canonical, to[b]) && EndsOf(after[x]) == to[b]
  {
    b :| b in to && x == KeyOf(canonical, to[b]);
  }

  // ---------- the pieces of a commit ----------

  /** A piece has one item, or is about types. */
  ghost predicate IsPiece(p: Mutations) {
    || (|p.deleteEdges| == 1 && p == NOTHING.(deleteEdges := [p.deleteEdges[0]]))
    || (|p.deleteEdgeRequests| == 1 && p == NOTHING.(deleteEdgeRequests := [p.deleteEdgeRequests[0]]))
    || (|p.deleteEntityRequests| == 1 && p == NOTHING.(deleteEntityRequests := [p.deleteEntityRequests[0]]))
    || (|p.deleteEntities| == 1 && p == NOTHING.(deleteEntities := [p.deleteEntities[0]]))
    || p == NOTHING.(deleteRelationTypes := p.deleteRelationTypes)
    || p == NOTHING.(deleteCITypes := p.deleteCITypes, upsertCITypes := p.upsertCITypes)
    || p == NOTHING.(upsertRelationTypes := p.upsertRelationTypes)
    || (|p.upsertEntities| == 1 && p == NOTHING.(upsertEntities := [p.upsertEntities[0]]))
    || (|p.markStale| == 1 && p == NOTHING.(markStale := [p.markStale[0]]))
    || (|p.mergeEntities| == 1 && p == NOTHING.(mergeEntities := [p.mergeEntities[0]]))
    || (|p.splitEntities| == 1 && p == NOTHING.(splitEntities := [p.splitEntities[0]]))
    || (|p.upsertEdges| == 1 && p == NOTHING.(upsertEdges := [p.upsertEdges[0]]))
  }

  /** It asks for nothing the commit does not. */
  ghost predicate Within(p: Mutations, m: Mutations) {
    && (forall x :: x in p.deleteEdges ==> x in m.deleteEdges)
    && (forall x :: x in p.deleteEdgeRequests ==> x in m.deleteEdgeRequests)
    && (forall x :: x in p.deleteEntityRequests ==> x in m.deleteEntityRequests)
    && (forall x :: x in p.deleteEntities ==> x in m.deleteEntities)
    && (forall x :: x in p.deleteRelationTypes ==> x in m.deleteRelationTypes)
    && (forall x :: x in p.upsertEntities ==> x in m.upsertEntities)
    && (forall x :: x in p.markStale ==> x in m.markStale)
    && (forall x :: x in p.mergeEntities ==> x in m.mergeEntities)
    && (forall x :: x in p.splitEntities ==> x in m.splitEntities)
    && (forall x :: x in p.upsertEdges ==> x in m.upsertEdges)
  }

  /** The piece that changes kinds. */
  function KindsAt(m: Mutations): nat {
    |Deletes(m)| + 1
  }

  ghost predicate ArePieces(pieces: seq<Mutations>, m: Mutations) {
    forall j :: 0 <= j < |pieces| ==> IsPiece(pieces[j]) && Within(pieces[j], m)
  }

  ghost predicate KeepKinds(pieces: seq<Mutations>) {
    forall j :: 0 <= j < |pieces| ==> pieces[j].deleteCITypes == [] && pieces[j].upsertCITypes == []
  }

  lemma DeletesArePieces(m: Mutations)
    ensures ArePieces(Deletes(m), m) && KeepKinds(Deletes(m))
  {
    forall j | 0 <= j < |Deletes(m)| ensures IsPiece(Deletes(m)[j]) && Within(Deletes(m)[j], m) && Deletes(m)[j].deleteCITypes == [] && Deletes(m)[j].upsertCITypes == [] {
      var a, b, c := |m.deleteEdges|, |m.deleteEdges| + |m.deleteEdgeRequests|, |m.deleteEdges| + |m.deleteEdgeRequests| + |m.deleteEntityRequests|;
      var p := Deletes(m)[j];
      if j < a {
        assert p == NOTHING.(deleteEdges := [m.deleteEdges[j]]);
      } else if j < b {
        assert p == NOTHING.(deleteEdgeRequests := [m.deleteEdgeRequests[j - a]]);
      } else if j < c {
        assert p == NOTHING.(deleteEntityRequests := [m.deleteEntityRequests[j - b]]);
      } else {
        assert p == NOTHING.(deleteEntities := [m.deleteEntities[j - c]]);
      }
    }
  }

  lemma WritesArePieces(m: Mutations)
    ensures ArePieces(Writes(m), m) && KeepKinds(Writes(m))
  {
    forall j | 0 <= j < |Writes(m)| ensures IsPiece(Writes(m)[j]) && Within(Writes(m)[j], m) && Writes(m)[j].deleteCITypes == [] && Writes(m)[j].upsertCITypes == [] {
      var a, b := |m.upsertEntities|, |m.upsertEntities| + |m.markStale|;
      var c, d := b + |m.mergeEntities|, b + |m.mergeEntities| + |m.splitEntities|;
      var p := Writes(m)[j];
      if j < a {
        assert p == NOTHING.(upsertEntities := [m.upsertEntities[j]]);
      } else if j < b {
        assert p == NOTHING.(markStale := [m.markStale[j - a]]);
      } else if j < c {
        assert p == NOTHING.(mergeEntities := [m.mergeEntities[j - b]]);
      } else if j < d {
        assert p == NOTHING.(splitEntities := [m.splitEntities[j - c]]);
      } else {
        assert p == NOTHING.(upsertEdges := [m.upsertEdges[j - d]]);
      }
    }
  }

  lemma PiecesArePieces(m: Mutations)
    ensures ArePieces(Pieces(m), m)
    ensures forall j :: 0 <= j < |Pieces(m)| && j != KindsAt(m) ==> Pieces(m)[j].deleteCITypes == [] && Pieces(m)[j].upsertCITypes == []
  {
    DeletesArePieces(m);
    WritesArePieces(m);
    hide Deletes, Writes, IsPiece, Within;
    var n := |Deletes(m)|;
    TypeChangesArePieces(m);
    forall j | 0 <= j < |Pieces(m)|
      ensures IsPiece(Pieces(m)[j]) && Within(Pieces(m)[j], m)
      ensures j != KindsAt(m) ==> Pieces(m)[j].deleteCITypes == [] && Pieces(m)[j].upsertCITypes == []
    {
      if j < n {
        assert Pieces(m)[j] == Deletes(m)[j];
      } else if j < n + 3 {
        assert Pieces(m)[j] == TypeChanges(m)[j - n];
      } else {
        assert Pieces(m)[j] == Writes(m)[j - n - 3];
      }
    }
  }

  lemma TypeChangesArePieces(m: Mutations)
    ensures ArePieces(TypeChanges(m), m)
  {
  }

  lemma PieceAsked(base: Base, s: State, p: Mutations)
    requires GoodGraph(base, s) && Lawful(base) && IsPiece(p) && NamedSplits(base.trim, p.splitEntities) && Commit(base, s, p).Some?
    ensures Asked(base, s, p, Commit(base, s, p).value)
  {
    hide Commit, Asked, GoodGraph, Apart, Injective;
    GoodEdges(base, s);
    if p == NOTHING.(deleteRelationTypes := p.deleteRelationTypes) {
      RelationsAsked(base, s, p.deleteRelationTypes);
    } else if p == NOTHING.(deleteCITypes := p.deleteCITypes, upsertCITypes := p.upsertCITypes) {
      KindChangeAsked(base, s, p.deleteCITypes, p.upsertCITypes);
    } else if p == NOTHING.(upsertRelationTypes := p.upsertRelationTypes) {
      RelationUpsertAsked(base, s, p.upsertRelationTypes);
    } else if |p.deleteEdges| == 1 {
      EdgeDeleteAsked(base, s, p.deleteEdges[0]);
    } else if |p.deleteEdgeRequests| == 1 {
      EdgeRequestAsked(base, s, p.deleteEdgeRequests[0]);
    } else if |p.deleteEntityRequests| == 1 {
      EntityRequestAsked(base, s, p.deleteEntityRequests[0]);
    } else if |p.deleteEntities| == 1 {
      EntityDeleteAsked(base, s, p.deleteEntities[0]);
    } else if |p.upsertEntities| == 1 {
      UpsertAsked(base, s, p.upsertEntities[0]);
    } else if |p.markStale| == 1 {
      StaleAsked(base, s, p.markStale[0]);
    } else if |p.mergeEntities| == 1 {
      MergeAsked(base, s, p.mergeEntities[0]);
    } else if |p.splitEntities| == 1 {
      SplitAsked(base, s, p.splitEntities[0]);
    } else {
      EdgeUpsertAsked(base, s, p.upsertEdges[0]);
    }
  }

  // ---------- along a commit ----------

  /** The graph before the piece `j` of a commit. */
  ghost function Before(base: Base, s: State, m: Mutations, j: nat): Option<State>
    requires j <= |Pieces(m)|
  {
    Each(Committing(base), s, Pieces(m)[..j])
  }

  /** A commit that succeeds goes from graph to graph, all of them consistent. */
  lemma {:induction false} Along(base: Base, s: State, m: Mutations, j: nat)
    requires GoodGraph(base, s) && Lawful(base) && NamedSplits(base.trim, m.splitEntities) && Commit(base, s, m).Some? && j <= |Pieces(m)|
    ensures Before(base, s, m, j).Some? && GoodGraph(base, Before(base, s, m, j).value)
    ensures j == |Pieces(m)| ==> Before(base, s, m, j) == Commit(base, s, m)
    ensures j > 0 ==>
      && Before(base, s, m, j - 1).Some?
      && Commit(base, Before(base, s, m, j - 1).value, Pieces(m)[j - 1]) == Before(base, s, m, j)
      && Asked(base, Before(base, s, m, j - 1).value, Pieces(m)[j - 1], Before(base, s, m, j).value)
    decreases j
  {
    hide Commit, GoodGraph, Apart, Injective, Pieces, Asked, IsPiece, Within;
    CommitIsItsPieces(base, s, m);
    PiecesArePieces(m);
    if Before(base, s, m, j).None? {
      EachFails(Committing(base), s, Pieces(m), j);
    }
    assert j == |Pieces(m)| ==> Pieces(m)[..j] == Pieces(m);
    if j > 0 {
      Along(base, s, m, j - 1);
      assert Pieces(m)[..j][..j - 1] == Pieces(m)[..j - 1];
      var before, p := Before(base, s, m, j - 1).value, Pieces(m)[j - 1];
      PieceNamed(base, p, m);
      CommitKeepsGood(base, before, p);
      PieceAsked(base, before, p);
    }
  }

  lemma PieceNamed(base: Base, p: Mutations, m: Mutations)
    requires Within(p, m) && NamedSplits(base.trim, m.splitEntities)
    ensures NamedSplits(base.trim, p.splitEntities)
  {
  }

  /** What the commits of these theorems are. */
  ghost predicate Accepted(base: Base, s: State, m: Mutations) {
    GoodGraph(base, s) && Lawful(base) && NamedSplits(base.trim, m.splitEntities) && Commit(base, s, m).Some?
  }

  /** An entity that is not there at some point of a commit is there at the end only if a later piece asked for it to be
      stored. */
  lemma {:induction false} ComesOnlyIfAsked(base: Base, s: State, m: Mutations, i: nat, j: nat, id: string)
    requires Accepted(base, s, m) && i <= j <= |Pieces(m)|
    requires Before(base, s, m, i).Some? && id !in Before(base, s, m, i).value.store.entities
    ensures Before(base, s, m, j).Some?
    ensures id in Before(base, s, m, j).value.store.entities ==> exists k :: i <= k < j && Creates(base, Pieces(m)[k], id)
    decreases j
  {
    hide Before, Pieces, Creates, GoodGraph, Lawful, Commit, NamedSplits;
    Along(base, s, m, j);
    if i < j {
      Along(base, s, m, j - 1);
      ComesOnlyIfAsked(base, s, m, i, j - 1, id);
      if id !in Before(base, s, m, j - 1).value.store.entities && id in Before(base, s, m, j).value.store.entities {
        assert Creates(base, Pieces(m)[j - 1], id);
      }
    }
  }

  /** The piece `k` asks for the entity that is there to go. */
  ghost predicate TakenAt(base: Base, s: State, m: Mutations, k: nat, id: string)
    requires k < |Pieces(m)|
  {
    && Before(base, s, m, k).Some?
    && id in Before(base, s, m, k).value.store.entities
    && Takes(base, Before(base, s, m, k).value, Pieces(m)[k], id)
  }

  /** An entity that is there at some point is gone at the end only if a later piece asked for it to go, or for what it was
      merged into. */
  lemma {:induction false} GoesOnlyIfAsked(base: Base, s: State, m: Mutations, i: nat, j: nat, id: string)
    requires Accepted(base, s, m) && i <= j <= |Pieces(m)|
    requires Before(base, s, m, i).Some? && id in Before(base, s, m, i).value.store.entities
    ensures Before(base, s, m, j).Some?
    ensures id !in Before(base, s, m, j).value.store.entities ==>
      exists k :: i <= k < j && TakenAt(base, s, m, k, id)
    decreases j
  {
    hide Before, Pieces, Takes, GoodGraph, Lawful, Commit, NamedSplits;
    Along(base, s, m, j);
    if i < j {
      Along(base, s, m, j - 1);
      GoesOnlyIfAsked(base, s, m, i, j - 1, id);
      if id in Before(base, s, m, j - 1).value.store.entities && id !in Before(base, s, m, j).value.store.entities {
        assert TakenAt(base, s, m, j - 1, id);
      }
    }
  }

  ghost predicate NoEdgesAt(s: State, id: string) {
    forall k :: k in s.store.edges ==> !Incident(s.store.edges[k], id)
  }

  /** The piece asks for an edge at the entity, or moves edges to it. */
  ghost predicate Joins(p: Mutations, id: string) {
    || (exists x :: x in p.upsertEdges && (x.source == id || x.target == id))
    || (exists r :: r in p.mergeEntities && r.target == id)
  }

  /** An entity without edges at some point has one at the end only if a later piece asked for that. */
  lemma {:induction false} JoinsOnlyIfAsked(base: Base, s: State, m: Mutations, i: nat, j: nat, id: string)
    requires Accepted(base, s, m) && i <= j <= |Pieces(m)|
    requires Before(base, s, m, i).Some? && NoEdgesAt(Before(base, s, m, i).value, id)
    ensures Before(base, s, m, j).Some?
    ensures !NoEdgesAt(Before(base, s, m, j).value, id) ==> exists k :: i <= k < j && Joins(Pieces(m)[k], id)
    decreases j
  {
    hide Before, Pieces, GoodGraph, Lawful, Commit, NamedSplits, Asked, NoEdgesAt;
    Along(base, s, m, j);
    if i < j {
      Along(base, s, m, j - 1);
      JoinsOnlyIfAsked(base, s, m, i, j - 1, id);
      if NoEdgesAt(Before(base, s, m, j - 1).value, id) && !NoEdgesAt(Before(base, s, m, j).value, id) {
        Joined(base, Before(base, s, m, j - 1).value, Pieces(m)[j - 1], Before(base, s, m, j).value, id);
      }
    }
  }

  lemma Joined(base: Base, s: State, p: Mutations, after: State, id: string)
    requires Asked(base, s, p, after) && NoEdgesAt(s, id) && !NoEdgesAt(after, id)
    ensures Joins(p, id)
  {
    hide Takes, TakesEdge, Creates, Rewrites;
    var k :| k in after.store.edges && Incident(after.store.edges[k], id);
    assert k in s.store.edges ==> !Incident(s.store.edges[k], id);
    assert Attaches(s.store.edges, p, EndsOf(after.store.edges[k]));
  }

  // ---------- requests take effect ----------

  /** The piece takes the entity away, not merely names it among others. */
  ghost predicate MustGo(base: Base, s: State, p: Mutations, id: string)
    requires id in s.store.entities
  {
    var e := s.store.entities[id];
    || (exists ref :: ref in p.deleteEntities && OnlyEntityNamed(s.store.entities, ref, id))
    || (exists r :: r in p.deleteEntityRequests && MustGoFor(base, s, r, id))
    || (exists st :: st in p.markStale && st.deletes && Missed(st, e) && e.rank <= st.rank)
    || (exists r :: r in p.mergeEntities && id in r.sources && id != r.target)
    || (exists r :: r in p.splitEntities && r.source == id)
  }

  ghost predicate MustGoFor(base: Base, s: State, r: EntityDelete, id: string)
    requires id in s.store.entities
  {
    s.store.entities[id].rank <= r.rank &&
    match r
    case ByEntity(ref, _) => OnlyEntityNamed(s.store.entities, ref, id)
    case ByIdentity(kind, signature, _) => Owns(base, s.types, s.store.entities, kind, signature, id)
  }

  /** The piece leaves an entity there. */
  ghost predicate MustStay(base: Base, s: State, p: Mutations, id: string) {
    || (exists u :: u in p.upsertEntities && IsAbout(base, s.types, s.store.entities, u, id))
    || (exists r, part :: r in p.splitEntities && part in r.parts && base.trim(part.raw) == id)
    || (exists r :: r in p.mergeEntities && r.target == id)
  }

  lemma MustGoGoes(base: Base, s: State, p: Mutations, id: string)
    requires GoodGraph(base, s) && Lawful(base) && IsPiece(p) && NamedSplits(base.trim, p.splitEntities) && Commit(base, s, p).Some?
    requires id in s.store.entities && MustGo(base, s, p, id)
    ensures id !in Commit(base, s, p).value.store.entities
  {
    hide Commit, GoodGraph, Apart, Injective, OnlyEntityNamed, Owns, Moves, MovedAll, Folded, SplitInto;
    GoodEdges(base, s);
    if |p.deleteEntities| == 1 {
      EntityDeleteEffect(base, s.types, s.store, p.deleteEntities[0]);
    } else if |p.deleteEntityRequests| == 1 {
      match p.deleteEntityRequests[0] {
        case ByEntity(ref, rank) => EntityRequestEffect(base, s.types, s.store, ref, rank);
        case ByIdentity(kind, signature, rank) => EntityIdentityEffect(base, s.types, s.store, kind, signature, rank);
      }
    } else if |p.markStale| == 1 {
      StaleEffect(base, s.types, s.store, p.markStale[0]);
    } else if |p.mergeEntities| == 1 {
      MergeEffect(base, s.types, s.store, p.mergeEntities[0]);
    } else {
      SplitEffect(base, s.types, s.store, p.splitEntities[0]);
      SplitGoes(base, s, p.splitEntities[0], Commit(base, s, p).value.store);
    }
  }

  lemma SplitGoes(base: Base, s: State, r: Split, after: Store)
    requires SplitInto(base, s.types, s.store, r.source, r.parts, after) && NewParts(base, s.types, s.store, r.parts) && r.source in s.store.entities
    ensures r.source !in after.entities
    ensures forall part :: part in r.parts ==> base.trim(part.raw) in after.entities
  {
  }

  lemma MustStayStays(base: Base, s: State, p: Mutations, id: string)
    requires GoodGraph(base, s) && Lawful(base) && IsPiece(p) && NamedSplits(base.trim, p.splitEntities) && Commit(base, s, p).Some?
    requires MustStay(base, s, p, id)
    ensures id in Commit(base, s, p).value.store.entities
  {
    hide Commit, GoodGraph, Apart, Injective, IsAbout, Moves, MovedAll, Folded, SplitInto, Distinguished;
    GoodEdges(base, s);
    if |p.upsertEntities| == 1 {
      var u := p.upsertEntities[0];
      UpsertEffect(base, s.types, s.store, u);
      var target, value :| Stores(base, s.types, s.store.entities, u, target, value) && Commit(base, s, p).value == State(s.types, s.store.(entities := s.store.entities[target := value]));
      AboutOne(base, s, u, target, id);
    } else if |p.mergeEntities| == 1 {
      MergeEffect(base, s.types, s.store, p.mergeEntities[0]);
    } else {
      SplitEffect(base, s.types, s.store, p.splitEntities[0]);
      SplitGoes(base, s, p.splitEntities[0], Commit(base, s, p).value.store);
    }
  }

  lemma AboutOne(base: Base, s: State, u: Upsert, a: string, b: string)
    requires IsAbout(base, s.types, s.store.entities, u, a) && IsAbout(base, s.types, s.store.entities, u, b)
    ensures a == b
  {
  }

  lemma WithinCreates(base: Base, p: Mutations, m: Mutations, id: string)
    requires Within(p, m)
    ensures Creates(base, p, id) ==> Creates(base, m, id)
    ensures Joins(p, id) ==> Joins(m, id)
  {
  }

  lemma NobodyHome(base: Base, s: State, id: string)
    requires GoodGraph(base, s) && id !in s.store.entities
    ensures NoEdgesAt(s, id)
  {
    GoodEdges(base, s);
    forall k | k in s.store.edges ensures !Incident(s.store.edges[k], id) {
      assert EdgeOk(s.store.relations, s.store.entities, s.store.edges[k]);
    }
  }

  /** After a commit an entity that one of its requests takes away, when its turn comes, is gone, unless the commit asks for
      it to be stored; and no edge is at it, unless the commit asks for one there. */
  lemma TakenAreGone(base: Base, s: State, m: Mutations, i: nat, id: string)
    requires Accepted(base, s, m) && i < |Pieces(m)|
    requires Before(base, s, m, i).Some? && id in Before(base, s, m, i).value.store.entities
    requires MustGo(base, Before(base, s, m, i).value, Pieces(m)[i], id)
    ensures var after := Commit(base, s, m).value;
      && (id in after.store.entities ==> exists k :: i < k < |Pieces(m)| && Creates(base, Pieces(m)[k], id))
      && (!NoEdgesAt(after, id) ==> exists k :: i < k < |Pieces(m)| && Joins(Pieces(m)[k], id))
  {
    hide Before, Pieces, GoodGraph, Commit, NamedSplits, Asked, NoEdgesAt, MustGo, Creates, Joins, IsPiece, Within, Injective, Apart;
    PiecesArePieces(m);
    Along(base, s, m, i);
    Along(base, s, m, i + 1);
    PieceNamed(base, Pieces(m)[i], m);
    MustGoGoes(base, Before(base, s, m, i).value, Pieces(m)[i], id);
    NobodyHome(base, Before(base, s, m, i + 1).value, id);
    ComesOnlyIfAsked(base, s, m, i + 1, |Pieces(m)|, id);
    JoinsOnlyIfAsked(base, s, m, i + 1, |Pieces(m)|, id);
    Along(base, s, m, |Pieces(m)|);
  }

  /** An entity that a request stores is there after the commit, unless a later request of it takes it away. */
  lemma StoredAreThere(base: Base, s: State, m: Mutations, i: nat, id: string)
    requires Accepted(base, s, m) && i < |Pieces(m)|
    requires Before(base, s, m, i).Some? && MustStay(base, Before(base, s, m, i).value, Pieces(m)[i], id)
    ensures id in Commit(base, s, m).value.store.entities || exists k :: i < k < |Pieces(m)| && TakenAt(base, s, m, k, id)
  {
    hide Before, Pieces, GoodGraph, Commit, NamedSplits, Asked, MustStay, Takes, IsPiece, Within, Injective, Apart;
    PiecesArePieces(m);
    Along(base, s, m, i);
    Along(base, s, m, i + 1);
    PieceNamed(base, Pieces(m)[i], m);
    MustStayStays(base, Before(base, s, m, i).value, Pieces(m)[i], id);
    GoesOnlyIfAsked(base, s, m, i + 1, |Pieces(m)|, id);
    Along(base, s, m, |Pieces(m)|);
  }

  /** Where a delete by reference stands among the pieces. */
  function DeleteAt(m: Mutations, n: nat): nat {
    |m.deleteEdges| + |m.deleteEdgeRequests| + |m.deleteEntityRequests| + n
  }

  /** So an entity that a plain delete names, by its identity or as the only one merged from it, is gone after the commit
      with all its edges, unless the same commit stores it again. */
  lemma DeletedAreGone(base: Base, s: State, m: Mutations, n: nat, id: string)
    requires Accepted(base, s, m) && n < |m.deleteEntities|
    requires DeleteAt(m, n) <= |Pieces(m)| && Before(base, s, m, DeleteAt(m, n)).Some?
    requires OnlyEntityNamed(Before(base, s, m, DeleteAt(m, n)).value.store.entities, m.deleteEntities[n], id)
    ensures id in Commit(base, s, m).value.store.entities ==> Creates(base, m, id)
    ensures !NoEdgesAt(Commit(base, s, m).value, id) ==> Joins(m, id)
  {
    hide Before, GoodGraph, Commit, NamedSplits, NoEdgesAt, Creates, Joins, IsPiece, Within, Injective, Apart;
    var i := DeleteAt(m, n);
    assert Pieces(m)[i] == Deletes(m)[i] == NOTHING.(deleteEntities := [m.deleteEntities[n]]);
    PiecesArePieces(m);
    hide Pieces;
    assert m.deleteEntities[n] in Pieces(m)[i].deleteEntities;
    TakenAreGone(base, s, m, i, id);
    forall k | i < k < |Pieces(m)| ensures Creates(base, Pieces(m)[k], id) ==> Creates(base, m, id) ensures Joins(Pieces(m)[k], id) ==> Joins(m, id) {
      WithinCreates(base, Pieces(m)[k], m, id);
    }
  }

  // ---------- what no request names ----------

  /** The commit names the entity: by its identity, by what was merged into it, or by its identities or sources. */
  ghost predicate Concerns(base: Base, types: Types, m: Mutations, id: string, e: Entity) {
    || (exists ref :: ref in m.deleteEntities && Refers(ref, id, e))
    || (exists r :: r in m.deleteEntityRequests && RequestRefers(base, types, r, id, e))
    || (exists u :: u in m.upsertEntities && UpsertRefers(base, types, u, id, e))
    || (exists st :: st in m.markStale && Missed(st, e))
    || (exists r :: r in m.mergeEntities && (r.target == id || id in r.sources))
    || (exists r :: r in m.splitEntities && r.source == id)
  }

  predicate Refers(ref: string, id: string, e: Entity) {
    ref == id || ref in e.mergedFrom
  }

  ghost predicate RequestRefers(base: Base, types: Types, r: EntityDelete, id: string, e: Entity) {
    match r
    case ByEntity(ref, _) => Refers(ref, id, e)
    case ByIdentity(kind, signature, _) => kind == e.kind && signature in SignaturesUnder(base, types, e)
  }

  ghost predicate UpsertRefers(base: Base, types: Types, u: Upsert, id: string, e: Entity) {
    u.entity.id == id || u.generated == id || (u.entity.kind == e.kind && SignaturesUnder(base, types, e) * u.lookup != {})
  }

  lemma Unconcerned(base: Base, s: State, p: Mutations, m: Mutations, id: string)
    requires Within(p, m) && id in s.store.entities && !Concerns(base, s.types, m, id, s.store.entities[id])
    ensures !Takes(base, s, p, id) && !Rewrites(base, s, p, id)
  {
    hide SignaturesUnder, Missed;
    var e := s.store.entities[id];
    forall r | r in p.deleteEntityRequests ensures !Requested(base, s, r, id) {
      assert !RequestRefers(base, s.types, r, id, e);
    }
    forall u | u in p.upsertEntities ensures !IsAbout(base, s.types, s.store.entities, u, id) {
      assert !UpsertRefers(base, s.types, u, id, e);
    }
    forall ref | ref in p.deleteEntities ensures !EntityNamed(s.store.entities, ref, id) {
      assert !Refers(ref, id, e);
    }
  }

  /** Kinds change at one piece only. */
  lemma {:induction false} TypesAlong(base: Base, s: State, m: Mutations, i: nat, j: nat)
    requires Accepted(base, s, m) && i <= j <= |Pieces(m)| && (j <= KindsAt(m) || KindsAt(m) < i)
    ensures Before(base, s, m, i).Some? && Before(base, s, m, j).Some?
    ensures Before(base, s, m, i).value.types == Before(base, s, m, j).value.types
    decreases j
  {
    hide Before, Pieces, GoodGraph, Commit, NamedSplits, Asked, IsPiece, Within, Injective, Apart, Deletes;
    Along(base, s, m, i);
    Along(base, s, m, j);
    if i < j {
      Along(base, s, m, j - 1);
      PiecesArePieces(m);
      TypesAlong(base, s, m, i, j - 1);
      TypesKept(base, Before(base, s, m, j - 1).value, Pieces(m)[j - 1]);
    }
  }

  lemma TypesKept(base: Base, s: State, p: Mutations)
    requires Commit(base, s, p).Some? && p.deleteCITypes == [] && p.upsertCITypes == []
    ensures Commit(base, s, p).value.types == s.types
  {
    hide DeleteStages, DeleteRelations, UpsertRelations, EntityStages, UpsertingEdge, Under;
  }

  /** The schema at a piece is the one before the commit, or the one after it. */
  lemma TypesAt(base: Base, s: State, m: Mutations, j: nat)
    requires Accepted(base, s, m) && j <= |Pieces(m)|
    ensures Before(base, s, m, j).Some?
    ensures Before(base, s, m, j).value.types in {s.types, Commit(base, s, m).value.types}
  {
    hide Before, GoodGraph, Commit, NamedSplits, Asked, IsPiece, Within, Injective, Apart, Deletes, Writes;
    StartsThere(base, s, m);
    Along(base, s, m, |Pieces(m)|);
    if j <= KindsAt(m) {
      TypesAlong(base, s, m, 0, j);
    } else {
      TypesAlong(base, s, m, j, |Pieces(m)|);
    }
  }

  lemma StartsThere(base: Base, s: State, m: Mutations)
    ensures Before(base, s, m, 0) == Some(s)
  {
    assert Pieces(m)[..0] == [];
  }

  /** An entity that no request of a commit names is after it what it was before. */
  lemma {:induction false} UnnamedEntityStays(base: Base, s: State, m: Mutations, j: nat, id: string)
    requires Accepted(base, s, m) && j <= |Pieces(m)| && id in s.store.entities
    requires !Concerns(base, s.types, m, id, s.store.entities[id]) && !Concerns(base, Commit(base, s, m).value.types, m, id, s.store.entities[id])
    ensures Before(base, s, m, j).Some?
    ensures var now := Before(base, s, m, j).value.store.entities; id in now && now[id] == s.store.entities[id]
    decreases j
  {
    hide Before, Pieces, GoodGraph, Commit, NamedSplits, IsPiece, Within, Injective, Apart, Concerns, Takes, TakesEdge, Rewrites, Creates, Attaches;
    StartsThere(base, s, m);
    if j > 0 {
      UnnamedEntityStays(base, s, m, j - 1, id);
      Along(base, s, m, j);
      TypesAt(base, s, m, j - 1);
      PiecesArePieces(m);
      Unconcerned(base, Before(base, s, m, j - 1).value, Pieces(m)[j - 1], m, id);
    }
  }

  /** The commit names the edge: by its identity, an alias, its type or its ends. */
  ghost predicate ConcernsEdge(m: Mutations, k: string, e: Edge) {
    || (exists ref :: ref in m.deleteEdges && (ref == k || ref in e.aliases))
    || (exists r :: r in m.deleteEdgeRequests && RequestRefersEdge(r, k, e))
    || e.typ in m.deleteRelationTypes
    || (exists x :: x in m.upsertEdges && EndsOf(x) == EndsOf(e))
    || (exists r :: r in m.mergeEntities && (Incident(e, r.target) || e.source in r.sources || e.target in r.sources))
  }

  predicate RequestRefersEdge(r: EdgeDelete, k: string, e: Edge) {
    match r
    case ByReference(ref, _) => ref == k || ref in e.aliases
    case ByEndpoints(typ, source, target, _) => EndsOf(e) == Ends(typ, source, target)
  }

  lemma NotTaken(base: Base, s: State, p: Mutations, m: Mutations, k: string)
    requires Within(p, m) && k in s.store.edges
    requires var e := s.store.edges[k];
      && !ConcernsEdge(m, k, e)
      && (e.source in s.store.entities ==> !Takes(base, s, p, e.source))
      && (e.target in s.store.entities ==> !Takes(base, s, p, e.target))
    ensures !TakesEdge(base, s, p, k) && !Attaches(s.store.edges, p, EndsOf(s.store.edges[k]))
  {
    hide Takes;
    var e := s.store.edges[k];
    forall r | r in p.deleteEdgeRequests ensures !RequestedEdge(s.store.edges, r, k) {
      assert !RequestRefersEdge(r, k, e);
    }
    forall ref | ref in p.deleteEdges ensures !EdgeNamed(s.store.edges, ref, k) {
      assert ref in m.deleteEdges;
    }
  }

  lemma SameKeySameEnds(base: Base, s: State, after: State, k: string)
    requires GoodGraph(base, s) && GoodGraph(base, after) && Injective(base.canonical) && k in s.store.edges && k in after.store.edges
    ensures EndsOf(s.store.edges[k]) == EndsOf(after.store.edges[k])
  {
    GoodEdges(base, s);
    GoodEdges(base, after);
    hide GoodGraph, EntitiesKeyed, EdgesOk, Good;
  }

  lemma UnconcernedEdge(base: Base, s: State, p: Mutations, m: Mutations, after: State, k: string)
    requires GoodGraph(base, s) && GoodGraph(base, after) && Injective(base.canonical) && Within(p, m) && k in s.store.edges && Asked(base, s, p, after)
    requires var e := s.store.edges[k];
      && !ConcernsEdge(m, k, e)
      && (e.source in s.store.entities ==> !Takes(base, s, p, e.source))
      && (e.target in s.store.entities ==> !Takes(base, s, p, e.target))
    ensures k in after.store.edges && after.store.edges[k] == s.store.edges[k]
  {
    hide GoodGraph, Takes, Creates, Rewrites, TakesEdge, Attaches, ConcernsEdge, Within, Injective;
    NotTaken(base, s, p, m, k);
    if k in after.store.edges {
      SameKeySameEnds(base, s, after, k);
    }
  }

  /** An edge that no request names stays as it was, unless one takes an entity at its ends away. */
  lemma {:induction false} EdgeStays(base: Base, s: State, m: Mutations, j: nat, k: string)
    requires Accepted(base, s, m) && j <= |Pieces(m)| && k in s.store.edges && !ConcernsEdge(m, k, s.store.edges[k])
    requires forall i, id :: 0 <= i < j && Incident(s.store.edges[k], id) ==> !TakenAt(base, s, m, i, id)
    ensures Before(base, s, m, j).Some?
    ensures var now := Before(base, s, m, j).value.store.edges; k in now && now[k] == s.store.edges[k]
    decreases j
  {
    hide Before, Pieces, GoodGraph, Commit, NamedSplits, IsPiece, Within, Apart, Injective, ConcernsEdge, Asked, Takes;
    StartsThere(base, s, m);
    if j > 0 {
      EdgeStays(base, s, m, j - 1, k);
      Along(base, s, m, j);
      Along(base, s, m, j - 1);
      PiecesArePieces(m);
      var e := s.store.edges[k];
      assert Incident(e, e.source) && Incident(e, e.target);
      assert !TakenAt(base, s, m, j - 1, e.source) && !TakenAt(base, s, m, j - 1, e.target);
      UnconcernedEdge(base, Before(base, s, m, j - 1).value, Pieces(m)[j - 1], m, Before(base, s, m, j).value, k);
    }
  }

  /** So does one whose ends no request names. */
  lemma UnnamedEdgeStays(base: Base, s: State, m: Mutations, k: string)
    requires Accepted(base, s, m) && k in s.store.edges && !ConcernsEdge(m, k, s.store.edges[k])
    requires forall id :: id in s.store.entities && Incident(s.store.edges[k], id) ==>
      !Concerns(base, s.types, m, id, s.store.entities[id]) && !Concerns(base, Commit(base, s, m).value.types, m, id, s.store.entities[id])
    ensures var after := Commit(base, s, m).value.store.edges; k in after && after[k] == s.store.edges[k]
  {
    hide Before, Pieces, GoodGraph, Commit, NamedSplits, IsPiece, Within, Apart, Injective, Concerns, ConcernsEdge, Asked, Takes, Rewrites;
    EndsStored(base, s, k);
    PiecesArePieces(m);
    forall i, id | 0 <= i < |Pieces(m)| && Incident(s.store.edges[k], id) ensures !TakenAt(base, s, m, i, id) {
      UnnamedEntityStays(base, s, m, i, id);
      TypesAt(base, s, m, i);
      Unconcerned(base, Before(base, s, m, i).value, Pieces(m)[i], m, id);
    }
    EdgeStays(base, s, m, |Pieces(m)|, k);
    Along(base, s, m, |Pieces(m)|);
  }

  lemma EndsStored(base: Base, s: State, k: string)
    requires GoodGraph(base, s) && k in s.store.edges
    ensures s.store.edges[k].source in s.store.entities && s.store.edges[k].target in s.store.entities
  {
    GoodEdges(base, s);
    assert EdgeOk(s.store.relations, s.store.entities, s.store.edges[k]);
  }
}
