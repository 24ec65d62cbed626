/** A commit taken apart: it does what its pieces of one mutation each do, one after the other in the order
    of the stages of applyMutations (internal/graph/apply.go). Entity kinds, and relation types to define,
    go together, because they are checked together. */
module GraphPieces {
  import opened GraphModel
  import opened GraphReference
  import opened Schemas
  import opened CommitSteps

  const NOTHING := Mutations([], [], [], [], [], [], [], [], [], [], [], [], [])

  /** One piece per item. */
  function Wrapped<A>(items: seq<A>, wrap: A -> Mutations): (r: seq<Mutations>)
    ensures |r| == |items| && forall i :: 0 <= i < |items| ==> r[i] == wrap(items[i])
  {
    seq(|items|, i requires 0 <= i < |items| => wrap(items[i]))
  }

  function EdgeDeletes(refs: seq<string>): seq<Mutations> {
    Wrapped(refs, (ref: string) => NOTHING.(deleteEdges := [ref]))
  }

  function EdgeRequests(requests: seq<EdgeDelete>): seq<Mutations> {
    Wrapped(requests, (r: EdgeDelete) => NOTHING.(deleteEdgeRequests := [r]))
  }

  function EntityRequests(requests: seq<EntityDelete>): seq<Mutations> {
    Wrapped(requests, (r: EntityDelete) => NOTHING.(deleteEntityRequests := [r]))
  }

  function EntityDeletes(refs: seq<string>): seq<Mutations> {
    Wrapped(refs, (ref: string) => NOTHING.(deleteEntities := [ref]))
  }

  /** The pieces about types: relation types deleted, kinds changed, relation types defined. */
  function TypeChanges(m: Mutations): seq<Mutations> {
    [NOTHING.(deleteRelationTypes := m.deleteRelationTypes),
     NOTHING.(deleteCITypes := m.deleteCITypes, upsertCITypes := m.upsertCITypes),
     NOTHING.(upsertRelationTypes := m.upsertRelationTypes)]
  }

  function EntityUpserts(upserts: seq<Upsert>): seq<Mutations> {
    Wrapped(upserts, (u: Upsert) => NOTHING.(upsertEntities := [u]))
  }

  function StaleMarks(marks: seq<Stale>): seq<Mutations> {
    Wrapped(marks, (st: Stale) => NOTHING.(markStale := [st]))
  }

  function Merges(merges: seq<Merge>): seq<Mutations> {
    Wrapped(merges, (r: Merge) => NOTHING.(mergeEntities := [r]))
  }

  function Splits(splits: seq<Split>): seq<Mutations> {
    Wrapped(splits, (r: Split) => NOTHING.(splitEntities := [r]))
  }

  function EdgeUpserts(edges: seq<Edge>): seq<Mutations> {
    Wrapped(edges, (e: Edge) => NOTHING.(upsertEdges := [e]))
  }

  function Deletes(m: Mutations): seq<Mutations> {
    EdgeDeletes(m.deleteEdges) + EdgeRequests(m.deleteEdgeRequests) + EntityRequests(m.deleteEntityRequests) + EntityDeletes(m.deleteEntities)
  }

  function Writes(m: Mutations): seq<Mutations> {
    EntityUpserts(m.upsertEntities) + StaleMarks(m.markStale) + Merges(m.mergeEntities) + Splits(m.splitEntities) + EdgeUpserts(m.upsertEdges)
  }

  function Pieces(m: Mutations): seq<Mutations> {
    Deletes(m) + TypeChanges(m) + Writes(m)
  }

  // ---------- each stage is its pieces ----------

  /** A store under unchanged kinds. */
  function In(types: Types, s: Option<Store>): Option<State> {
    if s.None? then None else Some(State(types, s.value))
  }

  lemma EachOne<S, A>(f: (S, A) -> Option<S>, s: S, x: A)
    ensures Each(f, s, [x]) == f(s, x)
  {
    assert [x][..0] == [];
  }

  lemma {:induction false} EachConcat<S, A>(f: (S, A) -> Option<S>, s: S, a: seq<A>, b: seq<A>)
    ensures Each(f, s, a + b) == if Each(f, s, a).None? then None else Each(f, Each(f, s, a).value, b)
    decreases |b|
  {
    if b == [] {
      assert a + b == a;
    } else {
      assert (a + b)[..|a + b| - 1] == a + b[..|b| - 1];
      EachConcat(f, s, a, b[..|b| - 1]);
    }
  }

  lemma {:induction false} EachLifts<A(!new)>(base: Base, types: Types, f: (Store, A) -> Option<Store>, wrap: A -> Mutations, s: Store, items: seq<A>)
    requires forall t: Store, x: A :: Commit(base, State(types, t), wrap(x)) == In(types, f(t, x))
    ensures Each(Committing(base), State(types, s), Wrapped(items, wrap)) == In(types, Each(f, s, items))
    decreases |items|
  {
    hide Commit;
    if items != [] {
      var n := |items| - 1;
      EachLifts(base, types, f, wrap, s, items[..n]);
      assert Wrapped(items, wrap)[..n] == Wrapped(items[..n], wrap);
    }
  }

  /** Stages with nothing to do. */
  lemma NoDeletes(rules: Rules, s: Store)
    ensures DeleteStages(rules, s, NOTHING) == Some(s)
  {
  }

  lemma NoTypeChanges(base: Base, types: Types, s: Store)
    ensures DeleteRelations(s, []) == Some(s) && ChangeTypes(base, types, s.entities, [], []) == Some(types) && UpsertRelations(s, []) == Some(s)
  {
    var gone := set n: string | n in [];
    assert gone == {};
    assert s.relations - gone == s.relations && Untyped(s.edges, gone) == s.edges;
  }

  lemma NoWrites(rules: Rules, s: Store)
    ensures EntityStages(rules, s, NOTHING) == Some(s) && Each(UpsertingEdge(rules), s, []) == Some(s)
  {
  }

  lemma DeletesOnly(base: Base, types: Types, s: Store, m: Mutations)
    requires m == NOTHING.(deleteEdges := m.deleteEdges, deleteEdgeRequests := m.deleteEdgeRequests,
               deleteEntityRequests := m.deleteEntityRequests, deleteEntities := m.deleteEntities)
    ensures Commit(base, State(types, s), m) == In(types, DeleteStages(Under(base, types), s, m))
  {
    hide Under, DeleteRelations, ChangeTypes, UpsertRelations, EntityStages, DeleteStages;
    var deleted := DeleteStages(Under(base, types), s, m);
    if deleted.Some? {
      NoTypeChanges(base, types, deleted.value);
      NoWriting(base, types, deleted.value, m);
    }
  }

  lemma NoWriting(base: Base, types: Types, s: Store, m: Mutations)
    requires m.upsertEntities == [] && m.markStale == [] && m.mergeEntities == [] && m.splitEntities == []
    ensures EntityStages(Under(base, types), s, m) == Some(s)
    ensures forall rules :: Each(UpsertingEdge(rules), s, []) == Some(s)
  {
  }

  lemma NoDeleting(rules: Rules, s: Store, m: Mutations)
    requires m.deleteEdges == [] && m.deleteEdgeRequests == [] && m.deleteEntityRequests == [] && m.deleteEntities == []
    ensures DeleteStages(rules, s, m) == Some(s)
  {
  }

  lemma WritesOnly(base: Base, types: Types, s: Store, m: Mutations)
    requires m == NOTHING.(upsertEntities := m.upsertEntities, markStale := m.markStale, mergeEntities := m.mergeEntities,
               splitEntities := m.splitEntities, upsertEdges := m.upsertEdges)
    ensures Commit(base, State(types, s), m) ==
      var written := EntityStages(Under(base, types), s, m);
      if written.None? then None else In(types, Each(UpsertingEdge(Under(base, types)), written.value, m.upsertEdges))
  {
    hide Under, DeleteRelations, ChangeTypes, UpsertRelations, EntityStages, DeleteStages, UpsertingEdge;
    NoDeleting(Under(base, types), s, m);
    NoTypeChanges(base, types, s);
  }

  // ---------- single pieces ----------

  lemma OneEdgeDelete(base: Base, types: Types, s: Store, ref: string)
    ensures Commit(base, State(types, s), NOTHING.(deleteEdges := [ref])) == In(types, DeleteEdge(s, ref))
  {
    hide Under, Commit, DeleteEdge;
    EachOne(DeleteEdge, s, ref);
    DeletesOnly(base, types, s, NOTHING.(deleteEdges := [ref]));
  }

  lemma OneEdgeDeletes(base: Base, types: Types, s: Store, items: seq<string>)
    ensures Each(Committing(base), State(types, s), EdgeDeletes(items)) == In(types, Each(DeleteEdge, s, items))
  {
    hide Under, Commit, DeleteEdge;
    var wrap := (ref: string) => NOTHING.(deleteEdges := [ref]);
    forall t: Store, x: string ensures Commit(base, State(types, t), wrap(x)) == In(types, DeleteEdge(t, x)) {
      OneEdgeDelete(base, types, t, x);
    }
    EachLifts(base, types, DeleteEdge, wrap, s, items);
  }

  lemma OneEdgeRequest(base: Base, types: Types, s: Store, r: EdgeDelete)
    ensures Commit(base, State(types, s), NOTHING.(deleteEdgeRequests := [r])) == In(types, DeleteEdgeRequest(Under(base, types), s, r))
  {
    hide Under, Commit, DeleteEdgeRequest;
    EachOne(DeletingEdge(Under(base, types)), s, r);
    DeletesOnly(base, types, s, NOTHING.(deleteEdgeRequests := [r]));
  }

  lemma OneEdgeRequests(base: Base, types: Types, s: Store, items: seq<EdgeDelete>)
    ensures Each(Committing(base), State(types, s), EdgeRequests(items)) == In(types, Each(DeletingEdge(Under(base, types)), s, items))
  {
    hide Under, Commit, DeleteEdgeRequest;
    var wrap := (r: EdgeDelete) => NOTHING.(deleteEdgeRequests := [r]);
    forall t: Store, x: EdgeDelete ensures Commit(base, State(types, t), wrap(x)) == In(types, DeletingEdge(Under(base, types))(t, x)) {
      OneEdgeRequest(base, types, t, x);
    }
    EachLifts(base, types, DeletingEdge(Under(base, types)), wrap, s, items);
  }

  lemma OneEntityRequest(base: Base, types: Types, s: Store, r: EntityDelete)
    ensures Commit(base, State(types, s), NOTHING.(deleteEntityRequests := [r])) == In(types, DeleteEntityRequest(Under(base, types), s, r))
  {
    hide Under, Commit, DeleteEntityRequest;
    EachOne(DeletingEntity(Under(base, types)), s, r);
    DeletesOnly(base, types, s, NOTHING.(deleteEntityRequests := [r]));
  }

  lemma OneEntityRequests(base: Base, types: Types, s: Store, items: seq<EntityDelete>)
    ensures Each(Committing(base), State(types, s), EntityRequests(items)) == In(types, Each(DeletingEntity(Under(base, types)), s, items))
  {
    hide Under, Commit, DeleteEntityRequest;
    var wrap := (r: EntityDelete) => NOTHING.(deleteEntityRequests := [r]);
    forall t: Store, x: EntityDelete ensures Commit(base, State(types, t), wrap(x)) == In(types, DeletingEntity(Under(base, types))(t, x)) {
      OneEntityRequest(base, types, t, x);
    }
    EachLifts(base, types, DeletingEntity(Under(base, types)), wrap, s, items);
  }

  lemma OneEntityDelete(base: Base, types: Types, s: Store, ref: string)
    ensures Commit(base, State(types, s), NOTHING.(deleteEntities := [ref])) == In(types, DeleteEntity(s, ref))
  {
    hide Under, Commit, DeleteEntity;
    EachOne(DeleteEntity, s, ref);
    DeletesOnly(base, types, s, NOTHING.(deleteEntities := [ref]));
  }

  lemma OneEntityDeletes(base: Base, types: Types, s: Store, items: seq<string>)
    ensures Each(Committing(base), State(types, s), EntityDeletes(items)) == In(types, Each(DeleteEntity, s, items))
  {
    hide Under, Commit, DeleteEntity;
    var wrap := (ref: string) => NOTHING.(deleteEntities := [ref]);
    forall t: Store, x: string ensures Commit(base, State(types, t), wrap(x)) == In(types, DeleteEntity(t, x)) {
      OneEntityDelete(base, types, t, x);
    }
    EachLifts(base, types, DeleteEntity, wrap, s, items);
  }

  /** What a commit about types is. */
  lemma OneTypeChange(base: Base, types: Types, s: Store, names: seq<string>, relations: seq<RelationType>)
    ensures Commit(base, State(types, s), NOTHING.(deleteRelationTypes := names)) == In(types, DeleteRelations(s, names))
    ensures Commit(base, State(types, s), NOTHING.(upsertRelationTypes := relations)) == In(types, UpsertRelations(s, relations))
  {
    hide Under, DeleteRelations, ChangeTypes, UpsertRelations, EntityStages, DeleteStages, UpsertingEdge;
    var a, b := NOTHING.(deleteRelationTypes := names), NOTHING.(upsertRelationTypes := relations);
    NoDeleting(Under(base, types), s, a);
    NoDeleting(Under(base, types), s, b);
    NoTypeChanges(base, types, s);
    var deleted, defined := DeleteRelations(s, names), UpsertRelations(s, relations);
    if deleted.Some? {
      NoTypeChanges(base, types, deleted.value);
      NoWriting(base, types, deleted.value, a);
    }
    if defined.Some? {
      NoWriting(base, types, defined.value, b);
    }
  }

  lemma OneKindChange(base: Base, types: Types, s: Store, deletes: seq<string>, upserts: seq<NamedType>)
    ensures Commit(base, State(types, s), NOTHING.(deleteCITypes := deletes, upsertCITypes := upserts)) ==
      var next := ChangeTypes(base, types, s.entities, deletes, upserts);
      if next.None? then None else Some(State(next.value, s))
  {
    hide Under, DeleteRelations, ChangeTypes, UpsertRelations, EntityStages, DeleteStages, UpsertingEdge;
    var m := NOTHING.(deleteCITypes := deletes, upsertCITypes := upserts);
    NoDeleting(Under(base, types), s, m);
    NoTypeChanges(base, types, s);
    var next := ChangeTypes(base, types, s.entities, deletes, upserts);
    if next.Some? {
      NoTypeChanges(base, next.value, s);
      NoWriting(base, next.value, s, m);
    }
  }

  lemma OneUpsert(base: Base, types: Types, s: Store, u: Upsert)
    ensures Commit(base, State(types, s), NOTHING.(upsertEntities := [u])) == In(types, UpsertEntity(Under(base, types), s, u))
  {
    hide Under, Commit, UpsertEntity;
    EachOne(UpsertingEntity(Under(base, types)), s, u);
    WritesOnly(base, types, s, NOTHING.(upsertEntities := [u]));
  }

  lemma OneUpserts(base: Base, types: Types, s: Store, items: seq<Upsert>)
    ensures Each(Committing(base), State(types, s), EntityUpserts(items)) == In(types, Each(UpsertingEntity(Under(base, types)), s, items))
  {
    hide Under, Commit, UpsertEntity;
    var wrap := (u: Upsert) => NOTHING.(upsertEntities := [u]);
    forall t: Store, x: Upsert ensures Commit(base, State(types, t), wrap(x)) == In(types, UpsertingEntity(Under(base, types))(t, x)) {
      OneUpsert(base, types, t, x);
    }
    EachLifts(base, types, UpsertingEntity(Under(base, types)), wrap, s, items);
  }

  lemma OneStale(base: Base, types: Types, s: Store, st: Stale)
    ensures Commit(base, State(types, s), NOTHING.(markStale := [st])) == In(types, MarkStale(Under(base, types), s, st))
  {
    hide Under, Commit, MarkStale;
    EachOne(MarkingStale(Under(base, types)), s, st);
    WritesOnly(base, types, s, NOTHING.(markStale := [st]));
  }

  lemma OneStales(base: Base, types: Types, s: Store, items: seq<Stale>)
    ensures Each(Committing(base), State(types, s), StaleMarks(items)) == In(types, Each(MarkingStale(Under(base, types)), s, items))
  {
    hide Under, Commit, MarkStale;
    var wrap := (st: Stale) => NOTHING.(markStale := [st]);
    forall t: Store, x: Stale ensures Commit(base, State(types, t), wrap(x)) == In(types, MarkingStale(Under(base, types))(t, x)) {
      OneStale(base, types, t, x);
    }
    EachLifts(base, types, MarkingStale(Under(base, types)), wrap, s, items);
  }

  lemma OneMerge(base: Base, types: Types, s: Store, r: Merge)
    ensures Commit(base, State(types, s), NOTHING.(mergeEntities := [r])) == In(types, MergeEntities(Under(base, types), s, r))
  {
    hide Under, Commit, MergeEntities;
    EachOne(MergingEntities(Under(base, types)), s, r);
    WritesOnly(base, types, s, NOTHING.(mergeEntities := [r]));
  }

  lemma OneMerges(base: Base, types: Types, s: Store, items: seq<Merge>)
    ensures Each(Committing(base), State(types, s), Merges(items)) == In(types, Each(MergingEntities(Under(base, types)), s, items))
  {
    hide Under, Commit, MergeEntities;
    var wrap := (r: Merge) => NOTHING.(mergeEntities := [r]);
    forall t: Store, x: Merge ensures Commit(base, State(types, t), wrap(x)) == In(types, MergingEntities(Under(base, types))(t, x)) {
      OneMerge(base, types, t, x);
    }
    EachLifts(base, types, MergingEntities(Under(base, types)), wrap, s, items);
  }

  lemma OneSplit(base: Base, types: Types, s: Store, r: Split)
    ensures Commit(base, State(types, s), NOTHING.(splitEntities := [r])) == In(types, SplitEntity(Under(base, types), s, r))
  {
    hide Under, Commit, SplitEntity;
    EachOne(SplittingEntity(Under(base, types)), s, r);
    WritesOnly(base, types, s, NOTHING.(splitEntities := [r]));
  }

  lemma OneSplits(base: Base, types: Types, s: Store, items: seq<Split>)
    ensures Each(Committing(base), State(types, s), Splits(items)) == In(types, Each(SplittingEntity(Under(base, types)), s, items))
  {
    hide Under, Commit, SplitEntity;
    var wrap := (r: Split) => NOTHING.(splitEntities := [r]);
    forall t: Store, x: Split ensures Commit(base, State(types, t), wrap(x)) == In(types, SplittingEntity(Under(base, types))(t, x)) {
      OneSplit(base, types, t, x);
    }
    EachLifts(base, types, SplittingEntity(Under(base, types)), wrap, s, items);
  }

  lemma OneEdgeUpsert(base: Base, types: Types, s: Store, e: Edge)
    ensures Commit(base, State(types, s), NOTHING.(upsertEdges := [e])) == In(types, UpsertEdge(Under(base, types), s, e))
  {
    hide Under, Commit, UpsertEdge;
    EachOne(UpsertingEdge(Under(base, types)), s, e);
    WritesOnly(base, types, s, NOTHING.(upsertEdges := [e]));
  }

  lemma OneEdgeUpserts(base: Base, types: Types, s: Store, items: seq<Edge>)
    ensures Each(Committing(base), State(types, s), EdgeUpserts(items)) == In(types, Each(UpsertingEdge(Under(base, types)), s, items))
  {
    hide Under, Commit, UpsertEdge;
    var wrap := (e: Edge) => NOTHING.(upsertEdges := [e]);
    forall t: Store, x: Edge ensures Commit(base, State(types, t), wrap(x)) == In(types, UpsertingEdge(Under(base, types))(t, x)) {
      OneEdgeUpsert(base, types, t, x);
    }
    EachLifts(base, types, UpsertingEdge(Under(base, types)), wrap, s, items);
  }

  // ---------- the whole commit ----------

  lemma DeletePieces(base: Base, types: Types, s: Store, m: Mutations)
    ensures Each(Committing(base), State(types, s), Deletes(m)) == In(types, DeleteStages(Under(base, types), s, m))
  {
    hide Under, Commit, DeleteEdge, DeleteEntity, DeleteEdgeRequest, DeleteEntityRequest, Each, EdgeDeletes, EdgeRequests, EntityRequests, EntityDeletes;
    var rules, f, start := Under(base, types), Committing(base), State(types, s);
    var a, b, c, d := EdgeDeletes(m.deleteEdges), EdgeRequests(m.deleteEdgeRequests), EntityRequests(m.deleteEntityRequests), EntityDeletes(m.deleteEntities);
    EachConcat(f, start, a, b);
    EachConcat(f, start, a + b, c);
    EachConcat(f, start, a + b + c, d);
    OneEdgeDeletes(base, types, s, m.deleteEdges);
    var s1 := Each(DeleteEdge, s, m.deleteEdges);
    if s1.Some? {
      OneEdgeRequests(base, types, s1.value, m.deleteEdgeRequests);
      var s2 := Each(DeletingEdge(rules), s1.value, m.deleteEdgeRequests);
      if s2.Some? {
        OneEntityRequests(base, types, s2.value, m.deleteEntityRequests);
        var s3 := Each(DeletingEntity(rules), s2.value, m.deleteEntityRequests);
        if s3.Some? {
          OneEntityDeletes(base, types, s3.value, m.deleteEntities);
        }
      }
    }
  }

  lemma WritePieces(base: Base, types: Types, s: Store, m: Mutations)
    ensures Each(Committing(base), State(types, s), Writes(m)) ==
      var written := EntityStages(Under(base, types), s, m);
      if written.None? then None else In(types, Each(UpsertingEdge(Under(base, types)), written.value, m.upsertEdges))
  {
    hide Under, Commit, UpsertEntity, MarkStale, MergeEntities, SplitEntity, UpsertEdge, Each, EntityUpserts, StaleMarks, Merges, Splits, EdgeUpserts;
    var rules, f, start := Under(base, types), Committing(base), State(types, s);
    var a, b, c, d, e := EntityUpserts(m.upsertEntities), StaleMarks(m.markStale), Merges(m.mergeEntities), Splits(m.splitEntities), EdgeUpserts(m.upsertEdges);
    EachConcat(f, start, a, b);
    EachConcat(f, start, a + b, c);
    EachConcat(f, start, a + b + c, d);
    EachConcat(f, start, a + b + c + d, e);
    OneUpserts(base, types, s, m.upsertEntities);
    var s1 := Each(UpsertingEntity(rules), s, m.upsertEntities);
    if s1.Some? {
      OneStales(base, types, s1.value, m.markStale);
      var s2 := Each(MarkingStale(rules), s1.value, m.markStale);
      if s2.Some? {
        OneMerges(base, types, s2.value, m.mergeEntities);
        var s3 := Each(MergingEntities(rules), s2.value, m.mergeEntities);
        if s3.Some? {
          OneSplits(base, types, s3.value, m.splitEntities);
          var s4 := Each(SplittingEntity(rules), s3.value, m.splitEntities);
          if s4.Some? {
            OneEdgeUpserts(base, types, s4.value, m.upsertEdges);
          }
        }
      }
    }
  }

  lemma TypePieces(base: Base, types: Types, s: Store, m: Mutations)
    ensures Each(Committing(base), State(types, s), TypeChanges(m)) ==
      var s1 := DeleteRelations(s, m.deleteRelationTypes);
      if s1.None? then None
      else
        var next := ChangeTypes(base, types, s1.value.entities, m.deleteCITypes, m.upsertCITypes);
        if next.None? then None else In(next.value, UpsertRelations(s1.value, m.upsertRelationTypes))
  {
    hide Under, Commit, DeleteRelations, ChangeTypes, UpsertRelations, Each;
    var f, start := Committing(base), State(types, s);
    var a, b, c := TypeChanges(m)[0], TypeChanges(m)[1], TypeChanges(m)[2];
    assert TypeChanges(m) == [a] + [b] + [c];
    EachConcat(f, start, [a], [b]);
    EachConcat(f, start, [a] + [b], [c]);
    EachOne(f, start, a);
    OneTypeChange(base, types, s, m.deleteRelationTypes, []);
    var s1 := DeleteRelations(s, m.deleteRelationTypes);
    if s1.Some? {
      EachOne(f, State(types, s1.value), b);
      OneKindChange(base, types, s1.value, m.deleteCITypes, m.upsertCITypes);
      var next := ChangeTypes(base, types, s1.value.entities, m.deleteCITypes, m.upsertCITypes);
      if next.Some? {
        EachOne(f, State(next.value, s1.value), c);
        OneTypeChange(base, next.value, s1.value, [], m.upsertRelationTypes);
      }
    }
  }

  /** A commit is accepted, and results, as its pieces committed one at a time: nothing is checked against, or
      written to, anything but the graph the pieces before it left. */
  lemma CommitIsItsPieces(base: Base, s: State, m: Mutations)
    ensures Commit(base, s, m) == Each(Committing(base), s, Pieces(m))
  {
    hide Under, DeleteStages, DeleteRelations, ChangeTypes, UpsertRelations, EntityStages, UpsertingEdge, Each, Deletes, TypeChanges, Writes;
    var f := Committing(base);
    EachConcat(f, s, Deletes(m), TypeChanges(m));
    EachConcat(f, s, Deletes(m) + TypeChanges(m), Writes(m));
    DeletePieces(base, s.types, s.store, m);
    var s1 := DeleteStages(Under(base, s.types), s.store, m);
    if s1.Some? {
      TypePieces(base, s.types, s1.value, m);
      var s2 := DeleteRelations(s1.value, m.deleteRelationTypes);
      if s2.Some? {
        var types := ChangeTypes(base, s.types, s2.value.entities, m.deleteCITypes, m.upsertCITypes);
        if types.Some? && UpsertRelations(s2.value, m.upsertRelationTypes).Some? {
          WritePieces(base, types.value, UpsertRelations(s2.value, m.upsertRelationTypes).value, m);
        }
      }
    }
  }
}
