/** Which maps a commit may write, read off its mutations (internal/graph/copy_on_write.go). A storage copy
    shares the maps outside the impact with the published graph. */
module GraphImpacts {
  import opened GraphModel
  import opened GraphReference

  datatype Impact = Impact(types: bool, entities: bool, relations: bool, edges: bool)

  /** storageMutationImpactFor. */
  function ImpactOf(m: Mutations): Impact {
    var entityChanges :=
      m.upsertEntities != [] || m.deleteEntities != [] || m.deleteEntityRequests != [] || |m.markStale| > 0 || m.mergeEntities != [] || m.splitEntities != [];
    Impact(
      m.upsertCITypes != [] || m.deleteCITypes != [],
      entityChanges,
      m.upsertRelationTypes != [] || m.deleteRelationTypes != [],
      m.upsertEdges != [] || m.deleteEdges != [] || m.deleteEdgeRequests != [] || m.deleteRelationTypes != []
      || m.deleteEntities != [] || m.deleteEntityRequests != [] || |m.markStale| > 0 || m.mergeEntities != [] || m.splitEntities != [])
  }

  const EVERYTHING := Impact(true, true, true, true)

  /** A copy made for `impact` may take the commit. */
  predicate Covers(impact: Impact, m: Mutations) {
    var i := ImpactOf(m);
    (i.types ==> impact.types) && (i.entities ==> impact.entities) && (i.relations ==> impact.relations) && (i.edges ==> impact.edges)
  }

  function Joined(a: Impact, b: Impact): Impact {
    Impact(a.types || b.types, a.entities || b.entities, a.relations || b.relations, a.edges || b.edges)
  }

  /** The impact of a batch, flag by flag. */
  function ImpactOfAll(commits: seq<Mutations>): Impact
    decreases |commits|
  {
    if commits == [] then Impact(false, false, false, false)
    else Joined(ImpactOfAll(commits[..|commits| - 1]), ImpactOf(commits[|commits| - 1]))
  }

  lemma {:induction false} BatchCovers(commits: seq<Mutations>, m: Mutations)
    requires m in commits
    ensures Covers(ImpactOfAll(commits), m)
    decreases |commits|
  {
    if m != commits[|commits| - 1] {
      BatchCovers(commits[..|commits| - 1], m);
    }
  }

  datatype Side = EntitySide | RelationSide | EdgeSide

  /** One of the maps is the same in both stores. */
  predicate Same(side: Side, s: Store, t: Store) {
    match side
    case EntitySide => s.entities == t.entities
    case RelationSide => s.relations == t.relations
    case EdgeSide => s.edges == t.edges
  }

  ghost predicate Keeps<A(!new)>(f: (Store, A) -> Option<Store>, side: Side) {
    forall s, x :: f(s, x).Some? ==> Same(side, s, f(s, x).value)
  }

  lemma {:induction false} EachKeeps<A(!new)>(f: (Store, A) -> Option<Store>, side: Side, s: Store, items: seq<A>)
    requires Each(f, s, items).Some? && (Keeps(f, side) || items == [])
    ensures Same(side, s, Each(f, s, items).value)
    decreases |items|
  {
    if items != [] {
      EachKeeps(f, side, s, items[..|items| - 1]);
    }
  }

  lemma {:induction false} MergeSourcesKeep(rules: Rules, m: Merging, target: string, sources: seq<string>)
    requires MergeSources(rules, m, target, sources).Some?
    ensures MergeSources(rules, m, target, sources).value.store.relations == m.store.relations
    decreases |sources|
  {
    if sources != [] {
      MergeSourcesKeep(rules, m, target, sources[..|sources| - 1]);
    }
  }

  lemma EdgeStepsKeep(rules: Rules)
    ensures Keeps(DeleteEdge, EntitySide) && Keeps(DeleteEdge, RelationSide)
    ensures Keeps(DeletingEdge(rules), EntitySide) && Keeps(DeletingEdge(rules), RelationSide)
    ensures Keeps(UpsertingEdge(rules), EntitySide) && Keeps(UpsertingEdge(rules), RelationSide)
  {
    hide ResolveEdge, EdgeHolds, EdgeOk, MergedEdge;
  }

  lemma EntityStepsKeep(rules: Rules)
    ensures Keeps(DeletingEntity(rules), RelationSide) && Keeps(DeleteEntity, RelationSide)
    ensures Keeps(UpsertingEntity(rules), RelationSide) && Keeps(UpsertingEntity(rules), EdgeSide)
    ensures Keeps(MarkingStale(rules), RelationSide)
  {
    hide ResolveEntity, ResolveReference, Owners, Single, EntityFits, TargetOf, StaleMarked, Detached;
  }

  lemma MergeKeeps(rules: Rules)
    ensures Keeps(MergingEntities(rules), RelationSide)
  {
    hide EntityFits, EdgeHolds, MergeSource;
    forall s, r | MergeEntities(rules, s, r).Some? ensures Same(RelationSide, s, MergeEntities(rules, s, r).value) {
      MergeSourcesKeep(rules, Merging(s, s.entities[r.target], {}), r.target, r.sources);
    }
  }

  lemma SplitKeeps(rules: Rules)
    ensures Keeps(SplittingEntity(rules), RelationSide)
  {
    forall s, r | SplitEntity(rules, s, r).Some? ensures Same(RelationSide, s, SplitEntity(rules, s, r).value) {
      PartKeeps(rules, r.source);
      EachKeeps(SplitPart(rules, r.source), RelationSide, WithoutEntity(s, r.source), r.parts);
    }
  }

  lemma PartKeeps(rules: Rules, source: string)
    ensures Keeps(SplitPart(rules, source), RelationSide)
  {
    hide EntityFits;
  }

  lemma DeleteStagesKeep(rules: Rules, s: Store, m: Mutations, side: Side)
    requires DeleteStages(rules, s, m).Some?
    requires side.EdgeSide? ==> m.deleteEdges == [] && m.deleteEdgeRequests == [] && m.deleteEntityRequests == [] && m.deleteEntities == []
    requires side.EntitySide? ==> m.deleteEntityRequests == [] && m.deleteEntities == []
    ensures Same(side, s, DeleteStages(rules, s, m).value)
  {
    EdgeStepsKeep(rules);
    EntityStepsKeep(rules);
    hide Keeps, DeleteEdge, DeleteEdgeRequest, DeleteEntityRequest, DeleteEntity, Each;
    EachKeeps(DeleteEdge, side, s, m.deleteEdges);
    var s1 := Each(DeleteEdge, s, m.deleteEdges).value;
    EachKeeps(DeletingEdge(rules), side, s1, m.deleteEdgeRequests);
    var s2 := Each(DeletingEdge(rules), s1, m.deleteEdgeRequests).value;
    EachKeeps(DeletingEntity(rules), side, s2, m.deleteEntityRequests);
    var s3 := Each(DeletingEntity(rules), s2, m.deleteEntityRequests).value;
    EachKeeps(DeleteEntity, side, s3, m.deleteEntities);
  }

  lemma DeleteRelationsKeep(s: Store, names: seq<string>, side: Side)
    requires DeleteRelations(s, names).Some? && (side.EntitySide? || names == [])
    ensures Same(side, s, DeleteRelations(s, names).value)
  {
    if names == [] {
      assert s.relations - (set n | n in names) == s.relations;
      assert Untyped(s.edges, set n | n in names) == s.edges;
    }
  }

  lemma UpsertRelationsKeep(s: Store, types: seq<RelationType>, side: Side)
    requires UpsertRelations(s, types).Some? && (side.RelationSide? ==> types == [])
    ensures Same(side, s, UpsertRelations(s, types).value)
  {
    hide EdgeHolds;
  }

  lemma EntityStagesKeep(rules: Rules, s: Store, m: Mutations, side: Side)
    requires EntityStages(rules, s, m).Some?
    requires side.EdgeSide? ==> m.markStale == [] && m.mergeEntities == [] && m.splitEntities == []
    requires side.EntitySide? ==> m.upsertEntities == [] && m.markStale == [] && m.mergeEntities == [] && m.splitEntities == []
    ensures Same(side, s, EntityStages(rules, s, m).value)
  {
    EntityStepsKeep(rules);
    MergeKeeps(rules);
    SplitKeeps(rules);
    hide Keeps, UpsertEntity, MarkStale, MergeEntities, SplitEntity, Each;
    EachKeeps(UpsertingEntity(rules), side, s, m.upsertEntities);
    var s1 := Each(UpsertingEntity(rules), s, m.upsertEntities).value;
    EachKeeps(MarkingStale(rules), side, s1, m.markStale);
    var s2 := Each(MarkingStale(rules), s1, m.markStale).value;
    EachKeeps(MergingEntities(rules), side, s2, m.mergeEntities);
    var s3 := Each(MergingEntities(rules), s2, m.mergeEntities).value;
    EachKeeps(SplittingEntity(rules), side, s3, m.splitEntities);
  }

  /** A commit writes no map outside its impact. */
  lemma ImpactCovers(base: Base, s: State, m: Mutations)
    requires Commit(base, s, m).Some?
    ensures var after := Commit(base, s, m).value;
      && (!ImpactOf(m).types ==> after.types == s.types)
      && (!ImpactOf(m).entities ==> after.store.entities == s.store.entities)
      && (!ImpactOf(m).relations ==> after.store.relations == s.store.relations)
      && (!ImpactOf(m).edges ==> after.store.edges == s.store.edges)
  {
    hide DeleteStages, DeleteRelations, UpsertRelations, EntityStages, UpsertEdge, Each, Under;
    if !ImpactOf(m).entities {
      CommitKeeps(base, s, m, EntitySide);
    }
    if !ImpactOf(m).relations {
      CommitKeeps(base, s, m, RelationSide);
    }
    if !ImpactOf(m).edges {
      CommitKeeps(base, s, m, EdgeSide);
    }
  }

  lemma CommitKeeps(base: Base, s: State, m: Mutations, side: Side)
    requires Commit(base, s, m).Some?
    requires side.EntitySide? ==> !ImpactOf(m).entities
    requires side.RelationSide? ==> !ImpactOf(m).relations
    requires side.EdgeSide? ==> !ImpactOf(m).edges
    ensures Same(side, s.store, Commit(base, s, m).value.store)
  {
    hide Keeps, DeleteStages, DeleteRelations, UpsertRelations, EntityStages, UpsertEdge, Each, Under, ChangeTypes;
    var rules := Under(base, s.types);
    DeleteStagesKeep(rules, s.store, m, side);
    var s1 := DeleteStages(rules, s.store, m).value;
    DeleteRelationsKeep(s1, m.deleteRelationTypes, side);
    var s2 := DeleteRelations(s1, m.deleteRelationTypes).value;
    var after := Under(base, ChangeTypes(base, s.types, s2.entities, m.deleteCITypes, m.upsertCITypes).value);
    UpsertRelationsKeep(s2, m.upsertRelationTypes, side);
    var s3 := UpsertRelations(s2, m.upsertRelationTypes).value;
    EntityStagesKeep(after, s3, m, side);
    var s4 := EntityStages(after, s3, m).value;
    EdgeStepsKeep(after);
    EachKeeps(UpsertingEdge(after), side, s4, m.upsertEdges);
  }
}
