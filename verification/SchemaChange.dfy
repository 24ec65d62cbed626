/** A change of entity kinds inside a commit: which kinds it reaches, and the checks it makes on their
    entities (internal/graph/ci_type_mutation.go, schema.go). */
module SchemaChanges {
  import opened CommitSteps
  import opened GraphModel
  import opened CopyOnWrites
  import opened GraphIndexes
  import opened GraphReference
  import opened GraphConsistency
  import opened Schemas
  import opened UniqueFields

  // ---------- the kinds below a change ----------

  /** `children` lists the kinds of `some` under each of their parents. */
  ghost predicate ListsSome(types: Types, some: set<string>, children: map<string, seq<string>>) {
    forall k, p :: k in Children(children, p) <==> k in some && k in types && p in types[k].parents
  }

  lemma ListedOneMore(children: map<string, seq<string>>, kind: string, parent: string)
    ensures forall k, p :: k in Children(children[parent := Children(children, parent) + [kind]], p) <==> k in Children(children, p) || (k == kind && p == parent)
  {
  }

  /** The inner loop: list one kind under its parents. */
  method ListKind(types: Types, kind: string, before: map<string, seq<string>>) returns (children: map<string, seq<string>>)
    requires kind in types
    ensures forall k, p :: k in Children(children, p) <==> k in Children(before, p) || (k == kind && p in types[kind].parents)
  {
    hide Children;
    var parents := types[kind].parents;
    children := before;
    for i := 0 to |parents|
      invariant forall k, p :: k in Children(children, p) <==> k in Children(before, p) || (k == kind && p in parents[..i])
    {
      ListedOneMore(children, kind, parents[i]);
      ghost var listed := children;
      children := children[parents[i] := Children(children, parents[i]) + [kind]];
      forall k, p ensures k in Children(children, p) <==> k in Children(before, p) || (k == kind && p in parents[..i + 1]) {
        assert p in parents[..i + 1] <==> p in parents[..i] || p == parents[i];
        assert k in Children(children, p) <==> k in Children(listed, p) || (k == kind && p == parents[i]);
      }
    }
    assert parents[..|parents|] == parents;
  }

  /** The child lists of all kinds. */
  method ListChildren(types: Types) returns (children: map<string, seq<string>>)
    ensures ListsSome(types, types.Keys, children)
  {
    children := map[];
    var todo := types.Keys;
    while todo != {}
      invariant todo <= types.Keys && ListsSome(types, types.Keys - todo, children)
      decreases todo
    {
      var kind :| kind in todo;
      children := ListKind(types, kind, children);
      todo := todo - {kind};
    }
  }

  /** Everything in `queue` is still to be expanded; the rest of `affected` has been. */
  ghost predicate Expanding(types: Types, affected: set<string>, queue: seq<string>) {
    && (forall k :: k in queue ==> k in affected)
    && forall k, p :: k in types && p in types[k].parents && p in affected && p !in queue ==> k in affected
  }

  lemma ChildBelow(types: Types, changed: set<string>, kind: string, parent: string)
    requires ParentsExist(types) && Below(types, changed, parent) && kind in types && parent in types[kind].parents
    ensures Below(types, changed, kind)
  {
    if parent in changed {
      assert [kind, parent][1..] == [parent];
      assert Ancestry(types, kind, [kind, parent]);
    } else {
      var path :| Ancestry(types, parent, path) && path[|path| - 1] in changed;
      assert ([kind] + path)[1..] == path;
      assert Ancestry(types, kind, [kind] + path);
    }
  }

  /** A set closed under children holds everything below what it holds. */
  lemma {:induction false} ClosedHoldsBelow(types: Types, affected: set<string>, path: seq<string>)
    requires Expanding(types, affected, []) && Chain(types, path) && path[|path| - 1] in affected
    ensures path[0] in affected
    decreases |path|
  {
    if |path| > 1 {
      ClosedHoldsBelow(types, affected, path[1..]);
    }
  }

  /** The children of one affected kind. */
  method Spread(types: Types, changed: set<string>, parent: string, list: seq<string>, before: set<string>, waiting: seq<string>) returns (affected: set<string>, queue: seq<string>)
    requires ParentsExist(types) && Below(types, changed, parent)
    requires forall k :: k in list ==> k in types && parent in types[k].parents
    requires forall k :: k in before ==> Below(types, changed, k)
    ensures affected == before + Among(list)
    ensures forall k :: k in affected ==> Below(types, changed, k)
    ensures forall k :: k in queue <==> k in waiting || k in affected - before
    ensures affected == before ==> queue == waiting
  {
    hide Below, ParentsExist;
    affected, queue := before, waiting;
    for i := 0 to |list|
      invariant affected == before + Among(list[..i])
      invariant forall k :: k in affected ==> Below(types, changed, k)
      invariant forall k :: k in queue <==> k in waiting || k in affected - before
      invariant affected == before ==> queue == waiting
    {
      var child := list[i];
      assert child in list;
      assert Among(list[..i + 1]) == Among(list[..i]) + {child};
      if child !in affected {
        ChildBelow(types, changed, child, parent);
        affected := affected + {child};
        queue := queue + [child];
      }
    }
    assert list[..|list|] == list;
  }

  lemma Expanded(types: Types, children: map<string, seq<string>>, before: set<string>, affected: set<string>, waiting: seq<string>, queue: seq<string>)
    requires ListsSome(types, types.Keys, children) && waiting != [] && Expanding(types, before, waiting)
    requires affected == before + Among(Children(children, waiting[0]))
    requires forall k :: k in queue <==> k in waiting[1..] || k in affected - before
    ensures Expanding(types, affected, queue)
  {
    forall k, p | k in types && p in types[k].parents && p in affected && p !in queue ensures k in affected {
      assert p in before && p !in waiting[1..];
      if p == waiting[0] {
        assert k in Children(children, p);
      }
    }
  }

  method Listing(kinds: set<string>) returns (list: seq<string>)
    ensures forall k :: k in list <==> k in kinds
  {
    list := [];
    var todo := kinds;
    while todo != {}
      invariant todo <= kinds && forall k :: k in list <==> k in kinds - todo
      decreases todo
    {
      var k :| k in todo;
      list, todo := list + [k], todo - {k};
    }
  }

  /** affectedCITypeKinds: the queue reaches exactly the kinds below a changed one. */
  method AffectedKinds(types: Types, changed: set<string>) returns (affected: set<string>)
    requires ParentsExist(types)
    ensures forall k :: k in affected <==> Below(types, changed, k)
  {
    var children := ListChildren(types);
    affected := changed;
    var queue := Listing(affected);
    hide Below, ParentsExist, Children;
    assert forall k :: k in changed ==> Below(types, changed, k) by {
      ChangedBelow(types, changed);
    }
    while queue != []
      invariant changed <= affected <= changed + types.Keys && Expanding(types, affected, queue)
      invariant forall k :: k in affected ==> Below(types, changed, k)
      decreases changed + types.Keys - affected, |queue|
    {
      var parent := queue[0];
      ghost var before, waiting := affected, queue;
      assert parent in queue;
      affected, queue := Spread(types, changed, parent, Children(children, parent), affected, queue[1..]);
      Expanded(types, children, before, affected, waiting, queue);
      assert affected != before ==> changed + types.Keys - affected < changed + types.Keys - before;
    }
    forall k | Below(types, changed, k) ensures k in affected {
      BelowIsHeld(types, changed, affected, k);
    }
  }

  lemma ChangedBelow(types: Types, changed: set<string>)
    ensures forall k :: k in changed ==> Below(types, changed, k)
  {
  }

  lemma BelowIsHeld(types: Types, changed: set<string>, affected: set<string>, kind: string)
    requires Expanding(types, affected, []) && changed <= affected && Below(types, changed, kind)
    ensures kind in affected
  {
    if kind !in changed {
      var path :| Ancestry(types, kind, path) && path[|path| - 1] in changed;
      ClosedHoldsBelow(types, affected, path);
    }
  }

  // ---------- the entities of those kinds ----------

  /** The entities of some kinds among those already visited. */
  ghost function Visited(entities: Entities, kinds: set<string>, todo: set<string>): Entities {
    map id | id in entities && id !in todo && entities[id].kind in kinds :: entities[id]
  }

  /** What has been checked of the visited ones. */
  ghost predicate FitSoFar(base: Base, types: Types, entities: Entities, visited: Entities) {
    var rules := Under(base, types);
    forall id :: id in visited ==> rules.conforms(visited[id]) && !Clashes(rules.unique, entities, visited[id])
  }

  lemma VisitedStep(entities: Entities, kinds: set<string>, todo: set<string>, id: string)
    requires id in entities && id in todo
    ensures Visited(entities, kinds, todo - {id}) == if entities[id].kind in kinds then Visited(entities, kinds, todo)[id := entities[id]] else Visited(entities, kinds, todo)
    ensures id !in Visited(entities, kinds, todo)
  {
  }

  lemma ClaimedApart(signs: Signer, owners: map<(string, string), string>, visited: Entities, id: string, e: Entity)
    requires Identifies(signs, owners, visited) && id !in visited
    requires forall s :: s in Signatures(signs, e) ==> (e.kind, s) !in owners
    ensures Identifies(signs, owners + map s | s in Signatures(signs, e) :: (e.kind, s) := id, visited[id := e])
  {
  }

  /** A signature already claimed is shared with the entity that claimed it. */
  lemma ClaimedTwice(base: Base, types: Types, owners: map<(string, string), string>, entities: Entities, kinds: set<string>, visited: Entities, id: string, s: string)
    requires Identifies(RuleSigns(base, types), owners, visited) && id in entities && id !in visited && entities[id].kind in kinds
    requires forall x :: x in visited ==> x in entities && visited[x] == entities[x]
    requires s in Signatures(RuleSigns(base, types), entities[id]) && (entities[id].kind, s) in owners
    ensures !KindsFit(base, types, entities, iset k | k in kinds)
  {
    hide RuleSigns, Under;
    var other := owners[(entities[id].kind, s)];
    assert s in Signatures(RuleSigns(base, types), entities[other]);
  }

  lemma NoFit(base: Base, types: Types, entities: Entities, kinds: set<string>, id: string)
    requires id in entities && entities[id].id == id && entities[id].kind in kinds
    requires !Under(base, types).conforms(entities[id]) || Clashes(Under(base, types).unique, entities, entities[id])
    ensures !KindsFit(base, types, entities, iset k | k in kinds)
  {
    hide Under, RuleSigns;
  }

  lemma AllFit(base: Base, types: Types, owners: map<(string, string), string>, entities: Entities, kinds: set<string>)
    requires EntitiesKeyed(entities) && FitSoFar(base, types, entities, Visited(entities, kinds, {}))
    requires Identifies(RuleSigns(base, types), owners, Visited(entities, kinds, {}))
    ensures KindsFit(base, types, entities, iset k | k in kinds)
  {
    hide Under, RuleSigns;
    var visited := Visited(entities, kinds, {});
    var unique := Under(base, types).unique;
    IdentifiesSeparates(RuleSigns(base, types), owners, visited);
    forall id | id in entities && entities[id].kind in kinds ensures Under(base, types).conforms(entities[id]) {
      assert id in visited;
    }
    forall i, j | i in entities && j in entities && i != j && entities[i].kind in kinds ensures !SharesUnique(unique, entities[i], entities[j]) {
      assert i in visited && !Clashes(unique, entities, visited[i]);
    }
    forall i, j | i in entities && j in entities && i != j && entities[i].kind == entities[j].kind && entities[i].kind in kinds
      ensures Signatures(RuleSigns(base, types), entities[i]) !! Signatures(RuleSigns(base, types), entities[j])
    {
      assert i in visited && j in visited;
    }
  }

  /** validateEntitiesAgainstCITypesForKinds: one pass with a validator and a table of identity owners finds
      whether the entities of some kinds fit. */
  method ValidateEntities(base: Base, types: Types, entities: Entities, kinds: set<string>, fields: FieldPostings) returns (ok: bool)
    requires EntitiesKeyed(entities) && Lists(fields, ByField(entities))
    ensures ok <==> KindsFit(base, types, entities, iset k | k in kinds)
  {
    hide Under, RuleSigns, KindsFit, EntitiesKeyed, Lists, Signatures, Identifies, PostsOthers, Validator.Complete, FitSoFar;
    var rules, signs := Under(base, types), RuleSigns(base, types);
    var validator := new Validator(rules.unique);
    var owners: map<(string, string), string> := map[];
    var todo := entities.Keys;
    Nothing(base, types, entities, kinds, validator);
    while todo != {}
      invariant todo <= entities.Keys && FitSoFar(base, types, entities, Visited(entities, kinds, todo))
      invariant Identifies(signs, owners, Visited(entities, kinds, todo))
      invariant validator.unique == rules.unique && validator.Complete(entities)
      decreases todo
    {
      var id :| id in todo;
      var e := entities[id];
      VisitedStep(entities, kinds, todo, id);
      if e.kind in kinds {
        ok := ValidateEntity(base, types, entities, id, fields, validator);
        if !ok {
          NoFit(base, types, entities, kinds, id);
          return;
        }
        var mine := Signatures(signs, e);
        if exists s :: s in mine && (e.kind, s) in owners {
          ghost var s :| s in mine && (e.kind, s) in owners;
          ClaimedTwice(base, types, owners, entities, kinds, Visited(entities, kinds, todo), id, s);
          return false;
        }
        FitOneMore(base, types, entities, Visited(entities, kinds, todo), id);
        ClaimedApart(signs, owners, Visited(entities, kinds, todo), id, e);
        owners := owners + map s | s in mine :: (e.kind, s) := id;
      }
      todo := todo - {id};
    }
    AllFit(base, types, owners, entities, kinds);
    ok := true;
  }

  lemma Nothing(base: Base, types: Types, entities: Entities, kinds: set<string>, validator: Validator)
    requires validator.prepared == {}
    ensures FitSoFar(base, types, entities, Visited(entities, kinds, entities.Keys))
    ensures Identifies(RuleSigns(base, types), map[], Visited(entities, kinds, entities.Keys))
    ensures validator.Complete(entities)
  {
  }

  lemma FitOneMore(base: Base, types: Types, entities: Entities, visited: Entities, id: string)
    requires id in entities && FitSoFar(base, types, entities, visited)
    requires Under(base, types).conforms(entities[id]) && !Clashes(Under(base, types).unique, entities, entities[id])
    ensures FitSoFar(base, types, entities, visited[id := entities[id]])
  {
    hide Under;
  }

  /** One stored entity against the fields of its kind and the other entities. */
  method ValidateEntity(base: Base, types: Types, entities: Entities, id: string, fields: FieldPostings, validator: Validator) returns (ok: bool)
    requires EntitiesKeyed(entities) && Lists(fields, ByField(entities)) && id in entities
    requires validator.unique == Under(base, types).unique && validator.Complete(entities)
    modifies validator
    ensures validator.Complete(entities) && entities[id].id == id
    ensures ok <==> Under(base, types).conforms(entities[id]) && !Clashes(Under(base, types).unique, entities, entities[id])
  {
    var e := entities[id];
    if !Under(base, types).conforms(e) {
      return false;
    }
    assert PostsOthers(fields, entities, e.id) by {
      forall k, x ensures x in At(fields, k) <==> ByField(entities)(k, x) {
      }
    }
    hide Under, Lists, PostsOthers, Clashes, Validator.Complete, ListsAll;
    validator.StaysComplete(entities, entities - {id});
    ok := validator.Validate(e, entities, fields);
  }

  /** Kinds without entities fit. */
  lemma OnlyUsedMatter(base: Base, types: Types, entities: Entities, affected: set<string>, kinds: iset<string>)
    requires forall k :: k in affected <==> k in kinds
    ensures KindsFit(base, types, entities, iset k | k in affected * UsedKinds(entities)) <==> KindsFit(base, types, entities, kinds)
  {
    hide Under, RuleSigns, Signatures, SharesUnique;
    assert forall id :: id in entities ==> entities[id].kind in UsedKinds(entities);
  }

  /** Entities of kinds that were not changed keep their identities. */
  lemma KeysKept(base: Base, before: Types, after: Types, changed: set<string>, entities: Entities)
    requires AgreeBut(before, after, changed)
    ensures forall id :: id in entities && entities[id].kind !in changed * UsedKinds(entities) ==>
      Signatures(Under(base, after).signs, entities[id]) == Signatures(Under(base, before).signs, entities[id])
  {
    forall id | id in entities && entities[id].kind !in changed * UsedKinds(entities)
      ensures Signatures(Under(base, after).signs, entities[id]) == Signatures(Under(base, before).signs, entities[id])
    {
      var e := entities[id];
      assert e.kind in UsedKinds(entities) && e.kind !in changed;
      SignsAre(base, before, e);
      SignsAre(base, after, e);
      hide Under;
      assert Signatures(RuleSigns(base, before), e) == Signatures(RuleSigns(base, after), e);
    }
  }
}
