/** What a merge does to the maps: where every edge goes, what the target becomes, and when the whole graph accepts it
    (internal/graph/merge.go, merge_edges.go). */
module GraphMerges {
  import opened GraphModel
  import opened GraphReference
  import opened GraphConsistency
  import opened GraphPieces
  import opened GraphEffects
  import opened GraphWrites
  import opened Schemas
  import opened StringOrder

  // ---------- edges that move ----------

  datatype Ends = Ends(typ: string, source: string, target: string)

  function EndsOf(e: Edge): Ends {
    Ends(e.typ, e.source, e.target)
  }

  type Naming = (string, string, string) -> string

  function KeyOf(canonical: Naming, e: Ends): string {
    canonical(e.typ, e.source, e.target)
  }

  /** No other edge goes where this one goes. */
  ghost predicate Alone(to: map<string, Ends>, k: string)
    requires k in to
  {
    forall b :: b in to && b != k ==> to[b] != to[k]
  }

  /** Every edge goes where `to` says, under the identity it has there, and no edge comes from elsewhere. */
  ghost predicate Lands(canonical: Naming, to: map<string, Ends>, after: Edges) {
    && after.Keys == (set k | k in to :: KeyOf(canonical, to[k]))
    && forall k :: k in to ==> EndsOf(after[KeyOf(canonical, to[k])]) == to[k] && after[KeyOf(canonical, to[k])].id == KeyOf(canonical, to[k])
  }

  /** So all edges move. One that meets no other is the same if it stays; if it moves, it keeps its aliases and its old
      identity becomes one. */
  ghost predicate Moves(canonical: Naming, before: Edges, to: map<string, Ends>, after: Edges) {
    && to.Keys == before.Keys
    && Lands(canonical, to, after)
    && (forall k :: k in before && Alone(to, k) ==> Arrives(before, to, after, k, KeyOf(canonical, to[k])))
  }

  ghost predicate Arrives(before: Edges, to: map<string, Ends>, after: Edges, k: string, x: string)
    requires k in before && k in to
  {
    && x in after
    && (to[k] == EndsOf(before[k]) ==> after[x] == before[k])
    && (to[k] != EndsOf(before[k]) ==>
          && (k != "" ==> k in after[x].aliases)
          && forall a :: a in before[k].aliases ==> a in after[x].aliases)
  }

  function Followed(canonical: Naming, first: map<string, Ends>, second: map<string, Ends>): map<string, Ends>
    requires forall k :: k in first ==> KeyOf(canonical, first[k]) in second
  {
    map k | k in first :: second[KeyOf(canonical, first[k])]
  }

  lemma MovesTwice(canonical: Naming, before: Edges, first: map<string, Ends>, mid: Edges, second: map<string, Ends>, after: Edges)
    requires Injective(canonical) && EdgesKeyed(canonical, before) && Moves(canonical, before, first, mid) && Moves(canonical, mid, second, after)
    requires forall k :: k in before && k in first && KeyOf(canonical, first[k]) in second && first[k] != EndsOf(before[k]) ==>
      second[KeyOf(canonical, first[k])] != EndsOf(before[k])
    ensures (forall k :: k in first ==> KeyOf(canonical, first[k]) in second) && Moves(canonical, before, Followed(canonical, first, second), after)
  {
    hide Lands, Arrives, Alone, Injective, KeyOf;
    LandsTwice(canonical, first, mid, second, after);
    var to := Followed(canonical, first, second);
    forall k | k in before && Alone(to, k) ensures Arrives(before, to, after, k, KeyOf(canonical, to[k])) {
      SecondKeys(canonical, first, mid, second);
      AloneTwice(canonical, first, second, k);
      LandsAt(canonical, first, mid, k);
      OwnKey(canonical, before, k);
      ArrivesTwice(canonical, before, first, mid, second, after, k);
    }
  }

  lemma SecondKeys(canonical: Naming, first: map<string, Ends>, mid: Edges, second: map<string, Ends>)
    requires Lands(canonical, first, mid) && second.Keys == mid.Keys
    ensures second.Keys == (set x | x in first :: KeyOf(canonical, first[x]))
  {
  }

  lemma ArrivesTwice(canonical: Naming, before: Edges, first: map<string, Ends>, mid: Edges, second: map<string, Ends>, after: Edges, k: string)
    requires k in before && k in first && KeyOf(canonical, first[k]) in second && KeyOf(canonical, first[k]) in mid
    requires EndsOf(mid[KeyOf(canonical, first[k])]) == first[k] && KeyOf(canonical, EndsOf(before[k])) == k
    requires Arrives(before, first, mid, k, KeyOf(canonical, first[k]))
    requires Arrives(mid, second, after, KeyOf(canonical, first[k]), KeyOf(canonical, second[KeyOf(canonical, first[k])]))
    requires first[k] != EndsOf(before[k]) ==> second[KeyOf(canonical, first[k])] != EndsOf(before[k])
    requires forall k :: k in first ==> KeyOf(canonical, first[k]) in second
    ensures Arrives(before, Followed(canonical, first, second), after, k, KeyOf(canonical, Followed(canonical, first, second)[k]))
  {
    hide KeyOf;
  }

  lemma OwnKey(canonical: Naming, edges: Edges, k: string)
    requires EdgesKeyed(canonical, edges) && k in edges
    ensures KeyOf(canonical, EndsOf(edges[k])) == k
  {
  }

  lemma LandsAt(canonical: Naming, to: map<string, Ends>, after: Edges, k: string)
    requires Lands(canonical, to, after) && k in to
    ensures KeyOf(canonical, to[k]) in after && EndsOf(after[KeyOf(canonical, to[k])]) == to[k]
  {
  }

  lemma LandsTwice(canonical: Naming, first: map<string, Ends>, mid: Edges, second: map<string, Ends>, after: Edges)
    requires Lands(canonical, first, mid) && Lands(canonical, second, after) && second.Keys == mid.Keys
    ensures (forall k :: k in first ==> KeyOf(canonical, first[k]) in second) && Lands(canonical, Followed(canonical, first, second), after)
  {
    hide KeyOf;
    var to := Followed(canonical, first, second);
    forall x | x in after ensures x in set k | k in to :: KeyOf(canonical, to[k]) {
      var y :| y in second && x == KeyOf(canonical, second[y]);
      var k :| k in first && y == KeyOf(canonical, first[k]);
      assert to[k] == second[y];
    }
  }

  lemma AloneTwice(canonical: Naming, first: map<string, Ends>, second: map<string, Ends>, k: string)
    requires second.Keys == (set x | x in first :: KeyOf(canonical, first[x]))
    requires Injective(canonical) && k in first && Alone(Followed(canonical, first, second), k)
    ensures Alone(first, k) && Alone(second, KeyOf(canonical, first[k]))
  {
    var to, x := Followed(canonical, first, second), KeyOf(canonical, first[k]);
    forall b | b in first && b != k ensures first[b] != first[k] {
      assert to[b] != to[k];
    }
    forall y | y in second && y != x ensures second[y] != second[x] {
      var b :| b in first && y == KeyOf(canonical, first[b]);
      assert b != k && to[b] != to[k];
    }
  }

  // ---------- one redirected edge ----------

  function MovedEnd(x: string, source: string, target: string): string {
    if x == source then target else x
  }

  function MovedEnds(e: Edge, source: string, target: string): Ends {
    Ends(e.typ, MovedEnd(e.source, source, target), MovedEnd(e.target, source, target))
  }

  /** Where edges are when those in `done` have been redirected. */
  function Redirecting(edges: Edges, done: set<string>, source: string, target: string): map<string, Ends> {
    map k | k in edges :: if k in done then MovedEnds(edges[k], source, target) else EndsOf(edges[k])
  }

  lemma OneRedirected(rules: Rules, edges: Edges, id: string, source: string, target: string)
    requires Injective(rules.canonical) && EdgesKeyed(rules.canonical, edges) && id in edges && source != target && Incident(edges[id], source)
    ensures Moves(rules.canonical, edges, Redirecting(edges, {id}, source, target), RedirectOne(rules, edges, id, source, target))
  {
    hide Lands, KeyOf, Injective, EdgesKeyed, Redirecting;
    var to, after := Redirecting(edges, {id}, source, target), RedirectOne(rules, edges, id, source, target);
    var next := KeyOf(rules.canonical, MovedEnds(edges[id], source, target));
    OneKeys(rules, edges, id, source, target);
    OneLands(rules, edges, id, source, target);
    RedirectOneMoves(rules, edges, id, source, target);
    NextIs(rules, edges, id, source, target);
    RedirectingKeys(edges, {id}, source, target);
    KeyedIds(rules.canonical, edges);
    forall k | k in edges && Alone(to, k) ensures Arrives(edges, to, after, k, KeyOf(rules.canonical, to[k])) {
      if next in edges {
        assert to[next] == to[id];
      } else if k == id {
        assert after[next] == Canonicalized(rules, Redirected(edges[id], source, target));
      }
    }
  }

  /** Only the redirected edge has new ends, and they name another edge. */
  lemma OneKeys(rules: Rules, edges: Edges, id: string, source: string, target: string)
    requires Injective(rules.canonical) && EdgesKeyed(rules.canonical, edges) && id in edges && source != target && Incident(edges[id], source)
    ensures var to := Redirecting(edges, {id}, source, target);
      var next := KeyOf(rules.canonical, MovedEnds(edges[id], source, target));
      && next != id && to[id] == MovedEnds(edges[id], source, target) != EndsOf(edges[id])
      && (forall k :: k in edges && k != id ==> to[k] == EndsOf(edges[k]) && KeyOf(rules.canonical, to[k]) == k)
      && (next in edges ==> to[next] == to[id])
  {
    var next := KeyOf(rules.canonical, MovedEnds(edges[id], source, target));
    if next in edges {
      assert edges[next].id == next;
    }
  }

  lemma OneLands(rules: Rules, edges: Edges, id: string, source: string, target: string)
    requires Injective(rules.canonical) && EdgesKeyed(rules.canonical, edges) && id in edges && source != target && Incident(edges[id], source)
    ensures Lands(rules.canonical, Redirecting(edges, {id}, source, target), RedirectOne(rules, edges, id, source, target))
  {
    hide KeyOf, Injective, EdgesKeyed, Redirecting, RedirectOne, MovedEnds, CanonicalId, Redirected;
    var to, after := Redirecting(edges, {id}, source, target), RedirectOne(rules, edges, id, source, target);
    var next := KeyOf(rules.canonical, MovedEnds(edges[id], source, target));
    OneKeys(rules, edges, id, source, target);
    RedirectOneMoves(rules, edges, id, source, target);
    KeyedIds(rules.canonical, edges);
    NextIs(rules, edges, id, source, target);
    RedirectingKeys(edges, {id}, source, target);
    forall x ensures x in after <==> x in set k | k in to :: KeyOf(rules.canonical, to[k]) {
      if x in after {
        assert x == KeyOf(rules.canonical, to[if x == next then id else x]);
      }
    }
  }

  lemma RedirectingKeys(edges: Edges, done: set<string>, source: string, target: string)
    ensures Redirecting(edges, done, source, target).Keys == edges.Keys
  {
  }

  lemma NextIs(rules: Rules, edges: Edges, id: string, source: string, target: string)
    requires id in edges
    ensures CanonicalId(rules, Redirected(edges[id], source, target)) == KeyOf(rules.canonical, MovedEnds(edges[id], source, target))
    ensures EndsOf(Redirected(edges[id], source, target)) == MovedEnds(edges[id], source, target)
  {
  }

  lemma KeyedIds(canonical: Naming, edges: Edges)
    requires EdgesKeyed(canonical, edges)
    ensures forall k :: k in edges ==> edges[k].id == k
  {
  }

  // ---------- all edges at a source ----------

  function Among(ids: seq<string>): set<string> {
    set id | id in ids
  }

  lemma RedirectedNext(rules: Rules, edges: Edges, done: set<string>, mid: Edges, id: string, source: string, target: string)
    requires Injective(rules.canonical) && EdgesKeyed(rules.canonical, edges) && source != target
    requires id in edges && id !in done && Incident(edges[id], source) && id in mid && mid[id] == edges[id]
    requires Lands(rules.canonical, Redirecting(edges, done, source, target), mid)
    ensures var first, second := Redirecting(edges, done, source, target), Redirecting(mid, {id}, source, target);
      && (forall k :: k in first ==> KeyOf(rules.canonical, first[k]) in second)
      && Followed(rules.canonical, first, second) == Redirecting(edges, done + {id}, source, target)
      && (forall k :: k in edges && first[k] != EndsOf(edges[k]) ==> second[KeyOf(rules.canonical, first[k])] != EndsOf(edges[k]))
  {
    hide EdgesKeyed, Injective, Lands, KeyOf;
    var first, second := Redirecting(edges, done, source, target), Redirecting(mid, {id}, source, target);
    forall k | k in edges
      ensures KeyOf(rules.canonical, first[k]) in second
      ensures second[KeyOf(rules.canonical, first[k])] == Redirecting(edges, done + {id}, source, target)[k]
    {
      LandsAt(rules.canonical, first, mid, k);
      OwnKey(rules.canonical, edges, k);
      OwnKey(rules.canonical, edges, id);
    }
  }

  lemma AlsoRedirected(rules: Rules, edges: Edges, done: set<string>, mid: Edges, id: string, source: string, target: string)
    requires Injective(rules.canonical) && EdgesKeyed(rules.canonical, edges) && EdgesKeyed(rules.canonical, mid) && source != target
    requires id in edges && id !in done && Incident(edges[id], source) && id in mid && mid[id] == edges[id]
    requires Moves(rules.canonical, edges, Redirecting(edges, done, source, target), mid)
    ensures Moves(rules.canonical, edges, Redirecting(edges, done + {id}, source, target), RedirectOne(rules, mid, id, source, target))
  {
    hide Moves, EdgesKeyed, Injective, Redirecting, RedirectOne, Lands, KeyOf, Followed;
    OneRedirected(rules, mid, id, source, target);
    MovesLands(rules.canonical, edges, Redirecting(edges, done, source, target), mid);
    RedirectedNext(rules, edges, done, mid, id, source, target);
    MovesTwice(rules.canonical, edges, Redirecting(edges, done, source, target), mid, Redirecting(mid, {id}, source, target), RedirectOne(rules, mid, id, source, target));
  }

  /** The loop of redirectMergeEdges after `n` edges. */
  lemma {:induction false} SomeRedirected(rules: Rules, edges: Edges, ids: seq<string>, n: nat, source: string, target: string)
    requires Injective(rules.canonical) && EdgesKeyed(rules.canonical, edges) && source != target
    requires SortedAs(ids, Incidents(edges, source)) && n <= |ids|
    ensures Moves(rules.canonical, edges, Redirecting(edges, Among(ids[..n]), source, target), RedirectAll(rules, edges, ids[..n], source, target))
    decreases n
  {
    hide Moves, EdgesKeyed, Injective, Redirecting, RedirectOne, Redirects, NextIds, Followed, RedirectAll, Incidents, SortedAs, Lands, KeyOf;
    if n == 0 {
      NoneRedirected(rules, edges, source, target);
      assert ids[..0] == [] && Among(ids[..0]) == {};
    } else {
      var id := ids[n - 1];
      var nexts := NextIds(rules, edges, Incidents(edges, source), source, target);
      var mid := RedirectAll(rules, edges, ids[..n - 1], source, target);
      SomeRedirected(rules, edges, ids, n - 1, source, target);
      RedirectAllMoves(rules, edges, ids, n - 1, nexts, source, target);
      RedirectAllMoves(rules, edges, ids, n, nexts, source, target);
      NextLeft(rules, edges, ids, n - 1, mid, nexts, source);
      AlsoRedirected(rules, edges, Among(ids[..n - 1]), mid, id, source, target);
      assert ids[..n] == ids[..n - 1] + [id];
      assert Among(ids[..n]) == Among(ids[..n - 1]) + {id};
    }
  }

  lemma MovesLands(canonical: Naming, before: Edges, to: map<string, Ends>, after: Edges)
    requires Moves(canonical, before, to, after)
    ensures Lands(canonical, to, after) && to.Keys == before.Keys
  {
  }

  lemma NextLeft(rules: Rules, edges: Edges, ids: seq<string>, i: nat, mid: Edges, nexts: set<string>, source: string)
    requires SortedAs(ids, Incidents(edges, source)) && i < |ids| && Redirects(rules, edges, mid, ids[i..], nexts, source)
    ensures ids[i] in edges && ids[i] in mid && mid[ids[i]] == edges[ids[i]] && Incident(edges[ids[i]], source)
    ensures EdgesKeyed(rules.canonical, mid) && ids[i] !in Among(ids[..i])
  {
    assert ids[i] in ids[i..] && ids[i] in Incidents(edges, source);
    if ids[i] in ids[..i] {
      var j :| 0 <= j < i && ids[j] == ids[i];
      LessAsymmetric(ids[j], ids[i]);
    }
  }

  lemma NoneRedirected(rules: Rules, edges: Edges, source: string, target: string)
    requires EdgesKeyed(rules.canonical, edges)
    ensures Moves(rules.canonical, edges, Redirecting(edges, {}, source, target), edges)
    ensures RedirectAll(rules, edges, [], source, target) == edges
  {
    var to := Redirecting(edges, {}, source, target);
    forall k | k in edges ensures KeyOf(rules.canonical, to[k]) == k {
    }
  }

  /** Where edges are when some entities have been folded into another. */
  function MovedAll(edges: Edges, sources: set<string>, target: string): map<string, Ends> {
    map k | k in edges ::
      Ends(edges[k].typ, if edges[k].source in sources then target else edges[k].source, if edges[k].target in sources then target else edges[k].target)
  }

  lemma AllRedirected(rules: Rules, edges: Edges, source: string, target: string)
    requires Injective(rules.canonical) && EdgesKeyed(rules.canonical, edges) && source != target
    ensures Moves(rules.canonical, edges, MovedAll(edges, {source}, target), RedirectAll(rules, edges, Sorted(Incidents(edges, source)), source, target))
  {
    hide Moves, EdgesKeyed, Injective, Redirecting, MovedAll, RedirectAll;
    var ids := Sorted(Incidents(edges, source));
    SomeRedirected(rules, edges, ids, |ids|, source, target);
    assert ids[..|ids|] == ids && Among(ids) == Incidents(edges, source);
    OnlyIncidentsMove(edges, source, target);
  }

  lemma OnlyIncidentsMove(edges: Edges, source: string, target: string)
    ensures Redirecting(edges, Incidents(edges, source), source, target) == MovedAll(edges, {source}, target)
  {
  }

  // ---------- all sources of a merge ----------

  /** The entities that a merge folds into its target. */
  function Folding(target: string, sources: seq<string>): set<string> {
    set x | x in sources && x != target
  }

  /** They exist, are of the target's kind, and none is named twice. */
  ghost predicate Foldable(entities: Entities, target: string, sources: seq<string>) {
    target in entities && forall i :: 0 <= i < |sources| ==> FoldableAt(entities, target, sources, i)
  }

  ghost predicate FoldableAt(entities: Entities, target: string, sources: seq<string>, i: int)
    requires target in entities && 0 <= i < |sources|
  {
    || sources[i] == target
    || (sources[i] in entities && entities[sources[i]].kind == entities[target].kind && sources[i] !in sources[..i])
  }

  /** The target as its sources are merged into it in turn. */
  function Folded(base: Base, types: Types, entities: Entities, target: string, sources: seq<string>): Entity
    requires target in entities
    decreases |sources|
  {
    if sources == [] then entities[target]
    else
      var before, last := Folded(base, types, entities, target, sources[..|sources| - 1]), sources[|sources| - 1];
      if last == target || last !in entities then before
      else
        var merged := base.mergeEntity(FieldsUnder(types, before.kind), before, entities[last]);
        merged.(kind := before.kind, mergedFrom := AppendUnique(merged.mergedFrom + [last]))
  }

  lemma MovedNext(canonical: Naming, edges: Edges, sources: set<string>, mid: Edges, x: string, target: string)
    requires Injective(canonical) && EdgesKeyed(canonical, edges) && x !in sources && x != target && target !in sources
    requires Lands(canonical, MovedAll(edges, sources, target), mid)
    ensures var first, second := MovedAll(edges, sources, target), MovedAll(mid, {x}, target);
      && (forall k :: k in first ==> KeyOf(canonical, first[k]) in second)
      && Followed(canonical, first, second) == MovedAll(edges, sources + {x}, target)
      && (forall k :: k in edges && first[k] != EndsOf(edges[k]) ==> second[KeyOf(canonical, first[k])] != EndsOf(edges[k]))
  {
    hide EdgesKeyed, Injective, Lands, KeyOf;
    var first, second := MovedAll(edges, sources, target), MovedAll(mid, {x}, target);
    forall k | k in edges
      ensures KeyOf(canonical, first[k]) in second
      ensures second[KeyOf(canonical, first[k])] == MovedAll(edges, sources + {x}, target)[k]
    {
      LandsAt(canonical, first, mid, k);
    }
  }

  lemma AlsoMoved(rules: Rules, edges: Edges, sources: set<string>, mid: Edges, x: string, target: string)
    requires Injective(rules.canonical) && EdgesKeyed(rules.canonical, edges) && EdgesKeyed(rules.canonical, mid)
    requires x !in sources && x != target && target !in sources
    requires Moves(rules.canonical, edges, MovedAll(edges, sources, target), mid)
    ensures Moves(rules.canonical, edges, MovedAll(edges, sources + {x}, target), RedirectAll(rules, mid, Sorted(Incidents(mid, x)), x, target))
  {
    hide Moves, EdgesKeyed, Injective, MovedAll, RedirectAll, Lands, KeyOf, Followed;
    AllRedirected(rules, mid, x, target);
    MovesLands(rules.canonical, edges, MovedAll(edges, sources, target), mid);
    MovedNext(rules.canonical, edges, sources, mid, x, target);
    MovesTwice(rules.canonical, edges, MovedAll(edges, sources, target), mid, MovedAll(mid, {x}, target),
      RedirectAll(rules, mid, Sorted(Incidents(mid, x)), x, target));
  }

  /** A merge under way has folded in the sources so far. */
  ghost predicate HasFolded(base: Base, types: Types, s: Store, target: string, sources: seq<string>, m: Merging) {
    && target in s.entities
    && m.store.entities == s.entities - Folding(target, sources)
    && m.store.relations == s.relations
    && Moves(base.canonical, s.edges, MovedAll(s.edges, Folding(target, sources), target), m.store.edges)
    && m.target == Folded(base, types, s.entities, target, sources)
    && m.target.kind == s.entities[target].kind
  }

  lemma NothingFolded(base: Base, types: Types, s: Store, target: string)
    requires EdgesKeyed(base.canonical, s.edges) && target in s.entities
    ensures HasFolded(base, types, s, target, [], Merging(s, s.entities[target], {}))
  {
    hide Moves, EdgesKeyed, Under;
    assert Folding(target, []) == {} && s.entities - {} == s.entities;
    CanonicalOf(base, types);
    NoneRedirected(Under(base, types), s.edges, target, target);
    assert MovedAll(s.edges, {}, target) == Redirecting(s.edges, {}, target, target);
  }

  lemma CanonicalOf(base: Base, types: Types)
    ensures Under(base, types).canonical == base.canonical
  {
  }

  lemma FoldNext(base: Base, types: Types, s: Store, target: string, sources: seq<string>, x: string, m: Merging)
    requires Injective(base.canonical) && EdgesKeyed(base.canonical, s.edges) && EdgesKeyed(base.canonical, m.store.edges)
    requires HasFolded(base, types, s, target, sources, m)
    ensures var next := MergeSource(Under(base, types), m, target, x);
      && (next.Some? <==> x == target || (x in s.entities && s.entities[x].kind == s.entities[target].kind && x !in sources))
      && (next.Some? ==> HasFolded(base, types, s, target, sources + [x], next.value))
  {
    hide Moves, EdgesKeyed, Injective, MovedAll, RedirectAll, Sorted, NextIds, Incidents;
    var rules := Under(base, types);
    assert (sources + [x])[..|sources|] == sources;
    assert x == target ==> Folding(target, sources + [x]) == Folding(target, sources);
    assert x != target ==> Folding(target, sources + [x]) == Folding(target, sources) + {x};
    if x != target && x !in sources {
      AlsoMoved(rules, s.edges, Folding(target, sources), m.store.edges, x, target);
      assert s.entities - (Folding(target, sources) + {x}) == s.entities - Folding(target, sources) - {x};
    }
  }

  lemma {:induction false} SourcesFold(base: Base, types: Types, s: Store, target: string, sources: seq<string>)
    requires Injective(base.canonical) && Good(Under(base, types), s) && target in s.entities
    ensures var m := MergeSources(Under(base, types), Merging(s, s.entities[target], {}), target, sources);
      && (m.Some? <==> Foldable(s.entities, target, sources))
      && (m.Some? ==> HasFolded(base, types, s, target, sources, m.value))
    decreases |sources|
  {
    hide Under, MergeSource, HasFolded, Good, FoldableAt;
    var rules, start := Under(base, types), Merging(s, s.entities[target], {});
    CanonicalIs(base, types, s);
    if sources == [] {
      NothingFolded(base, types, s, target);
    } else {
      var n := |sources| - 1;
      var before := MergeSources(rules, start, target, sources[..n]);
      assert sources == sources[..n] + [sources[n]];
      SourcesFold(base, types, s, target, sources[..n]);
      FoldablePrefix(s.entities, target, sources);
      if before.Some? {
        MergeStarts(rules, s, target);
        MergeSourcesKeepsGood(rules, start, target, sources[..n]);
        FoldNext(base, types, s, target, sources[..n], sources[n], before.value);
      }
    }
  }

  lemma CanonicalIs(base: Base, types: Types, s: Store)
    requires Good(Under(base, types), s)
    ensures Under(base, types).canonical == base.canonical && EdgesKeyed(base.canonical, s.edges)
  {
  }

  lemma MergeStarts(rules: Rules, s: Store, target: string)
    requires Good(rules, s) && target in s.entities
    ensures MergeGood(rules, Merging(s, s.entities[target], {}), target)
  {
  }

  lemma FoldablePrefix(entities: Entities, target: string, sources: seq<string>)
    requires target in entities && sources != []
    ensures var n := |sources| - 1;
      Foldable(entities, target, sources) <==>
        && Foldable(entities, target, sources[..n])
        && (sources[n] == target || (sources[n] in entities && entities[sources[n]].kind == entities[target].kind && sources[n] !in sources[..n]))
  {
    var n := |sources| - 1;
    forall i | 0 <= i < n ensures FoldableAt(entities, target, sources[..n], i) <==> FoldableAt(entities, target, sources, i) {
      assert sources[..n][..i] == sources[..i];
    }
    assert FoldableAt(entities, target, sources, n) <==>
      (sources[n] == target || (sources[n] in entities && entities[sources[n]].kind == entities[target].kind && sources[n] !in sources[..n]));
    hide FoldableAt;
    if Foldable(entities, target, sources[..n]) && FoldableAt(entities, target, sources, n) {
      forall i | 0 <= i < |sources| ensures FoldableAt(entities, target, sources, i) {
        assert i < n ==> FoldableAt(entities, target, sources[..n], i);
      }
    } else if Foldable(entities, target, sources) {
      assert FoldableAt(entities, target, sources, n);
      forall i | 0 <= i < n ensures FoldableAt(entities, target, sources[..n], i) {
        assert FoldableAt(entities, target, sources, i);
      }
    }
  }

  /** Everything but the sources, and the target as it then is. */
  function Merged(base: Base, types: Types, entities: Entities, r: Merge): Entities
    requires r.target in entities
  {
    (entities - Folding(r.target, r.sources))[r.target := Folded(base, types, entities, r.target, r.sources).(id := r.target)]
  }

  lemma SameEndsSameConflicts(canonical: Naming, relations: RelationTypes, to: map<string, Ends>, a: Edges, b: Edges)
    requires Lands(canonical, to, a) && Lands(canonical, to, b) && CardinalityOk(relations, a, {})
    ensures CardinalityOk(relations, b, {})
  {
    forall i, j | i in b && j in b ensures !Conflict(CardinalityOf(relations, b[i].typ), b[i], b[j]) {
      SameEnds(canonical, to, a, b, i);
      SameEnds(canonical, to, a, b, j);
      hide Lands;
      assert !Conflict(CardinalityOf(relations, a[i].typ), a[i], a[j]);
    }
  }

  lemma SameEnds(canonical: Naming, to: map<string, Ends>, a: Edges, b: Edges, x: string)
    requires Lands(canonical, to, a) && Lands(canonical, to, b) && x in b
    ensures x in a && EndsOf(a[x]) == EndsOf(b[x]) && a[x].id == b[x].id
  {
    var k :| k in to && x == KeyOf(canonical, to[k]);
  }

  /** A merge into a consistent graph is accepted exactly when its sources exist, are of the target's kind and are named once,
      the target still fits its kind, all entities are told apart, and no two edges conflict where they then are. The sources
      are then gone, every edge has moved along, and nothing else has changed. */
  lemma MergeEffect(base: Base, types: Types, s: Store, r: Merge)
    requires Good(Under(base, types), s) && Injective(base.canonical)
    ensures var after := Commit(base, State(types, s), NOTHING.(mergeEntities := [r]));
      var to := MovedAll(s.edges, Folding(r.target, r.sources), r.target);
      && (after.Some? <==>
            && Foldable(s.entities, r.target, r.sources)
            && var merged := Merged(base, types, s.entities, r);
               && base.conforms(FieldsUnder(types, merged[r.target].kind), merged[r.target])
               && Distinguished(base, types, merged)
               && exists edges :: Moves(base.canonical, s.edges, to, edges) && CardinalityOk(s.relations, edges, {}))
      && (after.Some? ==>
            && r.target in s.entities
            && after.value == State(types, Store(Merged(base, types, s.entities, r), after.value.store.edges, s.relations))
            && Moves(base.canonical, s.edges, to, after.value.store.edges))
  {
    OneMerge(base, types, s, r);
    hide Commit, Under, Good, Moves, MovedAll, Folded, Foldable, CardinalityOk, EdgeHolds;
    var rules := Under(base, types);
    if r.target in s.entities {
      SourcesFold(base, types, s, r.target, r.sources);
      var m := MergeSources(rules, Merging(s, s.entities[r.target], {}), r.target, r.sources);
      if m.Some? {
        MergeChecks(base, types, s, r, m.value);
      }
    } else {
      NoTarget(s.entities, r);
    }
  }

  lemma NoTarget(entities: Entities, r: Merge)
    requires r.target !in entities
    ensures !Foldable(entities, r.target, r.sources)
  {
  }

  /** The checks at the end of applyMerge. */
  lemma MergeChecks(base: Base, types: Types, s: Store, r: Merge, m: Merging)
    requires Good(Under(base, types), s) && Injective(base.canonical)
    requires r.target in s.entities && MergeSources(Under(base, types), Merging(s, s.entities[r.target], {}), r.target, r.sources) == Some(m)
    requires HasFolded(base, types, s, r.target, r.sources, m)
    ensures var after := MergeEntities(Under(base, types), s, r);
      var merged, to := Merged(base, types, s.entities, r), MovedAll(s.edges, Folding(r.target, r.sources), r.target);
      && (after.Some? <==>
            && base.conforms(FieldsUnder(types, merged[r.target].kind), merged[r.target])
            && Distinguished(base, types, merged)
            && exists edges :: Moves(base.canonical, s.edges, to, edges) && CardinalityOk(s.relations, edges, {}))
      && (after.Some? ==> after.value == Store(merged, m.store.edges, s.relations))
  {
    hide Under, Moves, MovedAll, Folded, CardinalityOk, EdgesOk, EntitiesKeyed, FieldsUnique, SeparateIdentities, EdgesKeyed, EdgeHolds, EntityFits;
    var rules, merged := Under(base, types), Merged(base, types, s.entities, r);
    var e, to := merged[r.target], MovedAll(s.edges, Folding(r.target, r.sources), r.target);
    var next := m.store.(entities := m.store.entities[r.target := e]);
    assert next == Store(merged, m.store.edges, s.relations);
    CanonicalIs(base, types, s);
    MergeStarts(rules, s, r.target);
    MergeSourcesKeepsGood(rules, Merging(s, s.entities[r.target], {}), r.target, r.sources);
    TargetConforms(base, types, e);
    TargetFits(base, types, m.store.entities, e);
    if MergeEntities(rules, s, r).Some? {
      MergeEntitiesKeepsGood(rules, s, r);
    }
    if edges :| Moves(base.canonical, s.edges, to, edges) && CardinalityOk(s.relations, edges, {}) {
      MovesLands(base.canonical, s.edges, to, edges);
      MovesLands(base.canonical, s.edges, to, m.store.edges);
      SameEndsSameConflicts(base.canonical, s.relations, to, edges, m.store.edges);
      EdgesStayOk(s.relations, m.store.entities, e, m.store.edges);
      GoodHolds(next);
    }
  }

  lemma TargetConforms(base: Base, types: Types, e: Entity)
    ensures Under(base, types).conforms(e) == base.conforms(FieldsUnder(types, e.kind), e)
  {
  }

  lemma TargetFits(base: Base, types: Types, entities: Entities, e: Entity)
    requires EntitiesKeyed(entities) && Distinguished(base, types, entities) && e.id in entities && e.kind == entities[e.id].kind
    ensures EntityFits(Under(base, types), entities[e.id := e], e) <==> Distinguished(base, types, entities[e.id := e])
  {
    hide Distinguished, Under, EntityFits;
    FitsExactly(base, types, entities, e);
    FitsEither(Under(base, types), entities, e);
  }

  lemma FitsEither(rules: Rules, entities: Entities, e: Entity)
    ensures EntityFits(rules, entities[e.id := e], e) <==> EntityFits(rules, entities, e)
  {
    hide SharesUnique, Signatures;
    if EntityFits(rules, entities[e.id := e], e) {
      FitsWithout(rules, entities, e);
    }
  }

  lemma EdgesStayOk(relations: RelationTypes, entities: Entities, e: Entity, edges: Edges)
    requires EdgesOk(relations, entities, edges) && e.id in entities && e.kind == entities[e.id].kind
    ensures EdgesOk(relations, entities[e.id := e], edges)
  {
    forall k | k in edges ensures EdgeOk(relations, entities[e.id := e], edges[k]) {
      assert EdgeOk(relations, entities, edges[k]);
    }
  }

  // ---------- what a merge remembers ----------

  /** Merging two entities keeps what either was merged from. */
  ghost predicate Remembers(base: Base) {
    forall fields: Fields, a: Entity, b: Entity, x :: x in a.mergedFrom || x in b.mergedFrom ==> x in base.mergeEntity(fields, a, b).mergedFrom
  }

  lemma {:induction false} UniqueValues(values: seq<string>)
    ensures forall x :: x in AppendUnique(values) <==> x != "" && x in values
    ensures forall i, j :: 0 <= i < j < |AppendUnique(values)| ==> AppendUnique(values)[i] != AppendUnique(values)[j]
    decreases |values|
  {
    if values != [] {
      UniqueValues(values[..|values| - 1]);
      assert values == values[..|values| - 1] + [values[|values| - 1]];
    }
  }

  /** Something that a merge brings together under its target. */
  predicate BroughtBy(entities: Entities, target: string, source: string, x: string) {
    source != target && (x == source || (source in entities && x in entities[source].mergedFrom))
  }

  lemma {:induction false} FoldedRemembers(base: Base, types: Types, entities: Entities, target: string, sources: seq<string>, x: string)
    requires Remembers(base) && Foldable(entities, target, sources) && x != ""
    requires x in entities[target].mergedFrom || exists source :: source in sources && BroughtBy(entities, target, source, x)
    ensures x in Folded(base, types, entities, target, sources).mergedFrom
    decreases |sources|
  {
    hide FoldableAt;
    if sources != [] {
      var n := |sources| - 1;
      var before, last := Folded(base, types, entities, target, sources[..n]), sources[n];
      FoldablePrefix(entities, target, sources);
      assert sources == sources[..n] + [last];
      if !BroughtBy(entities, target, last, x) {
        if source :| source in sources && BroughtBy(entities, target, source, x) {
          assert source in sources[..n];
        }
        FoldedRemembers(base, types, entities, target, sources[..n], x);
      }
      if last != target {
        var merged := base.mergeEntity(FieldsUnder(types, before.kind), before, entities[last]);
        assert x in before.mergedFrom || x in entities[last].mergedFrom ==> x in merged.mergedFrom;
        UniqueValues(merged.mergedFrom + [last]);
      }
    }
  }

  /** References to what was merged still stand for the target: to its sources, and to all that was ever merged into
      them or into it. */
  lemma MergedAreNamed(base: Base, types: Types, s: Store, r: Merge, x: string)
    requires Good(Under(base, types), s) && Injective(base.canonical) && Remembers(base) && x != ""
    requires Commit(base, State(types, s), NOTHING.(mergeEntities := [r])).Some?
    requires x == r.target || (r.target in s.entities && x in s.entities[r.target].mergedFrom)
      || exists source :: source in r.sources && BroughtBy(s.entities, r.target, source, x)
    requires x in s.entities ==> x == r.target || x in r.sources
    ensures EntityNamed(Commit(base, State(types, s), NOTHING.(mergeEntities := [r])).value.store.entities, x, r.target)
  {
    hide Commit, Under, Good, Moves, Distinguished, Folded, BroughtBy, Remembers;
    MergeEffect(base, types, s, r);
    if x != r.target {
      FoldedRemembers(base, types, s.entities, r.target, r.sources, x);
    }
  }

  /** Where a moved edge meets another, the other is merged into it. */
  lemma MeetingEdges(base: Base, types: Types, s: Store, source: string, target: string, k: string)
    requires Good(Under(base, types), s) && Injective(base.canonical) && source != target && k in s.edges
    requires forall x :: x in s.edges ==> (Incident(s.edges[x], source) <==> x == k)
    requires KeyOf(base.canonical, MovedEnds(s.edges[k], source, target)) in s.edges
    requires Commit(base, State(types, s), NOTHING.(mergeEntities := [Merge(target, [source])])).Some?
    ensures var after := Commit(base, State(types, s), NOTHING.(mergeEntities := [Merge(target, [source])])).value.store.edges;
      var x := KeyOf(base.canonical, MovedEnds(s.edges[k], source, target));
      x in after && after[x] == Together(base, Whole(base, Redirected(s.edges[k], source, target)), Whole(base, s.edges[x]))
  {
    hide Commit, Good, Under, RedirectOne, MergeEntities, Whole, Together;
    var rules := Under(base, types);
    OneMerge(base, types, s, Merge(target, [source]));
    OneSource(rules, s, source, target);
    CanonicalIs(base, types, s);
    assert Incidents(s.edges, source) == {k};
    OnlySorted(k);
    assert [k][..0] == [];
    Meets(base, types, s.edges, source, target, k);
  }

  lemma OneSource(rules: Rules, s: Store, source: string, target: string)
    requires source != target && MergeEntities(rules, s, Merge(target, [source])).Some?
    ensures MergeEntities(rules, s, Merge(target, [source])).value.edges == RedirectAll(rules, s.edges, Sorted(Incidents(s.edges, source)), source, target)
  {
    hide EdgeHolds, EntityFits, RedirectAll, Incidents, Sorted, NextIds;
    var start := Merging(s, s.entities[target], {});
    assert [source][..0] == [];
    assert MergeSources(rules, start, target, []) == Some(start);
    assert MergeSources(rules, start, target, [source]) == MergeSource(rules, start, target, source);
  }

  lemma Meets(base: Base, types: Types, edges: Edges, source: string, target: string, k: string)
    requires Injective(base.canonical) && EdgesKeyed(base.canonical, edges) && source != target && k in edges && Incident(edges[k], source)
    requires KeyOf(base.canonical, MovedEnds(edges[k], source, target)) in edges
    ensures var x, after := KeyOf(base.canonical, MovedEnds(edges[k], source, target)), RedirectOne(Under(base, types), edges, k, source, target);
      x in after && after[x] == Together(base, Whole(base, Redirected(edges[k], source, target)), Whole(base, edges[x]))
  {
    hide EdgesKeyed, Injective, FieldsUnder;
    var rules := Under(base, types);
    OneKeys(rules, edges, k, source, target);
    NextIs(rules, edges, k, source, target);
    OwnKey(base.canonical, edges, KeyOf(base.canonical, MovedEnds(edges[k], source, target)));
  }

  lemma OnlySorted(k: string)
    ensures Sorted({k}) == [k]
  {
    SortedIsUnique(Sorted({k}), [k], {k});
  }
}
