/** The steps of a commit as facts about values: what the tracker follows, what the indexes find, and how
    each loop of the engine gets from one store to the next (internal/graph/apply.go, merge_edges.go,
    entity_stale.go, content_fingerprint.go). */
module CommitSteps {
  import opened GraphModel
  import opened CopyOnWrites
  import opened GraphIndexes
  import opened HashCaches
  import opened Fingerprints
  import opened UniqueFields
  import opened GraphReference
  import opened GraphConsistency
  import opened Schemas
  import opened StringOrder

  // ---------- the tracker ----------

  /** mutationFingerprintTracker. */
  datatype Tracker = Tracker(types: Tracked, entities: Tracked, relations: Tracked, edges: Tracked)

  const UNTOUCHED := Tracker(map[], map[], map[], map[])

  /** Every changed key was captured before its first change. */
  ghost predicate Follows(base: Base, t: Tracker, start: State, now: State) {
    && Tracks(base.typeHash, t.types, start.types, now.types)
    && Tracks(base.entityHash, t.entities, start.store.entities, now.store.entities)
    && Tracks(base.relationHash, t.relations, start.store.relations, now.store.relations)
    && Tracks(base.edgeHash, t.edges, start.store.edges, now.store.edges)
  }

  /** Capturing a key keeps what is known; a second capture changes nothing. */
  lemma TouchFollows(base: Base, t: Tracker, start: State, now: State, key: string)
    requires Follows(base, t, start, now)
    ensures Follows(base, t.(types := Touch(base.typeHash, t.types, now.types, key)), start, now)
    ensures Follows(base, t.(entities := Touch(base.entityHash, t.entities, now.store.entities, key)), start, now)
    ensures Follows(base, t.(relations := Touch(base.relationHash, t.relations, now.store.relations, key)), start, now)
    ensures Follows(base, t.(edges := Touch(base.edgeHash, t.edges, now.store.edges, key)), start, now)
  {
    hide Tracks;
    TouchTracks(base.typeHash, t.types, start.types, now.types, key);
    TouchTracks(base.entityHash, t.entities, start.store.entities, now.store.entities, key);
    TouchTracks(base.relationHash, t.relations, start.store.relations, now.store.relations, key);
    TouchTracks(base.edgeHash, t.edges, start.store.edges, now.store.edges, key);
  }

  lemma TouchTracks<V(!new)>(hash: Entry<V>, tracked: Tracked, before: map<string, V>, now: map<string, V>, key: string)
    requires Tracks(hash, tracked, before, now)
    ensures Tracks(hash, Touch(hash, tracked, now, key), before, now)
  {
  }

  lemma EdgeFollows(base: Base, t: Tracker, start: State, now: State, edges: Edges, id: string)
    requires Follows(base, t, start, now) && DifferAt(now.store.edges, edges, id) && id in t.edges
    ensures Follows(base, t, start, now.(store := now.store.(edges := edges)))
  {
  }

  lemma EntityFollows(base: Base, t: Tracker, start: State, now: State, entities: Entities, id: string)
    requires Follows(base, t, start, now) && DifferAt(now.store.entities, entities, id) && id in t.entities
    ensures Follows(base, t, start, now.(store := now.store.(entities := entities)))
  {
  }

  lemma RelationFollows(base: Base, t: Tracker, start: State, now: State, relations: RelationTypes, name: string)
    requires Follows(base, t, start, now) && DifferAt(now.store.relations, relations, name) && name in t.relations
    ensures Follows(base, t, start, now.(store := now.store.(relations := relations)))
  {
  }

  lemma TypeFollows(base: Base, t: Tracker, start: State, now: State, types: Types, name: string)
    requires Follows(base, t, start, now) && DifferAt(now.types, types, name) && name in t.types
    ensures Follows(base, t, start, now.(types := types))
  {
  }

  /** The start as the tracker knows it: with the replacements it missed. */
  ghost function Assumed(start: State, missed: Entities): State {
    start.(store := start.store.(entities := start.store.entities + missed))
  }

  /** A new entity under an uncaptured identity is as good as one that was there from the start. */
  lemma MissFollows(base: Base, t: Tracker, start: State, missed: Entities, now: State, e: Entity)
    requires Follows(base, t, Assumed(start, missed), now) && e.id !in now.store.entities && e.id !in t.entities
    ensures Follows(base, t, Assumed(start, missed[e.id := e]), now.(store := now.store.(entities := now.store.entities[e.id := e])))
    ensures e.id !in start.store.entities && e.id !in missed
  {
    assert e.id !in Assumed(start, missed).store.entities;
    assert start.store.entities + missed[e.id := e] == (start.store.entities + missed)[e.id := e];
    MissTracks(base.entityHash, t.entities, Assumed(start, missed).store.entities, now.store.entities, e.id, e);
    hide Tracks;
  }

  lemma MissTracks<V(!new)>(hash: Entry<V>, tracked: Tracked, before: map<string, V>, now: map<string, V>, key: string, value: V)
    requires Tracks(hash, tracked, before, now) && key !in tracked
    ensures Tracks(hash, tracked, before[key := value], now[key := value])
  {
  }

  /** The replacements among `parts` that are stored under none of the captured identities. */
  ghost function MissedParts(rules: Rules, captured: set<string>, parts: seq<Part>): Entities
    decreases |parts|
  {
    if parts == [] then map[]
    else
      var before, e := MissedParts(rules, captured, parts[..|parts| - 1]), Replacement(rules, parts[|parts| - 1]);
      if e.None? || e.value.id in captured then before else before[e.value.id := e.value]
  }

  function Raws(parts: seq<Part>): set<string> {
    set part | part in parts && part.raw != "" :: part.raw
  }

  lemma {:induction false} TrimmedPartsMissNone(rules: Rules, captured: set<string>, parts: seq<Part>)
    requires TrimmedParts(rules.trim, parts) && Raws(parts) <= captured
    ensures MissedParts(rules, captured, parts) == map[]
    decreases |parts|
  {
    if parts != [] {
      var n := |parts| - 1;
      assert forall part :: part in parts[..n] ==> part in parts;
      TrimmedPartsMissNone(rules, captured, parts[..n]);
      assert parts[n] in parts && parts[n].raw in Raws(parts);
    }
  }

  /** `k` is stored by a replacement that the request spells otherwise. */
  ghost predicate Misspelled(trim: string -> string, splits: seq<Split>, k: string) {
    exists r, part :: r in splits && part in r.parts && trim(part.raw) == k && part.raw != k
  }

  ghost predicate AllMisspelled(trim: string -> string, splits: seq<Split>, missed: Entities) {
    forall k :: k in missed ==> Misspelled(trim, splits, k)
  }

  lemma {:induction false} MissedAreMisspelled(rules: Rules, captured: set<string>, splits: seq<Split>, r: Split, parts: seq<Part>)
    requires r in splits && (forall part :: part in parts ==> part in r.parts) && Raws(parts) <= captured && NamedParts(rules.trim, parts)
    ensures AllMisspelled(rules.trim, splits, MissedParts(rules, captured, parts))
    decreases |parts|
  {
    if parts != [] {
      var n := |parts| - 1;
      assert forall part :: part in parts[..n] ==> part in parts;
      MissedAreMisspelled(rules, captured, splits, r, parts[..n]);
      var part := parts[n];
      assert part in parts;
      if part.raw != "" {
        assert part.raw in Raws(parts);
      }
      var e := Replacement(rules, part);
      if e.Some? && e.value.id !in captured {
        assert e.value.id == rules.trim(part.raw);
        assert Misspelled(rules.trim, splits, e.value.id);
      }
    }
  }

  lemma RawsNext(parts: seq<Part>, part: Part)
    ensures Raws(parts + [part]) == Raws(parts) + if part.raw != "" then {part.raw} else {}
  {
    assert part in parts + [part];
    forall x ensures x in Raws(parts + [part]) <==> x in Raws(parts) || (part.raw != "" && x == part.raw) {
      if x in Raws(parts) {
        var p :| p in parts && p.raw == x;
        assert p in parts + [part];
      }
    }
  }

  /** What one split adds to the missed replacements. */
  lemma SplitMisses(rules: Rules, captured: set<string>, splits: seq<Split>, r: Split, known: Entities, missed: Entities)
    requires r in splits && Raws(r.parts) <= captured && missed == known + MissedParts(rules, captured, r.parts)
    requires NamedSplits(rules.trim, splits)
    ensures AllMisspelled(rules.trim, splits, known) ==> AllMisspelled(rules.trim, splits, missed)
    ensures TrimmedSplits(rules.trim, splits) ==> missed == known
  {
    hide MissedParts, NamedParts, TrimmedParts;
    assert NamedParts(rules.trim, r.parts);
    MissedAreMisspelled(rules, captured, splits, r, r.parts);
    if TrimmedSplits(rules.trim, splits) {
      TrimmedPartsMissNone(rules, captured, r.parts);
    }
  }

  lemma NoneMisspelled(trim: string -> string, splits: seq<Split>)
    ensures AllMisspelled(trim, splits, map[])
  {
  }

  // ---------- sets and sequences ----------

  function Among(ids: seq<string>): set<string> {
    set id | id in ids
  }

  lemma AmongSorted(ids: set<string>)
    ensures Among(Sorted(ids)) == ids
  {
  }

  lemma FreshName(ids: seq<string>, i: nat)
    requires Increasing(ids) && i < |ids|
    ensures ids[i] !in Among(ids[..i])
  {
    if ids[i] in ids[..i] {
      var k :| 0 <= k < i && ids[k] == ids[i];
      LessAsymmetric(ids[k], ids[i]);
    }
  }

  lemma SortedStep(ids: seq<string>, all: set<string>, i: nat)
    requires SortedAs(ids, all) && i < |ids|
    ensures ids[i] in all && ids[i] !in Among(ids[..i]) && Among(ids[..i + 1]) == Among(ids[..i]) + {ids[i]}
  {
    FreshName(ids, i);
  }

  lemma SortedEnds(ids: seq<string>, all: set<string>)
    requires SortedAs(ids, all)
    ensures Among(ids[..0]) == {} && Among(ids[..|ids|]) == all
  {
    assert ids[..|ids|] == ids;
  }

  lemma TwoElements(ids: set<string>, a: string, b: string)
    requires a in ids && b in ids && a != b
    ensures |ids| > 1
  {
    assert |ids - {a}| == |ids| - 1;
    assert b in ids - {a};
  }

  method OnlyOne(ids: set<string>) returns (found: Found)
    ensures found == Single(ids)
  {
    if |ids| > 1 {
      return Ambiguous;
    }
    if ids == {} {
      return Missing;
    }
    var id :| id in ids;
    assert |ids - {id}| == 0;
    assert ids == {id};
    SingleIs(ids, id);
    found := One(id);
  }

  lemma SingleIsStored(ids: set<string>)
    ensures Single(ids).One? ==> Single(ids).id in ids
  {
  }

  lemma EmptySingle()
    ensures Single({}) == Missing
  {
  }

  lemma EachStep<S, A>(f: (S, A) -> Option<S>, s: S, items: seq<A>, i: nat)
    requires i < |items| && Each(f, s, items[..i]).Some?
    ensures Each(f, s, items[..i + 1]) == f(Each(f, s, items[..i]).value, items[i])
    ensures Each(f, s, items[..i + 1]).None? ==> Each(f, s, items).None?
  {
    assert items[..i + 1][..i] == items[..i];
    if Each(f, s, items[..i + 1]).None? {
      EachFails(f, s, items, i + 1);
    }
  }

  // ---------- lookups through indexes ----------

  /** Signatures that no other owner holds are signatures that no other entity has. */
  lemma AvailableIsSeparate(signs: Signer, identities: map<(string, string), string>, indexed: Entities, entities: Entities, e: Entity)
    requires Identifies(signs, identities, indexed) && indexed - {e.id} == entities - {e.id}
    ensures Available(signs, identities, e) <==> forall id :: id in entities && id != e.id && entities[id].kind == e.kind ==> Signatures(signs, entities[id]) * Signatures(signs, e) == {}
  {
    if Available(signs, identities, e) {
      forall id | id in entities && id != e.id && entities[id].kind == e.kind ensures Signatures(signs, entities[id]) * Signatures(signs, e) == {} {
        assert id in entities - {e.id} && indexed[id] == entities[id];
        forall s | s in Signatures(signs, e) ensures s !in Signatures(signs, indexed[id]) {
        }
      }
    } else {
      var s :| s in Signatures(signs, e) && (e.kind, s) in identities && identities[(e.kind, s)] != e.id;
      var id := identities[(e.kind, s)];
      assert id in indexed - {e.id} && id in entities && entities[id] == indexed[id];
      assert s in Signatures(signs, entities[id]) * Signatures(signs, e);
    }
  }

  lemma MatchesAre(signs: Signer, identities: map<(string, string), string>, entities: Entities, kind: string, s: string)
    requires Identifies(signs, identities, entities)
    ensures forall id :: id in Owners(signs, entities, kind, s) <==> (kind, s) in identities && identities[(kind, s)] == id
  {
  }

  lemma MatchesNone(signs: Signer, identities: map<(string, string), string>, entities: Entities, kind: string, lookup: set<string>)
    requires Identifies(signs, identities, entities) && forall s :: s in lookup ==> (kind, s) !in identities
    ensures Matches(signs, entities, kind, lookup) == {}
  {
    forall id | id in entities && entities[id].kind == kind ensures Signatures(signs, entities[id]) * lookup == {} {
      forall s | s in Signatures(signs, entities[id]) ensures s !in lookup {
        assert (entities[id].kind, s) in identities;
      }
    }
  }

  lemma MatchesOne(signs: Signer, identities: map<(string, string), string>, entities: Entities, kind: string, lookup: set<string>, s: string, rejecting: set<string>)
    requires Identifies(signs, identities, entities) && s in lookup && (kind, s) in identities
    requires forall x :: x in lookup && (kind, x) in identities ==> identities[(kind, x)] == identities[(kind, s)]
    ensures Matches(signs, entities, kind, lookup) == {identities[(kind, s)]}
    ensures Signatures(signs, entities[identities[(kind, s)]]) * rejecting * lookup != {} <==> exists x :: x in lookup && x in rejecting && (kind, x) in identities
  {
    var owner := identities[(kind, s)];
    assert s in Signatures(signs, entities[owner]) * lookup;
    forall id | id in Matches(signs, entities, kind, lookup) ensures id == owner {
      var x :| x in Signatures(signs, entities[id]) * lookup;
      assert identities[(kind, x)] == id;
    }
    forall x | x in lookup ensures x in Signatures(signs, entities[owner]) <==> (kind, x) in identities {
      if x in Signatures(signs, entities[owner]) {
        assert (entities[owner].kind, x) in identities;
      }
    }
    if x :| x in lookup && x in rejecting && (kind, x) in identities {
      assert x in Signatures(signs, entities[owner]) * rejecting * lookup;
    }
  }

  lemma MatchesMany(signs: Signer, identities: map<(string, string), string>, entities: Entities, kind: string, lookup: set<string>, s: string, x: string)
    requires Identifies(signs, identities, entities) && s in lookup && x in lookup
    requires (kind, s) in identities && (kind, x) in identities && identities[(kind, s)] != identities[(kind, x)]
    ensures Single(Matches(signs, entities, kind, lookup)) == Ambiguous
  {
    var a, b := identities[(kind, s)], identities[(kind, x)];
    assert s in Signatures(signs, entities[a]) * lookup && x in Signatures(signs, entities[b]) * lookup;
    TwoElements(Matches(signs, entities, kind, lookup), a, b);
  }

  lemma MatchesStored(signs: Signer, entities: Entities, kind: string, lookup: set<string>)
    ensures forall id :: id in Matches(signs, entities, kind, lookup) ==> id in entities
  {
  }

  lemma TargetIsNamed(signs: Signer, entities: Entities, u: Upsert)
    requires EntitiesKeyed(entities)
    ensures TargetOf(signs, entities, u).One? ==> TargetOf(signs, entities, u).id != ""
  {
    var ids := Matches(signs, entities, u.entity.kind, u.lookup);
    assert Single(ids).One? ==> Single(ids).id in ids;
  }

  /** validateResolvedEntityTarget, and the kind of the target. */
  predicate TargetFits(entities: Entities, e: Entity, target: string) {
    !(e.id != "" && e.id != target && e.id in entities) && (target in entities ==> entities[target].kind == e.kind)
  }

  lemma UpsertedIs(rules: Rules, entities: Entities, e: Entity, target: string)
    ensures Upserted(rules, entities, e, target).id == target && Upserted(rules, entities, e, target).kind == e.kind
  {
  }

  lemma PreparedIs(rules: Rules, e: Entity)
    ensures var p := Prepared(rules, e); p.Some? ==> p.value.id == e.id && p.value.kind == e.kind != ""
  {
  }

  /** An entity's own signatures are never taken from it. */
  lemma KeepsIdentities(signs: Signer, identities: map<(string, string), string>, entities: Entities, id: string, e: Entity)
    requires Identifies(signs, identities, entities) && EntitiesKeyed(entities) && id in entities
    requires e.id == entities[id].id && e.kind == entities[id].kind && e.fields == entities[id].fields && e.identity == entities[id].identity
    ensures Available(signs, identities, e)
  {
  }

  lemma PostingsOfOthers(fields: FieldPostings, indexed: Entities, entities: Entities, self: string)
    requires Lists(fields, ByField(indexed)) && indexed - {self} == entities - {self}
    ensures PostsOthers(fields, entities, self)
  {
    forall k, x | x != self ensures x in At(fields, k) <==> ByField(entities)(k, x) {
      assert x in At(fields, k) <==> ByField(indexed)(k, x);
      assert x in indexed <==> x in indexed - {self};
      assert x in entities <==> x in entities - {self};
      assert x in indexed ==> (indexed - {self})[x] == (entities - {self})[x];
    }
  }

  lemma StageRules(base: Base, types: Types)
    ensures Under(base, types).canonical == base.canonical && Under(base, types).trim == base.trim
  {
  }

  lemma SameCanonical(base: Base, a: Types, b: Types)
    ensures Under(base, a).canonical == Under(base, b).canonical == base.canonical
    ensures Under(base, a).trim == base.trim
  {
  }

  // ---------- edges ----------

  lemma IncidentsDetach(edges: Edges, id: string)
    ensures edges - Incidents(edges, id) == Detached(edges, {id})
  {
  }

  ghost function OfType(edges: Edges, name: string): set<string> {
    set id | id in edges && edges[id].typ == name
  }

  lemma UntypedStep(edges: Edges, gone: set<string>, name: string)
    ensures Untyped(edges, gone + {name}) == Untyped(edges, gone) - OfType(Untyped(edges, gone), name)
    ensures OfType(Untyped(edges, gone), name) <= Untyped(edges, gone).Keys
  {
  }

  lemma KeyedAt(rules: Rules, edges: Edges, id: string)
    requires EdgesKeyed(rules.canonical, edges)
    ensures id in edges ==> edges[id].id == id == CanonicalId(rules, edges[id])
  {
  }

  /** An edge as it is stored: over the one under its identity, if any. */
  function StoredEdge(rules: Rules, edges: Edges, e: Edge): Edge {
    if e.id in edges then MergedEdge(rules, edges[e.id], e) else e
  }

  ghost predicate NoConflict(s: Store, e: Edge) {
    forall x :: x in s.edges ==> !Conflict(CardinalityOf(s.relations, e.typ), e, s.edges[x])
  }

  lemma UpsertedEdge(rules: Rules, s: Store, incoming: Edge)
    requires incoming.typ != "" && incoming.source != "" && incoming.target != ""
    ensures var e := Canonicalized(rules, incoming);
      var stored := StoredEdge(rules, s.edges, e);
      var next := s.(edges := s.edges[e.id := stored]);
      && stored.id == e.id == CanonicalId(rules, stored)
      && UpsertEdge(rules, s, incoming) == if EdgeOk(s.relations, s.entities, e) && NoConflict(next, stored) then Some(next) else None
  {
    hide Conflict;
    var e := Canonicalized(rules, incoming);
    var stored := StoredEdge(rules, s.edges, e);
    assert stored.typ == e.typ && stored.source == e.source && stored.target == e.target;
  }

  // ---------- stale marks ----------

  /** The store after a stale mark has dealt with the entities in `done`. */
  ghost function StaleUpTo(rules: Rules, st: Stale, s: Store, done: set<string>): Store {
    var gone := StaleGone(st, s.entities) * done;
    Store(
      map id | id in s.entities && id !in gone :: if id in done then StaleMarked(rules, st, s.entities[id]) else s.entities[id],
      Detached(s.edges, gone),
      s.relations)
  }

  lemma StaleStarts(rules: Rules, st: Stale, s: Store)
    ensures StaleUpTo(rules, st, s, {}) == s
  {
    hide StaleGone, StaleMarked;
    assert StaleGone(st, s.entities) * {} == {};
    assert Detached(s.edges, {}) == s.edges;
    assert StaleUpTo(rules, st, s, {}).entities == s.entities;
  }

  lemma StaleEnds(rules: Rules, st: Stale, s: Store)
    requires st.source != ""
    ensures MarkStale(rules, s, st) == Some(StaleUpTo(rules, st, s, s.entities.Keys))
  {
    var gone := StaleGone(st, s.entities);
    assert gone * s.entities.Keys == gone;
    hide StaleGone, StaleMarked, Detached;
    assert MarkStale(rules, s, st).value.entities == StaleUpTo(rules, st, s, s.entities.Keys).entities;
  }

  /** What happens to one entity. */
  lemma StaleStep(rules: Rules, st: Stale, s: Store, done: set<string>, id: string)
    requires id in s.entities && id !in done
    ensures var now, next, e := StaleUpTo(rules, st, s, done), StaleUpTo(rules, st, s, done + {id}), s.entities[id];
      && id in now.entities && now.entities[id] == e
      && (Selected(st, e) && st.deletes && st.rank >= e.rank ==> next == WithoutEntity(now, id))
      && (Selected(st, e) && !st.deletes ==> next == now.(entities := now.entities[id := e.(body := rules.staleBody(e, st.source))]))
      && (!Selected(st, e) || (st.deletes && st.rank < e.rank) ==> next == now)
  {
    var gone, now, next := StaleGone(st, s.entities), StaleUpTo(rules, st, s, done), StaleUpTo(rules, st, s, done + {id});
    if id in gone {
      assert gone * (done + {id}) == gone * done + {id};
      assert Detached(s.edges, gone * (done + {id})) == Detached(Detached(s.edges, gone * done), {id});
      assert next.entities == now.entities - {id};
    } else {
      assert gone * (done + {id}) == gone * done;
      assert next.entities == now.entities[id := StaleMarked(rules, st, s.entities[id])];
    }
  }

  lemma StaleKeepsFields(rules: Rules, st: Stale, s: Store)
    ensures var after := StaleUpTo(rules, st, s, s.entities.Keys).entities;
      forall id :: id in after ==> id in s.entities && after[id].kind == s.entities[id].kind && after[id].fields == s.entities[id].fields
  {
  }

  // ---------- merges and splits ----------

  lemma PutBack(entities: Entities, e: Entity)
    ensures entities[e.id := e] - {e.id} == entities - {e.id} && entities - {e.id} - {e.id} == entities - {e.id}
    ensures (entities - {e.id})[e.id := e] == entities[e.id := e] && entities[e.id := e][e.id := e] == entities[e.id := e]
  {
  }

  lemma FewerWithout(entities: Entities, id: string)
    ensures Fewer(entities, entities) && Fewer(entities, entities - {id})
  {
  }

  lemma FewerComplete(validator: Validator, before: Entities, entities: Entities, target: string)
    requires validator.Complete(before) && Fewer(before, entities)
    ensures validator.Complete(entities - {target})
  {
    hide Validator.Complete;
    forall id | id in entities - {target} ensures id in before && (entities - {target})[id].kind == before[id].kind && (entities - {target})[id].fields == before[id].fields {
      assert Alike(before[id], entities[id]);
    }
    validator.StaysComplete(before, entities - {target});
  }

  lemma NextStep(rules: Rules, edges: Edges, ids: set<string>, id: string, source: string, target: string)
    requires id in edges
    ensures NextIds(rules, edges, ids + {id}, source, target) == NextIds(rules, edges, ids, source, target) + {CanonicalId(rules, Redirected(edges[id], source, target))}
  {
    var next := CanonicalId(rules, Redirected(edges[id], source, target));
    assert id in ids + {id} && next in NextIds(rules, edges, ids + {id}, source, target);
  }

  lemma NothingRedirected(rules: Rules, edges: Edges, ids: seq<string>, source: string, target: string)
    ensures NextIds(rules, edges, {}, source, target) == {}
    ensures RedirectAll(rules, edges, ids[..0], source, target) == edges
    ensures ids[..|ids|] == ids
  {
  }

  /** Where the loop of redirectMergeEdges stands before its edge `i`. */
  lemma RedirectAt(rules: Rules, edges: Edges, ids: seq<string>, i: nat, source: string, target: string)
    requires Injective(rules.canonical) && EdgesKeyed(rules.canonical, edges) && source != target
    requires SortedAs(ids, Incidents(edges, source)) && i < |ids|
    ensures var now := RedirectAll(rules, edges, ids[..i], source, target);
      && ids[i] in now && ids[i] in edges && now[ids[i]] == edges[ids[i]]
      && RedirectAll(rules, edges, ids[..i + 1], source, target) == RedirectOne(rules, now, ids[i], source, target)
  {
    var nexts := NextIds(rules, edges, Incidents(edges, source), source, target);
    RedirectAllMoves(rules, edges, ids, i, nexts, source, target);
    RedirectAllMoves(rules, edges, ids, i + 1, nexts, source, target);
    assert ids[i] in ids[i..];
  }

  /** Edges at other entities after a redirect are edges they had or affected edges. */
  lemma RedirectedIncidents(rules: Rules, edges: Edges, source: string, target: string, other: string)
    requires Injective(rules.canonical) && EdgesKeyed(rules.canonical, edges) && source != target
    ensures var incidents := Incidents(edges, source);
      var after := RedirectAll(rules, edges, Sorted(incidents), source, target);
      Incidents(after, other) <= Incidents(edges, other) + NextIds(rules, edges, incidents, source, target)
  {
    var incidents := Incidents(edges, source);
    var ids, nexts := Sorted(incidents), NextIds(rules, edges, incidents, source, target);
    var after := RedirectAll(rules, edges, ids, source, target);
    assert Redirects(rules, edges, after, [], nexts, source) by {
      hide Redirects, NextIds;
      RedirectAllMoves(rules, edges, ids, |ids|, nexts, source, target);
      assert ids[..|ids|] == ids && ids[|ids|..] == [];
    }
    hide RedirectAll, NextIds, Injective, EdgesKeyed, SortedAs;
  }

  /** An entity whose edges were captured has them captured after a redirect, with the affected edges. */
  lemma RedirectedTouched(rules: Rules, edges: Edges, source: string, target: string, captured: set<string>)
    requires Injective(rules.canonical) && EdgesKeyed(rules.canonical, edges) && source != target
    ensures var incidents := Incidents(edges, source);
      var after := RedirectAll(rules, edges, Sorted(incidents), source, target);
      forall id :: Incidents(edges, id) <= captured ==> Incidents(after, id) <= captured + NextIds(rules, edges, incidents, source, target)
  {
    hide Incidents, RedirectAll, NextIds, SortedAs;
    forall id {
      RedirectedIncidents(rules, edges, source, target, id);
    }
  }

  lemma {:induction false} MergedKind(rules: Rules, m: Merging, target: string, sources: seq<string>)
    requires MergeSources(rules, m, target, sources).Some?
    ensures MergeSources(rules, m, target, sources).value.target.kind == m.target.kind
    decreases |sources|
  {
    if sources != [] {
      MergedKind(rules, m, target, sources[..|sources| - 1]);
    }
  }

  lemma TrimmedAreNamed(trim: string -> string, splits: seq<Split>)
    requires TrimmedSplits(trim, splits)
    ensures NamedSplits(trim, splits)
  {
    forall r | r in splits ensures NamedParts(trim, r.parts) {
      assert TrimmedParts(trim, r.parts);
    }
  }

  // ---------- the fingerprint ----------

  /** ensureContentFingerprint: the XOR over every entry of every category. */
  ghost predicate IsFingerprint(base: Base, s: State, f: Digest) {
    exists a, b, c, d :: FoldsTo(base, s, a, b, c, d) && f == Joint(a, b, c, d)
  }

  function Joint(a: Digest, b: Digest, c: Digest, d: Digest): Digest {
    Xor(Xor(a, b), Xor(c, d))
  }

  ghost predicate FoldsTo(base: Base, s: State, a: Digest, b: Digest, c: Digest, d: Digest) {
    && IsFold(base.typeHash, s.types, a)
    && IsFold(base.entityHash, s.store.entities, b)
    && IsFold(base.relationHash, s.store.relations, c)
    && IsFold(base.edgeHash, s.store.edges, d)
  }

  lemma FingerprintIsUnique(base: Base, s: State, f: Digest, g: Digest)
    requires IsFingerprint(base, s, f) && IsFingerprint(base, s, g)
    ensures f == g
  {
    var a, b, c, d :| FoldsTo(base, s, a, b, c, d) && f == Joint(a, b, c, d);
    var a', b', c', d' :| FoldsTo(base, s, a', b', c', d') && g == Joint(a', b', c', d');
    hide Joint, IsFold;
    FoldIsUnique(base.typeHash, s.types, a, a');
    FoldIsUnique(base.entityHash, s.store.entities, b, b');
    FoldIsUnique(base.relationHash, s.store.relations, c, c');
    FoldIsUnique(base.edgeHash, s.store.edges, d, d');
  }

  /** Taking one category out, and the entries `m` the tracker missed with it. */
  lemma JointApart(a: Digest, b: Digest, c: Digest, d: Digest, m: Digest)
    ensures Joint(a, b, c, d) == Xor(Xor(b, Xor(c, d)), a)
    ensures Joint(a, b, c, d) == Xor(Xor(Xor(a, Xor(c, d)), m), Xor(b, m))
    ensures Joint(a, b, c, d) == Xor(Xor(Xor(a, b), d), c)
    ensures Joint(a, b, c, d) == Xor(Xor(Xor(a, b), c), d)
  {
  }

  lemma LostApart(a: Digest, b: Digest, c: Digest, d: Digest, m: Digest)
    ensures Xor(Joint(a, b, c, d), m) == Xor(Xor(Xor(a, Xor(c, d)), m), b)
    ensures Xor(Joint(a, b, c, d), m) == Xor(Xor(Xor(Xor(a, b), d), m), c)
    ensures Xor(Joint(a, b, c, d), m) == Xor(Xor(Xor(Xor(a, b), c), m), d)
  {
  }

  /** A digest that lacks the entries of `missed` is right exactly when those cancel. */
  lemma LostShows(base: Base, s: State, f: Digest, right: Digest, missed: Entities, m: Digest)
    requires IsFingerprint(base, s, right) && f == Xor(right, m) && IsFold(base.entityHash, missed, m)
    ensures IsFingerprint(base, s, f) <==> IsFold(base.entityHash, missed, ZERO)
  {
    hide IsFingerprint, IsFold;
    XorUnit(right, m);
    if IsFingerprint(base, s, f) {
      FingerprintIsUnique(base, s, f, right);
    }
    if IsFold(base.entityHash, missed, ZERO) {
      FoldIsUnique(base.entityHash, missed, m, ZERO);
    }
  }

  lemma XorUnit(a: Digest, b: Digest)
    ensures Xor(a, b) == a <==> b == ZERO
  {
    if Xor(a, b) == a {
      forall x ensures x !in b {
        assert x in Xor(a, b) <==> x in a;
      }
    }
  }

  lemma OneReplaced(rules: Rules, s: Store, source: string, part: Part)
    requires SplitEntity(rules, s, Split(source, [part])).Some?
    ensures Replacement(rules, part).Some?
  {
    assert [part][..0] == [] && [part][0] == part;
    assert Each(SplitPart(rules, source), WithoutEntity(s, source), [part][..0]) == Some(WithoutEntity(s, source));
  }

  /** What a split into one misspelled replacement misses. */
  lemma OneMissed(rules: Rules, base: Base, captured: set<string>, source: string, part: Part)
    requires captured == {source} + Raws([part]) && rules.trim(part.raw) !in {part.raw, source} && Replacement(rules, part).Some?
    ensures var e := Replacement(rules, part).value;
      MissedParts(rules, captured, [part]) == map[e.id := e]
      && (IsFold(base.entityHash, map[e.id := e], ZERO) <==> base.entityHash(e.id, e) == ZERO)
  {
    var e := Replacement(rules, part).value;
    assert [part][..0] == [] && [part][0] == part;
    assert e.id !in captured;
    EmptyFold(base.entityHash);
    FoldStep(base.entityHash, map[], map[e.id := e], e.id, ZERO);
    var f := Xor(Xor(ZERO, ZERO), base.entityHash(e.id, e));
    assert f == base.entityHash(e.id, e);
    hide IsFold, Xor;
    if IsFold(base.entityHash, map[e.id := e], ZERO) {
      FoldIsUnique(base.entityHash, map[e.id := e], ZERO, f);
    }
  }

  /** With nothing missed the report is about the graph itself. */
  lemma AssumedNothing(base: Base, s: State)
    ensures Assumed(s, map[]) == s && IsFold(base.entityHash, map[], ZERO)
  {
    assert s.store.entities + map[] == s.store.entities;
    EmptyFold(base.entityHash);
  }

  /** Some key has another entry than before. */
  ghost predicate EntriesDiffer<V(!new)>(hash: Entry<V>, before: map<string, V>, now: map<string, V>) {
    exists k :: Captured(hash, before, k) != Captured(hash, now, k)
  }

  ghost predicate ContentDiffers(base: Base, before: State, now: State) {
    || EntriesDiffer(base.typeHash, before.types, now.types)
    || EntriesDiffer(base.entityHash, before.store.entities, now.store.entities)
    || EntriesDiffer(base.relationHash, before.store.relations, now.store.relations)
    || EntriesDiffer(base.edgeHash, before.store.edges, now.store.edges)
  }

  lemma TrackedDiffer<V(!new)>(hash: Entry<V>, tracked: Tracked, before: map<string, V>, now: map<string, V>)
    requires Tracks(hash, tracked, before, now)
    ensures EntriesDiffer(hash, before, now) <==> exists k :: k in tracked && tracked[k] != Captured(hash, now, k)
  {
    if k :| Captured(hash, before, k) != Captured(hash, now, k) {
      assert k in tracked && tracked[k] != Captured(hash, now, k);
    }
    if k :| k in tracked && tracked[k] != Captured(hash, now, k) {
      assert Captured(hash, before, k) != Captured(hash, now, k);
    }
  }

  /** With an injective hash, equal entries are equal values. */
  lemma SameEntriesSameValues<V(!new)>(hash: Entry<V>, before: map<string, V>, now: map<string, V>)
    requires forall k, a, b :: hash(k, a) == hash(k, b) ==> a == b
    ensures EntriesDiffer(hash, before, now) <==> before != now
  {
    if !EntriesDiffer(hash, before, now) {
      forall k ensures (k in before <==> k in now) && (k in before ==> before[k] == now[k]) {
        assert Captured(hash, before, k) == Captured(hash, now, k);
      }
    }
  }

  // ---------- the logical hash cache ----------

  /** The cache is that of a fresh build of the graph. */
  ghost predicate CacheOf(base: Base, c: LogicalCache, seen: CacheView, s: State) {
    CacheFor(base.logical, c, seen, s.types, s.store.entities, s.store.relations, s.store.edges)
  }

  /** The graph a refresh knows: of the touched keys the values now, of the others those at the start. */
  ghost function RefreshedState(start: State, now: State, t: Tracker): State {
    State(
      Refreshed(start.types, now.types, t.types.Keys),
      Store(
        Refreshed(start.store.entities, now.store.entities, t.entities.Keys),
        Refreshed(start.store.edges, now.store.edges, t.edges.Keys),
        Refreshed(start.store.relations, now.store.relations, t.relations.Keys)))
  }

  lemma TrackedRefreshes<V(!new)>(hash: Entry<V>, tracked: Tracked, before: map<string, V>, now: map<string, V>)
    requires Tracks(hash, tracked, before, now)
    ensures Refreshed(before, now, tracked.Keys) == now
  {
  }

  lemma MissedRefreshes(hash: Entry<Entity>, tracked: Tracked, before: Entities, missed: Entities, now: Entities)
    requires Tracks(hash, tracked, before + missed, now) && missed.Keys !! before.Keys
    ensures missed.Keys <= tracked.Keys ==> Refreshed(before, now, tracked.Keys) == now
    ensures forall k :: k in missed && k !in tracked ==> k in now && k !in Refreshed(before, now, tracked.Keys)
  {
  }

  /** After a refresh the cache is that of the graph if and only if every missed replacement was touched
      later on. */
  lemma RefreshIsExact(base: Base, t: Tracker, start: State, missed: Entities, now: State, c: LogicalCache, seen: CacheView)
    requires Follows(base, t, Assumed(start, missed), now) && missed.Keys !! start.store.entities.Keys
    requires CacheOf(base, c, seen, RefreshedState(start, now, t))
    ensures CacheOf(base, c, seen, now) <==> missed.Keys <= t.entities.Keys
  {
    hide Tracks, Refreshed, Caches, TotalSize, FinalDigest;
    TrackedRefreshes(base.typeHash, t.types, start.types, now.types);
    TrackedRefreshes(base.relationHash, t.relations, start.store.relations, now.store.relations);
    TrackedRefreshes(base.edgeHash, t.edges, start.store.edges, now.store.edges);
    MissedRefreshes(base.entityHash, t.entities, start.store.entities, missed, now.store.entities);
    if k :| k in missed && k !in t.entities {
      OtherKeysShow(base.logical.entities, c.entities, seen.entities, RefreshedState(start, now, t).store.entities, now.store.entities, k);
    }
  }

  /** Equal fingerprint entries come from equal data, which has equal hashes. */
  ghost predicate Discerns<V(!new)>(hash: Entry<V>, h: Hashing<V>) {
    forall k, a, b :: hash(k, a) == hash(k, b) ==> h.entry(k, a) == h.entry(k, b)
  }

  ghost predicate Discerning(base: Base) {
    && Discerns(base.typeHash, base.logical.types)
    && Discerns(base.entityHash, base.logical.entities)
    && Discerns(base.relationHash, base.logical.relations)
    && Discerns(base.edgeHash, base.logical.edges)
  }

  lemma SameSide<V(!new)>(hash: Entry<V>, h: Hashing<V>, x: Blocks, seen: map<Index, Block>, a: map<string, V>, b: map<string, V>)
    requires Caches(h, x, seen, a) && Discerns(hash, h) && !EntriesDiffer(hash, a, b)
    ensures Caches(h, x, seen, b) && Size(h, a) == Size(h, b)
  {
    forall k ensures (k in a <==> k in b) && (k in a ==> h.entry(k, a[k]) == h.entry(k, b[k])) {
      assert Captured(hash, a, k) == Captured(hash, b, k);
    }
    hide Caches;
    SameEntriesCached(h, x, seen, a, b);
    SameEntriesSize(h, a, b);
  }

  /** A commit that changed no entry leaves the cache right as it is. */
  lemma UnchangedIsCached(base: Base, c: LogicalCache, seen: CacheView, before: State, now: State)
    requires CacheOf(base, c, seen, before) && Discerning(base) && !ContentDiffers(base, before, now)
    ensures CacheOf(base, c, seen, now)
  {
    hide Caches, EntriesDiffer, Discerns, Size, FinalDigest;
    SameSide(base.typeHash, base.logical.types, c.types, seen.types, before.types, now.types);
    SameSide(base.entityHash, base.logical.entities, c.entities, seen.entities, before.store.entities, now.store.entities);
    SameSide(base.relationHash, base.logical.relations, c.relations, seen.relations, before.store.relations, now.store.relations);
    SameSide(base.edgeHash, base.logical.edges, c.edges, seen.edges, before.store.edges, now.store.edges);
  }

  // ---------- batches ----------

  ghost function Committing(base: Base): (State, Mutations) -> Option<State> {
    (s: State, m: Mutations) => GraphReference.Commit(base, s, m)
  }

  /** Every commit of the batch succeeds and changes something. */
  ghost predicate AllChange(base: Base, s: State, commits: seq<Mutations>)
    decreases |commits|
  {
    commits == [] ||
    var before := Each(Committing(base), s, commits[..|commits| - 1]);
    var after := Each(Committing(base), s, commits);
    && AllChange(base, s, commits[..|commits| - 1])
    && before.Some? && after.Some?
    && ContentDiffers(base, before.value, after.value)
  }

  lemma NoCommits(base: Base, s: State)
    ensures AllChange(base, s, []) && Each(Committing(base), s, []) == Some(s)
  {
  }

  lemma {:induction false} AllChangePrefix(base: Base, s: State, commits: seq<Mutations>, n: nat)
    requires n <= |commits| && !AllChange(base, s, commits[..n])
    ensures !AllChange(base, s, commits)
    decreases |commits|
  {
    if n < |commits| {
      var shorter := commits[..|commits| - 1];
      assert shorter[..n] == commits[..n];
      AllChangePrefix(base, s, shorter, n);
    } else {
      assert commits[..n] == commits;
    }
  }
}
