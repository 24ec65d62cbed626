/** The catalog group's replicated state, changed in place (applyCatalog and leastPopulatedShard of
    internal/ha/shard_catalog.go, the publication of catalogState in internal/ha/application.go). */
module CatalogApplications {
  import opened Sharding
  import opened StringOrder
  import opened Catalogs

  /** How many tenants are placed on a shard. */
  function Load(tenants: map<string, Placement>, shard: string): nat {
    |Placed(tenants, tenants.Keys, shard)|
  }

  /** Those of `who` that are placed on the shard. */
  function Placed(tenants: map<string, Placement>, who: set<string>, shard: string): set<string>
    requires who <= tenants.Keys
  {
    set t | t in who && tenants[t].shard == shard
  }

  lemma PlacedGrows(tenants: map<string, Placement>, who: set<string>, t: string, shard: string)
    requires who <= tenants.Keys && t in tenants && t !in who
    ensures |Placed(tenants, who + {t}, shard)| == |Placed(tenants, who, shard)| + if tenants[t].shard == shard then 1 else 0
  {
    assert Placed(tenants, who + {t}, shard) == Placed(tenants, who, shard) + if tenants[t].shard == shard then {t} else {};
  }

  predicate Open(c: Catalog, shard: string) {
    shard in c.shards && !c.shards[shard].draining
  }

  /** The shard an assignment without a target goes to: the least loaded one that takes tenants,
      and of those the first by name; none when every shard is draining. */
  ghost predicate IsLeastPopulated(c: Catalog, pick: string) {
    if forall s :: s in c.shards ==> !Open(c, s) then pick == ""
    else
      && Open(c, pick)
      && forall s :: s in c.shards && Open(c, s) && s != pick ==>
           Load(c.tenants, pick) < Load(c.tenants, s) || (Load(c.tenants, pick) == Load(c.tenants, s) && Less(pick, s))
  }

  /** That choice is a function of the catalog. */
  lemma LeastPopulatedIsUnique(c: Catalog, a: string, b: string)
    requires IsLeastPopulated(c, a) && IsLeastPopulated(c, b)
    ensures a == b
  {
    if a != b && exists s :: s in c.shards && Open(c, s) {
      assert Open(c, a) && Open(c, b);
      if Load(c.tenants, a) == Load(c.tenants, b) {
        LessAsymmetric(a, b);
      }
    }
  }

  method CountTenants(tenants: map<string, Placement>, shards: set<string>) returns (counts: map<string, nat>)
    ensures counts.Keys == shards
    ensures forall s :: s in shards ==> counts[s] == Load(tenants, s)
  {
    counts := map s | s in shards :: 0;
    var todo := tenants.Keys;
    ghost var done: set<string> := {};
    while todo != {}
      invariant done + todo == tenants.Keys && done !! todo
      invariant counts.Keys == shards
      invariant forall s :: s in shards ==> counts[s] == |Placed(tenants, done, s)|
      decreases todo
    {
      var t :| t in todo;
      forall s | s in shards {
        PlacedGrows(tenants, done, t, s);
      }
      todo, done := todo - {t}, done + {t};
      var shard := tenants[t].shard;
      if shard in shards {
        counts := counts[shard := counts[shard] + 1];
      }
    }
    assert done == tenants.Keys;
  }

  method OpenShards(c: Catalog) returns (ids: seq<string>)
    ensures forall s :: s in ids <==> Open(c, s)
    ensures forall i, j :: 0 <= i < j < |ids| ==> ids[i] != ids[j]
  {
    ids := [];
    var todo := c.shards.Keys;
    while todo != {}
      invariant todo <= c.shards.Keys
      invariant forall s :: s in ids <==> Open(c, s) && s !in todo
      invariant forall i, j :: 0 <= i < j < |ids| ==> ids[i] != ids[j]
      decreases todo
    {
      var s :| s in todo;
      todo := todo - {s};
      if !c.shards[s].draining {
        ids := ids + [s];
      }
    }
  }

  /** The selection loop of leastPopulatedShard over names in order. */
  method FirstLeast(ids: seq<string>, counts: map<string, nat>) returns (selected: string)
    requires Increasing(ids) && "" !in ids && forall s :: s in ids ==> s in counts
    ensures if ids == [] then selected == "" else selected in ids
    ensures forall s :: s in ids && s != selected ==> Before(counts, selected, s)
  {
    selected := "";
    ghost var k := 0;
    for i := 0 to |ids|
      invariant i == 0 ==> selected == ""
      invariant i > 0 ==> 0 <= k < i && selected == ids[k]
      invariant forall j :: 0 <= j < i ==> ids[j] == selected || Before(counts, selected, ids[j])
    {
      assert ids[i] in ids && ids[i] in counts;
      if selected == "" || counts[ids[i]] < counts[selected] {
        selected := ids[i];
        k := i;
      }
    }
  }

  /** leastPopulatedShard. */
  method LeastPopulatedShard(c: Catalog) returns (selected: string)
    requires "" !in c.shards
    ensures IsLeastPopulated(c, selected)
  {
    var open := OpenShards(c);
    var counts := CountTenants(c.tenants, c.shards.Keys);
    SortedNamesIncrease(open);
    forall s ensures s in Sort(open) <==> Open(c, s) {
      SortedNamesAgree(open, s);
    }
    selected := FirstLeast(Sort(open), counts);
    if Sort(open) == [] {
      forall s | s in c.shards ensures !Open(c, s) {
        assert s !in Sort(open);
      }
    } else {
      assert Open(c, selected);
      forall s | s in c.shards && Open(c, s) && s != selected ensures Before(counts, selected, s) {
        assert s in Sort(open);
      }
    }
  }

  predicate Before(counts: map<string, nat>, a: string, b: string) {
    a in counts && b in counts && (counts[a] < counts[b] || (counts[a] == counts[b] && Less(a, b)))
  }

  /** The durable catalog and the copy that readers see. */
  class CatalogApplication {
    var stored: Catalog
    var published: Option<Catalog>

    ghost predicate Valid()
      reads this
    {
      ValidCatalog(stored) && (published.Some? ==> published.value == stored)
    }

    constructor ()
      ensures Valid() && stored == EMPTY_CATALOG
    {
      stored, published := EMPTY_CATALOG, None;
    }

    /** catalog: readers that find no published copy load the durable one. */
    method Load() returns (c: Catalog)
      requires Valid()
      modifies this`published
      ensures Valid() && c == stored && published == Some(stored)
    {
      if published.Some? {
        return published.value;
      }
      published := Some(stored);
      c := stored;
    }

    /** The placement switch of applyCatalog: the fields of one placement are rewritten in turn.
        `ok` is false when the action is refused, `write` when nothing is to be stored. */
    method Place(shards: map<string, Shard>, current: Option<Placement>, a: TenantAction, pick: string)
      returns (ok: bool, write: bool, placement: Placement)
      ensures var s := StepPlacement(shards, pick, current, a);
        && (!ok <==> s.Refused?)
        && (write <==> s.Changed?)
        && (ok ==> placement == s.value)
    {
      ok, write := false, false;
      placement := if current.Some? then current.value else Placement("", 0, Assigning, None);
      var move := placement.move;
      match a {
        case Assign(target) =>
          if current.Some? {
            ok := target == "" || target == placement.shard;
            return;
          }
          var chosen := if target == "" then pick else target;
          if chosen !in shards || shards[chosen].draining {
            return;
          }
          placement := Placement(chosen, 1, Assigning, None);
        case Assigned(epoch) =>
          if current.None? || placement.epoch != epoch || !placement.state.Assigning? {
            return;
          }
          placement := placement.(state := Live);
        case StartMove(id, target) =>
          if current.None? || target !in shards || shards[target].draining || target == placement.shard {
            return;
          }
          if move.Some? {
            ok := move.value.target == target;
            return;
          }
          if !placement.state.Live? || placement.epoch == MAX_UINT64 {
            return;
          }
          placement := placement.(state := Moving);
          placement := placement.(move := Some(Move(id, placement.shard, target, placement.epoch + 1, Copying, "")));
        case CutoverMove(id) =>
          if !MatchesMove(placement, id, Copying) {
            return;
          }
          placement := placement.(shard := move.value.target, epoch := move.value.epoch);
          placement := placement.(state := CutOver, move := Some(move.value.(phase := Activating)));
        case ActivatedMove(id) =>
          if !MatchesMove(placement, id, Activating) {
            return;
          }
          placement := placement.(state := Live, move := Some(move.value.(phase := Cleaning)));
        case CleanedMove(id) =>
          if !MatchesMove(placement, id, Cleaning) {
            return;
          }
          placement := placement.(move := None);
        case CancelMove =>
          if move.None? || !move.value.phase.Copying? {
            return;
          }
          placement := placement.(state := BackingOut, move := Some(move.value.(phase := Cancelling)));
        case CancelledMove(id) =>
          if !MatchesMove(placement, id, Discarding) {
            return;
          }
          placement := placement.(epoch := move.value.epoch, state := Live);
          placement := placement.(move := None);
        case ThawedMove(id) =>
          if !MatchesMove(placement, id, Cancelling) {
            return;
          }
          placement := placement.(epoch := move.value.epoch, state := Live);
          placement := placement.(move := Some(move.value.(phase := Discarding)));
        case MoveError(id, phase, error) =>
          if move.None? || move.value.id != id || move.value.phase != phase {
            return;
          }
          placement := placement.(move := Some(move.value.(error := error)));
      }
      if placement.move.Some? && !a.MoveError? {
        placement := placement.(move := Some(placement.move.value.(error := "")));
      }
      ok, write := true, true;
    }

    /** applyCatalog: what a command decides about the catalog readers and writers start from. */
    method Decide(state: Catalog, pick: string, a: Action) returns (r: Step<Catalog>)
      ensures r == ApplyCatalog(state, pick, a)
    {
      r := Refused;
      match a {
        case Register(shard) =>
          if ValidShard(shard) {
            if shard.id in state.shards {
              if state.shards[shard.id].cluster == shard.cluster {
                var updated := shard.(draining := state.shards[shard.id].draining);
                r := Changed(state.(version := state.version + 1, shards := state.shards[shard.id := updated]));
              }
            } else if !exists id :: id in state.shards && state.shards[id].cluster == shard.cluster {
              r := Changed(state.(version := state.version + 1, shards := state.shards[shard.id := shard]));
            }
          }
        case Drain(target) =>
          if target in state.shards {
            var shard := state.shards[target].(draining := true);
            r := Changed(state.(version := state.version + 1, shards := state.shards[target := shard]));
          }
        case Resume(target) =>
          if target in state.shards {
            var shard := state.shards[target].(draining := false);
            r := Changed(state.(version := state.version + 1, shards := state.shards[target := shard]));
          }
        case Unregister(target) =>
          if target !in state.shards {
            r := Same(state);
          } else if state.shards[target].draining && !exists t :: t in state.tenants && Names(state.tenants[t], target) {
            r := Changed(state.(version := state.version + 1, shards := state.shards - {target}));
          }
        case OnTenant(tenant, action) =>
          var ok, write, placement := Place(state.shards, PlacementOf(state, tenant), action, pick);
          if write {
            r := Changed(state.(version := state.version + 1, tenants := state.tenants[tenant := placement]));
          } else if ok {
            r := Same(state);
          }
      }
    }

    /** One replicated catalog command: the replacement becomes durable and visible together when the
        journal commits, and a failed journal leaves readers to load the durable state again. */
    method Apply(a: Action, commits: bool) returns (r: Step<Catalog>)
      requires Valid()
      modifies this
      ensures Valid()
      ensures exists pick :: IsLeastPopulated(old(stored), pick) && r == ApplyCatalog(old(stored), pick, a)
      ensures stored == if commits && r.Changed? then r.value else old(stored)
      ensures commits && r.Changed? ==> published == Some(r.value)
      ensures !commits ==> published == None
    {
      var state := Load();
      var pick := LeastPopulatedShard(state);
      r := Decide(state, pick, a);
      ActionKeepsValid(stored, pick, a);
      if !commits {
        published := None;
      } else if r.Changed? {
        stored := r.value;
        published := Some(r.value);
      }
    }
  }
}
