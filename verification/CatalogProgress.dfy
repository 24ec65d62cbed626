/** What the catalog accepts, and where moves end when it does (applyCatalog of internal/ha/shard_catalog.go). */
module CatalogProgress {
  import opened Sharding
  import opened Catalogs

  predicate Admitted(c: Catalog, pick: string, a: Action) {
    !ApplyCatalog(c, pick, a).Refused?
  }

  /** The catalog after several actions, as the coordinator of a move sends them. */
  function Sends(c: Catalog, tenant: string, actions: seq<TenantAction>): Option<Catalog>
    decreases |actions|
  {
    if actions == [] then Some(c)
    else
      match Sends(c, tenant, actions[..|actions| - 1])
      case None => None
      case Some(before) =>
        var last := OnTenant(tenant, actions[|actions| - 1]);
        if Admitted(before, "", last) then Some(Next(before, "", last)) else None
  }

  /** The catalog with one tenant placed anew, after so many writes. */
  function Placing(c: Catalog, tenant: string, p: Placement, writes: nat): Catalog {
    Catalog(c.version + writes, c.shards, c.tenants[tenant := p])
  }

  /** One more accepted action. */
  lemma SendsMore(c: Catalog, tenant: string, actions: seq<TenantAction>, p: Placement, writes: nat, a: TenantAction, q: Placement)
    requires Sends(c, tenant, actions) == Some(Placing(c, tenant, p, writes))
    requires StepPlacement(c.shards, "", Some(p), a) == Changed(q)
    ensures Sends(c, tenant, actions + [a]) == Some(Placing(c, tenant, q, writes + 1))
  {
    assert (actions + [a])[..|actions|] == actions;
    assert c.tenants[tenant := p][tenant := q] == c.tenants[tenant := q];
  }

  lemma SendsNone(c: Catalog, tenant: string, p: Placement)
    requires PlacementOf(c, tenant) == Some(p)
    ensures Sends(c, tenant, []) == Some(Placing(c, tenant, p, 0))
  {
    assert c.tenants[tenant := p] == c.tenants;
  }

  lemma ThreeSend(c: Catalog, tenant: string, p: Placement, a: TenantAction, p1: Placement, b: TenantAction, p2: Placement, d: TenantAction, p3: Placement)
    requires PlacementOf(c, tenant) == Some(p)
    requires StepPlacement(c.shards, "", Some(p), a) == Changed(p1)
    requires StepPlacement(c.shards, "", Some(p1), b) == Changed(p2)
    requires StepPlacement(c.shards, "", Some(p2), d) == Changed(p3)
    ensures Sends(c, tenant, [a, b, d]) == Some(Placing(c, tenant, p3, 3))
  {
    hide StepPlacement, Sends, Placing;
    SendsNone(c, tenant, p);
    SendsMore(c, tenant, [], p, 0, a, p1);
    assert [] + [a] == [a] && [a] + [b] == [a, b] && [a, b] + [d] == [a, b, d];
    SendsMore(c, tenant, [a], p1, 1, b, p2);
    SendsMore(c, tenant, [a, b], p2, 2, d, p3);
  }

  lemma ForwardSteps(shards: map<string, Shard>, p: Placement, m: Move)
    requires WellFormed(p) && p.move == Some(m) && m.phase.Copying?
    ensures var cut, active := Placement(m.target, m.epoch, CutOver, Some(m.(phase := Activating, error := ""))),
                               Placement(m.target, m.epoch, Live, Some(m.(phase := Cleaning, error := "")));
      && StepPlacement(shards, "", Some(p), CutoverMove(m.id)) == Changed(cut)
      && StepPlacement(shards, "", Some(cut), ActivatedMove(m.id)) == Changed(active)
      && StepPlacement(shards, "", Some(active), CleanedMove(m.id)) == Changed(Placement(m.target, m.epoch, Live, None))
  {
  }

  lemma BackwardSteps(shards: map<string, Shard>, p: Placement, m: Move)
    requires WellFormed(p) && p.move == Some(m) && m.phase.Copying?
    ensures var back, thawed := Placement(m.source, p.epoch, BackingOut, Some(m.(phase := Cancelling, error := ""))),
                                Placement(m.source, m.epoch, Live, Some(m.(phase := Discarding, error := "")));
      && StepPlacement(shards, "", Some(p), CancelMove) == Changed(back)
      && StepPlacement(shards, "", Some(back), ThawedMove(m.id)) == Changed(thawed)
      && StepPlacement(shards, "", Some(thawed), CancelledMove(m.id)) == Changed(Placement(m.source, m.epoch, Live, None))
  {
  }

  /** A move in its copy phase that cuts over, activates and is cleaned leaves the tenant on its target, at the next
      epoch, with no move; three records are written and nothing else of the catalog changes. */
  lemma MoveCompletes(c: Catalog, tenant: string, p: Placement, m: Move)
    requires ValidCatalog(c) && PlacementOf(c, tenant) == Some(p) && p.move == Some(m) && m.phase.Copying?
    ensures p.epoch < MAX_UINT64
    ensures Sends(c, tenant, [CutoverMove(m.id), ActivatedMove(m.id), CleanedMove(m.id)])
         == Some(Placing(c, tenant, Placement(m.target, p.epoch + 1, Live, None), 3))
  {
    hide StepPlacement, Sends, Placing;
    assert WellFormed(p);
    var cut := Placement(m.target, m.epoch, CutOver, Some(m.(phase := Activating, error := "")));
    var active := Placement(m.target, m.epoch, Live, Some(m.(phase := Cleaning, error := "")));
    ForwardSteps(c.shards, p, m);
    ThreeSend(c, tenant, p, CutoverMove(m.id), cut, ActivatedMove(m.id), active, CleanedMove(m.id), Placement(m.target, m.epoch, Live, None));
  }

  /** One that is cancelled, thawed and discarded leaves it on its source, also at the next epoch. */
  lemma MoveIsCancelled(c: Catalog, tenant: string, p: Placement, m: Move)
    requires ValidCatalog(c) && PlacementOf(c, tenant) == Some(p) && p.move == Some(m) && m.phase.Copying?
    ensures p.epoch < MAX_UINT64
    ensures Sends(c, tenant, [CancelMove, ThawedMove(m.id), CancelledMove(m.id)])
         == Some(Placing(c, tenant, Placement(m.source, p.epoch + 1, Live, None), 3))
  {
    hide StepPlacement, Sends, Placing;
    assert WellFormed(p);
    var back := Placement(m.source, p.epoch, BackingOut, Some(m.(phase := Cancelling, error := "")));
    var thawed := Placement(m.source, m.epoch, Live, Some(m.(phase := Discarding, error := "")));
    BackwardSteps(c.shards, p, m);
    ThreeSend(c, tenant, p, CancelMove, back, ThawedMove(m.id), thawed, CancelledMove(m.id), Placement(m.source, m.epoch, Live, None));
  }

  /** A tenant without a placement that is assigned to an open shard, and reported as assigned, is live there at
      epoch 1; and a move to another open shard can then start. */
  lemma AssignedCanMove(c: Catalog, tenant: string, first: string, second: string, id: string)
    requires ValidCatalog(c) && tenant !in c.tenants && first != second
    requires first in c.shards && !c.shards[first].draining && second in c.shards && !c.shards[second].draining
    ensures Sends(c, tenant, [Assign(first), Assigned(1)]) == Some(Placing(c, tenant, Placement(first, 1, Live, None), 2))
    ensures Sends(c, tenant, [Assign(first), Assigned(1), StartMove(id, second)])
         == Some(Placing(c, tenant, Placement(first, 1, Moving, Some(Move(id, first, second, 2, Copying, ""))), 3))
  {
    hide StepPlacement, Sends, Placing;
    assert first != "";
    AssignSends(c, tenant, first);
    FirstSteps(c.shards, first, second, id);
    SendsMore(c, tenant, [Assign(first)], Placement(first, 1, Assigning, None), 1, Assigned(1), Placement(first, 1, Live, None));
    assert [Assign(first)] + [Assigned(1)] == [Assign(first), Assigned(1)];
    SendsMore(c, tenant, [Assign(first), Assigned(1)], Placement(first, 1, Live, None), 2, StartMove(id, second),
      Placement(first, 1, Moving, Some(Move(id, first, second, 2, Copying, ""))));
    assert [Assign(first), Assigned(1)] + [StartMove(id, second)] == [Assign(first), Assigned(1), StartMove(id, second)];
  }

  lemma AssignSends(c: Catalog, tenant: string, first: string)
    requires tenant !in c.tenants && first in c.shards && !c.shards[first].draining && first != ""
    ensures Sends(c, tenant, [Assign(first)]) == Some(Placing(c, tenant, Placement(first, 1, Assigning, None), 1))
  {
    assert [Assign(first)][..0] == [];
    assert Sends(c, tenant, []) == Some(c);
  }

  lemma FirstSteps(shards: map<string, Shard>, first: string, second: string, id: string)
    requires first != second && second in shards && !shards[second].draining
    ensures StepPlacement(shards, "", Some(Placement(first, 1, Assigning, None)), Assigned(1)) == Changed(Placement(first, 1, Live, None))
    ensures StepPlacement(shards, "", Some(Placement(first, 1, Live, None)), StartMove(id, second))
         == Changed(Placement(first, 1, Moving, Some(Move(id, first, second, 2, Copying, ""))))
  {
  }

  // ---------- which actions are accepted ----------

  /** The move under way is this one. */
  predicate Underway(p: Placement, id: string) {
    p.move.Some? && p.move.value.id == id
  }

  /** In a valid catalog the state of a placement, and the end it is on, tell what is accepted: each report once, for the
      move under way, when its turn has come; a cancel only before cutover; a start only from rest, or again. */
  lemma AcceptedByState(c: Catalog, pick: string, tenant: string, p: Placement, id: string, target: string, epoch: Epoch)
    requires ValidCatalog(c) && PlacementOf(c, tenant) == Some(p)
    ensures Admitted(c, pick, OnTenant(tenant, CutoverMove(id))) <==> Underway(p, id) && p.state.Moving?
    ensures Admitted(c, pick, OnTenant(tenant, ActivatedMove(id))) <==> Underway(p, id) && p.state.CutOver?
    ensures Admitted(c, pick, OnTenant(tenant, CleanedMove(id))) <==> Underway(p, id) && p.state.Live? && p.shard == p.move.value.target
    ensures Admitted(c, pick, OnTenant(tenant, CancelMove)) <==> p.state.Moving?
    ensures Admitted(c, pick, OnTenant(tenant, ThawedMove(id))) <==> Underway(p, id) && p.state.BackingOut?
    ensures Admitted(c, pick, OnTenant(tenant, CancelledMove(id))) <==> Underway(p, id) && p.state.Live? && p.shard == p.move.value.source
    ensures Admitted(c, pick, OnTenant(tenant, Assigned(epoch))) <==> p.state.Assigning? && epoch == 1
    ensures Admitted(c, pick, OnTenant(tenant, Assign(target))) <==> target in {"", p.shard}
    ensures Admitted(c, pick, OnTenant(tenant, StartMove(id, target))) <==>
      && target in c.shards && !c.shards[target].draining && target != p.shard
      && if p.move.Some? then target == p.move.value.target else p.state.Live? && p.epoch != MAX_UINT64
  {
    hide Catalogs.ApplyCatalog, Admitted;
    assert WellFormed(p);
    forall a: TenantAction ensures Admitted(c, pick, OnTenant(tenant, a)) <==> !StepPlacement(c.shards, pick, Some(p), a).Refused? {
      AcceptsStep(c, pick, tenant, p, a);
    }
  }

  lemma AcceptsStep(c: Catalog, pick: string, tenant: string, p: Placement, a: TenantAction)
    requires PlacementOf(c, tenant) == Some(p)
    ensures Admitted(c, pick, OnTenant(tenant, a)) <==> !StepPlacement(c.shards, pick, Some(p), a).Refused?
  {
  }

  /** What is accepted without a placement is an assignment to an open shard. */
  lemma AcceptedUnplaced(c: Catalog, pick: string, tenant: string, a: TenantAction)
    requires tenant !in c.tenants
    ensures Admitted(c, pick, OnTenant(tenant, a)) <==>
      a.Assign? && exists s :: s in c.shards && !c.shards[s].draining && s == if a.target != "" then a.target else pick
    ensures Admitted(c, pick, OnTenant(tenant, a)) ==>
      Next(c, pick, OnTenant(tenant, a)) == Placing(c, tenant, Placement(if a.target != "" then a.target else pick, 1, Assigning, None), 1)
  {
  }

  /** An action a second time: it is refused, or changes nothing, or at most writes the same placement again. */
  lemma AgainIsHarmless(c: Catalog, pick: string, tenant: string, a: TenantAction)
    requires ValidCatalog(c) && Admitted(c, pick, OnTenant(tenant, a))
    ensures var once := Next(c, pick, OnTenant(tenant, a));
      Next(once, pick, OnTenant(tenant, a)).tenants == once.tenants
  {
    var once := Next(c, pick, OnTenant(tenant, a));
    assert tenant in c.tenants ==> WellFormed(c.tenants[tenant]);
    hide ValidCatalog;
    var again := Next(once, pick, OnTenant(tenant, a));
    assert tenant in once.tenants;
    assert again.tenants == once.tenants[tenant := again.tenants[tenant]];
  }

  /** An error is noted on the move under way in its phase; it leaves the placement as it was but for the note. */
  lemma ErrorIsNoted(c: Catalog, pick: string, tenant: string, p: Placement, id: string, phase: Phase, error: string)
    requires PlacementOf(c, tenant) == Some(p)
    ensures Admitted(c, pick, OnTenant(tenant, MoveError(id, phase, error))) <==> Underway(p, id) && p.move.value.phase == phase
    ensures Admitted(c, pick, OnTenant(tenant, MoveError(id, phase, error))) ==>
      Next(c, pick, OnTenant(tenant, MoveError(id, phase, error))) == Placing(c, tenant, p.(move := Some(p.move.value.(error := error))), 1)
  {
  }

  // ---------- shards ----------

  /** A shard can be registered exactly when its definition is valid and no other shard has its cluster, nor it another
      one; a registered shard keeps whether it is draining. */
  lemma RegisterIsExact(c: Catalog, pick: string, shard: Shard)
    requires ValidCatalog(c)
    ensures Admitted(c, pick, Register(shard)) <==>
      ValidShard(shard) && forall id :: id in c.shards ==> (id == shard.id <==> c.shards[id].cluster == shard.cluster)
    ensures Admitted(c, pick, Register(shard)) ==>
      Next(c, pick, Register(shard)) == Catalog(c.version + 1,
        c.shards[shard.id := shard.(draining := if shard.id in c.shards then c.shards[shard.id].draining else shard.draining)], c.tenants)
  {
  }

  /** Draining closes a registered shard, resuming opens it, and a closed one that no placement or move names can be
      removed; removing an unknown one does nothing. */
  lemma ShardCycle(c: Catalog, pick: string, target: string)
    ensures Admitted(c, pick, Drain(target)) <==> target in c.shards
    ensures Admitted(c, pick, Resume(target)) <==> target in c.shards
    ensures target in c.shards ==> Next(c, pick, Drain(target)) == Catalog(c.version + 1, c.shards[target := c.shards[target].(draining := true)], c.tenants)
    ensures target in c.shards ==> Next(c, pick, Resume(target)) == Catalog(c.version + 1, c.shards[target := c.shards[target].(draining := false)], c.tenants)
    ensures Admitted(c, pick, Unregister(target)) <==>
      (target in c.shards ==> c.shards[target].draining && forall t :: t in c.tenants ==> !Names(c.tenants[t], target))
    ensures Admitted(c, pick, Unregister(target)) ==>
      Next(c, pick, Unregister(target)) == if target in c.shards then Catalog(c.version + 1, c.shards - {target}, c.tenants) else c
  {
  }
}
