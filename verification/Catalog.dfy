/** The shard catalog: registered shards, tenant placements and tenant moves
    (internal/ha/shard_catalog.go). */
module Catalogs {
  import opened Sharding
  import opened StringOrder

  datatype Shard = Shard(id: string, cluster: string, peers: map<nat, string>, draining: bool)

  datatype Catalog = Catalog(version: nat, shards: map<string, Shard>, tenants: map<string, Placement>)

  const EMPTY_CATALOG: Catalog := Catalog(0, map[], map[])

  /** What a catalog action asks of one tenant's placement. */
  datatype TenantAction =
    | Assign(target: string)
    | Assigned(epoch: Epoch)
    | StartMove(id: string, target: string)
    | CutoverMove(id: string)
    | ActivatedMove(id: string)
    | CleanedMove(id: string)
    | CancelMove
    | ThawedMove(id: string)
    | CancelledMove(id: string)
    | MoveError(id: string, phase: Phase, error: string)

  datatype Action =
    | Register(shard: Shard)
    | Drain(target: string)
    | Resume(target: string)
    | Unregister(target: string)
    | OnTenant(tenant: string, action: TenantAction)

  /** `Same` answers 200 without writing; `Changed` writes the new value. */
  datatype Step<T> = Refused | Same(value: T) | Changed(value: T)

  /** Shard.Validate, without the syntax of peer origins. */
  predicate ValidShard(s: Shard) {
    && ValidIdentifier(s.id) && ValidIdentifier(s.cluster)
    && |s.peers| >= 3 && 0 !in s.peers
    && forall i, j :: i in s.peers && j in s.peers && i != j ==> s.peers[i] != s.peers[j]
  }

  predicate MatchesMove(p: Placement, id: string, phase: Phase) {
    p.move.Some? && p.move.value.id == id && p.move.value.phase == phase
  }

  function InPhase(p: Placement, state: PlacementState, phase: Phase): Placement
    requires p.move.Some?
  {
    p.(state := state, move := Some(p.move.value.(phase := phase, error := "")))
  }

  predicate Accepts(shards: map<string, Shard>, target: string) {
    target in shards && !shards[target].draining
  }

  /** The placement switch of applyCatalog. `pick` is the shard an unspecified assignment selects. */
  function StepPlacement(shards: map<string, Shard>, pick: string, current: Option<Placement>, a: TenantAction): Step<Placement> {
    match current
    case None =>
      if !a.Assign? then Refused
      else
        var target := if a.target == "" then pick else a.target;
        if !Accepts(shards, target) then Refused else Changed(Placement(target, 1, Assigning, None))
    case Some(p) =>
      match a
      case Assign(target) =>
        if target != "" && target != p.shard then Refused else Same(p)
      case Assigned(epoch) =>
        if p.epoch != epoch || !p.state.Assigning? then Refused else Changed(ClearError(p.(state := Live)))
      case StartMove(id, target) =>
        if !Accepts(shards, target) || target == p.shard then Refused
        else if p.move.Some? then (if p.move.value.target == target then Same(p) else Refused)
        else if !p.state.Live? || p.epoch == MAX_UINT64 then Refused
        else Changed(p.(state := Moving, move := Some(Move(id, p.shard, target, p.epoch + 1, Copying, ""))))
      case CutoverMove(id) =>
        if !MatchesMove(p, id, Copying) then Refused
        else Changed(InPhase(p, CutOver, Activating).(shard := p.move.value.target, epoch := p.move.value.epoch))
      case ActivatedMove(id) =>
        if !MatchesMove(p, id, Activating) then Refused else Changed(InPhase(p, Live, Cleaning))
      case CleanedMove(id) =>
        if !MatchesMove(p, id, Cleaning) then Refused else Changed(p.(move := None))
      case CancelMove =>
        if p.move.None? || !p.move.value.phase.Copying? then Refused else Changed(InPhase(p, BackingOut, Cancelling))
      case ThawedMove(id) =>
        if !MatchesMove(p, id, Cancelling) then Refused
        else Changed(InPhase(p, Live, Discarding).(epoch := p.move.value.epoch))
      case CancelledMove(id) =>
        if !MatchesMove(p, id, Discarding) then Refused
        else Changed(p.(epoch := p.move.value.epoch, state := Live, move := None))
      case MoveError(id, phase, error) =>
        if !MatchesMove(p, id, phase) then Refused
        else Changed(p.(move := Some(p.move.value.(error := error))))
  }

  function ClearError(p: Placement): Placement {
    if p.move.Some? then p.(move := Some(p.move.value.(error := ""))) else p
  }

  /** Whether a placement or its move names the shard. */
  predicate Names(p: Placement, shard: string) {
    p.shard == shard || (p.move.Some? && (p.move.value.source == shard || p.move.value.target == shard))
  }

  function PlacementOf(c: Catalog, tenant: string): Option<Placement> {
    if tenant in c.tenants then Some(c.tenants[tenant]) else None
  }

  /** applyCatalog. */
  function ApplyCatalog(c: Catalog, pick: string, a: Action): Step<Catalog> {
    match a
    case Register(shard) =>
      if !ValidShard(shard) then Refused
      else if shard.id in c.shards then
        if c.shards[shard.id].cluster != shard.cluster then Refused
        else Changed(c.(version := c.version + 1, shards := c.shards[shard.id := shard.(draining := c.shards[shard.id].draining)]))
      else if exists id :: id in c.shards && c.shards[id].cluster == shard.cluster then Refused
      else Changed(c.(version := c.version + 1, shards := c.shards[shard.id := shard]))
    case Drain(target) =>
      if target !in c.shards then Refused
      else Changed(c.(version := c.version + 1, shards := c.shards[target := c.shards[target].(draining := true)]))
    case Resume(target) =>
      if target !in c.shards then Refused
      else Changed(c.(version := c.version + 1, shards := c.shards[target := c.shards[target].(draining := false)]))
    case Unregister(target) =>
      if target !in c.shards then Same(c)
      else if !c.shards[target].draining then Refused
      else if exists t :: t in c.tenants && Names(c.tenants[t], target) then Refused
      else Changed(c.(version := c.version + 1, shards := c.shards - {target}))
    case OnTenant(tenant, action) =>
      match StepPlacement(c.shards, pick, PlacementOf(c, tenant), action)
      case Refused => Refused
      case Same(_) => Same(c)
      case Changed(p) => Changed(c.(version := c.version + 1, tenants := c.tenants[tenant := p]))
  }

  function Next(c: Catalog, pick: string, a: Action): Catalog {
    var step := ApplyCatalog(c, pick, a);
    if step.Refused? then c else step.value
  }

  // ---------- well-formedness over every run ----------

  /** How state, phase, shard and epochs go together. */
  predicate WellFormed(p: Placement) {
    && p.epoch >= 1
    && (p.state.Assigning? ==> p.epoch == 1)
    && match p.move
       case None => p.state.Assigning? || p.state.Live?
       case Some(m) =>
         && m.source != m.target && m.epoch >= 2
         && match m.phase
            case Copying => p.state.Moving? && p.shard == m.source && m.epoch == p.epoch + 1
            case Cancelling => p.state.BackingOut? && p.shard == m.source && m.epoch == p.epoch + 1
            case Activating => p.state.CutOver? && p.shard == m.target && m.epoch == p.epoch
            case Cleaning => p.state.Live? && p.shard == m.target && m.epoch == p.epoch
            case Discarding => p.state.Live? && p.shard == m.source && m.epoch == p.epoch
  }

  ghost predicate ValidCatalog(c: Catalog) {
    && "" !in c.shards
    && (forall id :: id in c.shards ==> c.shards[id].id == id)
    && (forall i, j :: i in c.shards && j in c.shards && i != j ==> c.shards[i].cluster != c.shards[j].cluster)
    && (forall t :: t in c.tenants ==> WellFormed(c.tenants[t]))
    && (forall t, id :: t in c.tenants && Names(c.tenants[t], id) ==> id in c.shards)
  }

  lemma StepKeepsWellFormed(shards: map<string, Shard>, pick: string, current: Option<Placement>, a: TenantAction)
    requires current.Some? ==> WellFormed(current.value)
    ensures var s := StepPlacement(shards, pick, current, a);
      s.Changed? ==>
        && WellFormed(s.value)
        && forall id :: Names(s.value, id) ==> id in shards || (current.Some? && Names(current.value, id))
  {
  }

  lemma TenantStepKeepsValid(c: Catalog, pick: string, tenant: string, action: TenantAction)
    requires ValidCatalog(c)
    ensures ValidCatalog(Next(c, pick, OnTenant(tenant, action)))
  {
    StepKeepsWellFormed(c.shards, pick, PlacementOf(c, tenant), action);
    var c' := Next(c, pick, OnTenant(tenant, action));
    assert c'.shards == c.shards;
    forall t, id | t in c'.tenants && Names(c'.tenants[t], id) ensures id in c'.shards {
      if tenant in c.tenants {
        assert Names(c.tenants[tenant], id) ==> id in c.shards;
      }
    }
  }

  lemma UnregisterKeepsValid(c: Catalog, pick: string, target: string)
    requires ValidCatalog(c)
    ensures ValidCatalog(Next(c, pick, Unregister(target)))
  {
    var c' := Next(c, pick, Unregister(target));
    forall t, id | t in c'.tenants && Names(c'.tenants[t], id) ensures id in c'.shards {
      assert t in c.tenants && id in c.shards;
    }
  }

  /** Every catalog action, accepted or not, keeps the catalog well formed. */
  lemma ActionKeepsValid(c: Catalog, pick: string, a: Action)
    requires ValidCatalog(c)
    ensures ValidCatalog(Next(c, pick, a))
  {
    match a {
      case OnTenant(tenant, action) =>
        TenantStepKeepsValid(c, pick, tenant, action);
      case Unregister(target) =>
        UnregisterKeepsValid(c, pick, target);
      case _ =>
        var c' := Next(c, pick, a);
        assert c'.tenants == c.tenants && c.shards.Keys <= c'.shards.Keys;
        forall t, id | t in c'.tenants && Names(c'.tenants[t], id) ensures id in c'.shards {
          assert id in c.shards;
        }
    }
  }

  function Run(c: Catalog, log: seq<(string, Action)>): Catalog
    decreases |log|
  {
    if log == [] then c
    else Next(Run(c, log[..|log| - 1]), log[|log| - 1].0, log[|log| - 1].1)
  }

  lemma {:induction false} EveryRunIsValid(log: seq<(string, Action)>)
    ensures ValidCatalog(Run(EMPTY_CATALOG, log))
    decreases |log|
  {
    if log != [] {
      EveryRunIsValid(log[..|log| - 1]);
      ActionKeepsValid(Run(EMPTY_CATALOG, log[..|log| - 1]), log[|log| - 1].0, log[|log| - 1].1);
    }
  }

  ghost predicate Named(c: Catalog, tenant: string, shard: string) {
    tenant in c.tenants && Names(c.tenants[tenant], shard)
  }

  ghost predicate Draining(c: Catalog, shard: string) {
    shard in c.shards && c.shards[shard].draining
  }

  lemma PlacementNamesAccepted(shards: map<string, Shard>, pick: string, current: Option<Placement>, a: TenantAction, shard: string)
    requires !Accepts(shards, shard) && (current.Some? ==> !Names(current.value, shard) && WellFormed(current.value))
    ensures var s := StepPlacement(shards, pick, current, a); s.Changed? ==> !Names(s.value, shard)
  {
  }

  lemma StepDrains(c: Catalog, pick: string, a: Action, shard: string)
    requires ValidCatalog(c) && Draining(c, shard) && a != Resume(shard) && a != Unregister(shard)
    ensures Draining(Next(c, pick, a), shard)
    ensures forall t :: Named(Next(c, pick, a), t, shard) ==> Named(c, t, shard)
  {
    if a.OnTenant? && !Named(c, a.tenant, shard) {
      PlacementNamesAccepted(c.shards, pick, PlacementOf(c, a.tenant), a.action, shard);
    }
  }

  /** A shard that drains takes no tenant any more, neither as a placement nor as a move's target,
      until it is resumed: registering it again does not reset that, and every other action leaves the
      set of tenants naming it the same or smaller. */
  lemma {:induction false} DrainingOnlyShrinks(c: Catalog, log: seq<(string, Action)>, shard: string)
    requires ValidCatalog(c) && Draining(c, shard)
    requires forall x :: x in log ==> x.1 != Resume(shard) && x.1 != Unregister(shard)
    ensures ValidCatalog(Run(c, log)) && Draining(Run(c, log), shard)
    ensures forall t :: Named(Run(c, log), t, shard) ==> Named(c, t, shard)
    decreases |log|
  {
    hide ValidCatalog, Next, Draining, Named;
    if log != [] {
      var before, last := log[..|log| - 1], log[|log| - 1];
      DrainingOnlyShrinks(c, before, shard);
      StepDrains(Run(c, before), last.0, last.1, shard);
      ActionKeepsValid(Run(c, before), last.0, last.1);
    }
  }

  // ---------- the life of one tenant's moves ----------

  /** The order of phases: forward to activation and cleanup, or back to cancellation and discard. */
  predicate Reaches(before: Phase, after: Phase) {
    || before == after
    || before.Copying?
    || (before.Activating? && after.Cleaning?)
    || (before.Cancelling? && after.Discarding?)
  }

  predicate Forward(phase: Phase) { phase.Activating? || phase.Cleaning? }
  predicate Backward(phase: Phase) { phase.Cancelling? || phase.Discarding? }

  predicate SameMove(a: Move, b: Move) {
    a.id == b.id && a.source == b.source && a.target == b.target && a.epoch == b.epoch
  }

  /** How a placement seen earlier, `h`, relates to the current one. */
  predicate Precedes(h: Placement, p: Placement) {
    && WellFormed(h)
    && h.epoch <= p.epoch
    && (h.state.Assigning? && p.state.Assigning? ==> h == p)
    && (!h.state.Assigning? ==> !p.state.Assigning?)
    && (h.move.Some? ==>
        var past := h.move.value;
        match p.move
        case None => past.epoch <= p.epoch
        case Some(m) => if past.id == m.id then SameMove(past, m) && Reaches(past.phase, m.phase) else past.epoch < m.epoch)
  }

  /** Two placements of one tenant's history: moves are told apart by identity and by epoch alike,
      and no move went both ways. */
  predicate Coherent(h: Placement, k: Placement) {
    && (h.state.Assigning? && k.state.Assigning? ==> h == k)
    && (h.move.Some? && k.move.Some? ==>
        var a, b := h.move.value, k.move.value;
        && (a.id == b.id ==> SameMove(a, b) && !(Forward(a.phase) && Backward(b.phase)))
        && (a.epoch == b.epoch ==> a.id == b.id))
  }

  /** `history` holds every placement the tenant has had, up to the current one. */
  ghost predicate History(history: set<Placement>, current: Option<Placement>) {
    match current
    case None => history == {}
    case Some(p) =>
      && p in history
      && WellFormed(p)
      && (forall h :: h in history ==> Precedes(h, p))
      && (forall h, k :: h in history && k in history ==> Coherent(h, k))
  }

  /** A new move takes an identity no earlier move of the tenant had: the random command ID. */
  ghost predicate FreshMove(history: set<Placement>, a: TenantAction) {
    a.StartMove? ==> forall h :: h in history && h.move.Some? ==> h.move.value.id != a.id
  }

  function Remember(history: set<Placement>, s: Step<Placement>): set<Placement> {
    if s.Changed? then history + {s.value} else history
  }

  function After(current: Option<Placement>, s: Step<Placement>): Option<Placement> {
    if s.Changed? then Some(s.value) else current
  }

  lemma StepKeepsPrecedes(shards: map<string, Shard>, pick: string, p: Placement, a: TenantAction, h: Placement)
    requires WellFormed(p) && Precedes(h, p)
    requires a.StartMove? && h.move.Some? ==> h.move.value.id != a.id
    ensures var s := StepPlacement(shards, pick, Some(p), a); s.Changed? ==> Precedes(h, s.value)
  {
  }

  lemma PrecedesCoheres(h: Placement, p: Placement)
    requires WellFormed(p) && Precedes(h, p)
    ensures Coherent(h, p) && Coherent(p, h)
  {
  }

  /** Every placement step extends a coherent history to a coherent history. */
  lemma StepKeepsHistory(shards: map<string, Shard>, pick: string, history: set<Placement>, current: Option<Placement>, a: TenantAction)
    requires History(history, current) && FreshMove(history, a)
    ensures var s := StepPlacement(shards, pick, current, a); History(Remember(history, s), After(current, s))
  {
    var s := StepPlacement(shards, pick, current, a);
    if s.Changed? {
      var q := s.value;
      StepKeepsWellFormed(shards, pick, current, a);
      if current.Some? {
        forall h | h in history ensures Precedes(h, q) && Coherent(h, q) && Coherent(q, h) {
          StepKeepsPrecedes(shards, pick, current.value, a, h);
          PrecedesCoheres(h, q);
        }
      }
    }
  }

  /** Every placement the tenant has had over a run. */
  function Placements(tenant: string, log: seq<(string, Action)>): set<Placement>
    decreases |log|
  {
    var now := PlacementOf(Run(EMPTY_CATALOG, log), tenant);
    var here := if now.Some? then {now.value} else {};
    if log == [] then here else Placements(tenant, log[..|log| - 1]) + here
  }

  ghost predicate FreshRun(tenant: string, log: seq<(string, Action)>)
    decreases |log|
  {
    log != [] ==>
      var before, last := log[..|log| - 1], log[|log| - 1].1;
      && FreshRun(tenant, before)
      && (last.OnTenant? && last.tenant == tenant ==> FreshMove(Placements(tenant, before), last.action))
  }

  /** Over every run: placements of a tenant succeed each other in epoch order, a move identity has
      one source, target and epoch, and no move both cuts over and cancels. */
  lemma {:induction false} EveryRunHasHistory(tenant: string, log: seq<(string, Action)>)
    requires FreshRun(tenant, log)
    ensures History(Placements(tenant, log), PlacementOf(Run(EMPTY_CATALOG, log), tenant))
    decreases |log|
  {
    if log != [] {
      var before, pick, last := log[..|log| - 1], log[|log| - 1].0, log[|log| - 1].1;
      var c := Run(EMPTY_CATALOG, before);
      EveryRunHasHistory(tenant, before);
      if last.OnTenant? && last.tenant == tenant {
        StepKeepsHistory(c.shards, pick, Placements(tenant, before), PlacementOf(c, tenant), last.action);
        var s := StepPlacement(c.shards, pick, PlacementOf(c, tenant), last.action);
        assert Placements(tenant, log) == Remember(Placements(tenant, before), s);
      } else {
        assert PlacementOf(Run(EMPTY_CATALOG, log), tenant) == PlacementOf(c, tenant);
        assert Placements(tenant, log) == Placements(tenant, before);
      }
    }
  }

  predicate Underway(c: Catalog, tenant: string, id: string) {
    var now := PlacementOf(c, tenant);
    now.Some? && now.value.move.Some? && now.value.move.value.id == id
  }

  lemma {:induction false} PlacementsGrow(tenant: string, log: seq<(string, Action)>, i: nat)
    requires i <= |log|
    ensures Placements(tenant, log[..i]) <= Placements(tenant, log)
    decreases |log|
  {
    if i < |log| {
      assert log[..|log| - 1][..i] == log[..i];
      PlacementsGrow(tenant, log[..|log| - 1], i);
    } else {
      assert log[..i] == log;
    }
  }

  lemma StepKeepsOver(c: Catalog, pick: string, a: Action, tenant: string, id: string)
    requires !Underway(c, tenant, id)
    requires a.OnTenant? && a.tenant == tenant && a.action.StartMove? ==> a.action.id != id
    ensures !Underway(Next(c, pick, a), tenant, id)
  {
  }

  /** In every run a move that is over stays over: no later action of any kind brings its identity back. */
  lemma {:induction false} MoveStaysOver(tenant: string, log: seq<(string, Action)>, i: nat, h: Placement)
    requires FreshRun(tenant, log) && i <= |log|
    requires h in Placements(tenant, log[..i]) && h.move.Some?
    requires !Underway(Run(EMPTY_CATALOG, log[..i]), tenant, h.move.value.id)
    ensures !Underway(Run(EMPTY_CATALOG, log), tenant, h.move.value.id)
    decreases |log|
  {
    hide Next, Placements, Underway;
    if i == |log| {
      assert log[..i] == log;
    } else {
      var before := log[..|log| - 1];
      assert before[..i] == log[..i];
      PlacementsGrow(tenant, before, i);
      MoveStaysOver(tenant, before, i, h);
      StepKeepsOver(Run(EMPTY_CATALOG, before), log[|log| - 1].0, log[|log| - 1].1, tenant, h.move.value.id);
    }
  }

  /** In every run a move that is over has raised the tenant's epoch to its own, above the one it
      found: what a sender of that move read is no longer the current epoch. */
  lemma FinishedMoveRaisedEpoch(tenant: string, log: seq<(string, Action)>, h: Placement)
    requires FreshRun(tenant, log) && h in Placements(tenant, log) && h.move.Some?
    requires !Underway(Run(EMPTY_CATALOG, log), tenant, h.move.value.id)
    ensures var now := PlacementOf(Run(EMPTY_CATALOG, log), tenant);
      && now.Some?
      && h.move.value.epoch <= now.value.epoch
      && (h.move.value.phase.Copying? || h.move.value.phase.Cancelling? ==> h.epoch < now.value.epoch)
  {
    EveryRunHasHistory(tenant, log);
    var p := PlacementOf(Run(EMPTY_CATALOG, log), tenant).value;
    assert Precedes(h, p);
  }
}
