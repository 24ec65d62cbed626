/** Tenant migration as a whole: one catalog, any number of data shards, and coordinators that may
    be stale, crash, be superseded or repeat themselves (internal/ha/shard_migration.go,
    shard_copy.go, shard_catalog.go, shard_ownership.go, application.go).

    Each Raft group is one atomic register. A message, once sent, stays in `sent` and can be
    delivered late, again, or never. A coordinator acts on any placement that was ever committed. */
module Migration {
  import opened Sharding
  import opened ShardOwnership
  import T = Transfers
  import C = Catalogs

  // ---------- what coordinators send ----------

  /** A message and the placement its sender had read. */
  datatype Message =
    | OwnMsg(p: Placement)
    | FreezeMsg(p: Placement)
    | ReserveMsg(p: Placement)
    | StageMsg(p: Placement, part: int, bytes: int, digest: string, data: Bytes)
    | InstallMsg(p: Placement, payload: Bytes)
    | ActivateMsg(p: Placement)
    | RetireMsg(p: Placement)
    | ThawMsg(p: Placement)
    | DiscardMsg(p: Placement)
    | Propose(p: Placement, step: C.TenantAction)

  function Before(e: Epoch): Epoch {
    if e == 0 then MAX_UINT64 else e - 1
  }

  predicate InPhase(p: Placement, phase: Phase) {
    p.move.Some? && p.move.value.phase == phase
  }

  /** The phase a message belongs to, as advanceTenantMove selects it. */
  predicate Belongs(m: Message) {
    match m
    case OwnMsg(p) => p.state.Assigning?
    case FreezeMsg(p) => InPhase(p, Copying)
    case ReserveMsg(p) => InPhase(p, Copying)
    case StageMsg(p, _, _, _, _) => InPhase(p, Copying)
    case InstallMsg(p, _) => InPhase(p, Copying)
    case ActivateMsg(p) => InPhase(p, Activating)
    case RetireMsg(p) => InPhase(p, Cleaning)
    case ThawMsg(p) => InPhase(p, Cancelling)
    case DiscardMsg(p) => InPhase(p, Discarding)
    case Propose(p, step) =>
      match step
      case Assigned(epoch) => p.state.Assigning? && epoch == p.epoch
      case CutoverMove(id) => InPhase(p, Copying) && id == p.move.value.id
      case ActivatedMove(id) => InPhase(p, Activating) && id == p.move.value.id
      case CleanedMove(id) => InPhase(p, Cleaning) && id == p.move.value.id
      case ThawedMove(id) => InPhase(p, Cancelling) && id == p.move.value.id
      case CancelledMove(id) => InPhase(p, Discarding) && id == p.move.value.id
      case MoveError(id, phase, _) => InPhase(p, phase) && id == p.move.value.id
      case _ => false
  }

  /** The shard a message goes to. */
  function Destination(m: Message): string
    requires Belongs(m) && !m.Propose?
  {
    match m
    case OwnMsg(p) => p.shard
    case FreezeMsg(p) => p.move.value.source
    case RetireMsg(p) => p.move.value.source
    case ThawMsg(p) => p.move.value.source
    case ReserveMsg(p) => p.move.value.target
    case StageMsg(p, _, _, _, _) => p.move.value.target
    case InstallMsg(p, _) => p.move.value.target
    case ActivateMsg(p) => p.move.value.target
    case DiscardMsg(p) => p.move.value.target
  }

  /** The action it carries. */
  function ActionOf(setup: Setup, m: Message): OwnerAction
    requires Belongs(m) && !m.Propose?
  {
    if m.OwnMsg? then Plain(Own, m.p.epoch, "")
    else
      var v := m.p.move.value;
      match m
      case FreezeMsg(_) => Plain(Freeze, Before(v.epoch), v.id)
      case ReserveMsg(_) => Plain(Reserve, v.epoch, v.id)
      case StageMsg(_, part, bytes, digest, data) => OwnerAction(Stage, v.epoch, v.id, part, 0, bytes, digest, data)
      case InstallMsg(_, payload) => OwnerAction(Install, v.epoch, v.id, 0, PartCount(|payload|), |payload|, setup.codec.digest(payload), [])
      case ActivateMsg(_) => Plain(Activate, v.epoch, v.id)
      case RetireMsg(_) => Plain(Retire, Before(v.epoch), v.id)
      case ThawMsg(_) => Plain(Thaw, v.epoch, v.id)
      case DiscardMsg(_) => Plain(Discard, v.epoch, v.id)
  }

  // ---------- what clients ask of a tenant ----------

  /** A mutation carries the routing epoch its sender resolved; a queued task runs without one. */
  datatype TenantOp =
    | Commit(epoch: nat, write: Write)
    | Accept(epoch: nat, write: Write)
    | Flush(epoch: nat, count: nat)
    | Queue(epoch: nat, task: nat)
    | RunTask(task: nat, write: Write)

  /** The effect on an unsharded tenant. */
  function Perform(c: Content, op: TenantOp): Content {
    match op
    case Commit(_, w) => c.(published := c.published + [w])
    case Accept(_, w) => c.(accepted := c.accepted + [w])
    case Flush(_, count) =>
      var k := Min(count, |c.accepted|);
      c.(published := c.published + c.accepted[..k], accepted := c.accepted[k..])
    case Queue(_, task) => c.(tasks := c.tasks + {task})
    case RunTask(task, w) => c.(tasks := c.tasks - {task}, published := c.published + [w])
  }

  function View(content: Option<Content>): Content {
    if content.Some? then content.value else EMPTY_CONTENT
  }

  /** The gate of applyCommand and flush on a data shard. */
  predicate Admits(n: Node, op: TenantOp) {
    match op
    case Commit(epoch, _) => Serves(n.owner, epoch)
    case Accept(epoch, _) => Serves(n.owner, epoch)
    case Queue(epoch, _) => Serves(n.owner, epoch)
    case Flush(epoch, _) => n.owner.state.Active? && (epoch == 0 || n.owner.epoch == epoch)
    case RunTask(task, _) => task in View(n.content).tasks
  }

  // ---------- the system ----------

  /** `tenant` is the unsharded tenant this one is meant to be: it performs every admitted operation.
      `served` records every epoch at which a shard was active. */
  datatype System = System(
    catalog: C.Catalog,
    history: set<Placement>,
    nodes: map<string, Node>,
    sent: set<Message>,
    replies: set<(Message, Ownership)>,
    exports: set<(string, Bytes)>,
    tenant: Content,
    served: set<(Epoch, string)>)

  const START: System := System(C.EMPTY_CATALOG, {}, map[], {}, {}, {}, EMPTY_CONTENT, {})

  function NodeOf(nodes: map<string, Node>, shard: string): Node {
    if shard in nodes then nodes[shard] else EMPTY_NODE
  }

  function Now(setup: Setup, s: System): Option<Placement> {
    C.PlacementOf(s.catalog, setup.tenant)
  }

  ghost predicate Answered(s: System, m: Message) {
    exists o :: (m, o) in s.replies
  }

  /** The coordinator has seen the target hold the installed transfer. */
  ghost predicate SawInstalled(s: System, p: Placement) {
    || (exists payload :: Answered(s, InstallMsg(p, payload)))
    || (exists o :: (ReserveMsg(p), o) in s.replies && o.state.Installed?)
  }

  /** When a coordinator holding `m.p` sends `m`: the calls of one phase follow each other. */
  ghost predicate Sendable(s: System, m: Message) {
    && m.p in s.history
    && Belongs(m)
    && match m
       case ReserveMsg(p) => Answered(s, FreezeMsg(p))
       case StageMsg(p, _, _, _, _) => Answered(s, ReserveMsg(p))
       case InstallMsg(p, payload) => Answered(s, ReserveMsg(p)) && (p.move.value.id, payload) in s.exports
       case Propose(p, Assigned(_)) => Answered(s, OwnMsg(p))
       case Propose(p, CutoverMove(_)) => SawInstalled(s, p)
       case Propose(p, ActivatedMove(_)) => Answered(s, ActivateMsg(p))
       case Propose(p, CleanedMove(_)) => Answered(s, RetireMsg(p))
       case Propose(p, ThawedMove(_)) => Answered(s, ThawMsg(p))
       case Propose(p, CancelledMove(_)) => Answered(s, DiscardMsg(p))
       case _ => true
  }

  datatype Event =
    | Request(pick: string, action: C.Action)
    | Send(message: Message)
    | Deliver(message: Message)
    | Export(p: Placement)
    | Client(shard: string, op: TenantOp)

  /** Operators and the router register and drain shards, assign, move and cancel; the other tenant
      actions come from coordinators. Other tenants' actions are unrestricted. */
  ghost predicate Requestable(setup: Setup, s: System, a: C.Action) {
    a.OnTenant? && a.tenant == setup.tenant ==>
      && (a.action.Assign? || a.action.StartMove? || a.action.CancelMove?)
      && C.FreshMove(s.history, a.action)
  }

  function Decide(setup: Setup, s: System, pick: string, a: C.Action): System {
    var catalog := C.Next(s.catalog, pick, a);
    var now := C.PlacementOf(catalog, setup.tenant);
    s.(catalog := catalog, history := if now.Some? then s.history + {now.value} else s.history)
  }

  function Serve(setup: Setup, s: System, m: Message): System
    requires Belongs(m) && !m.Propose?
  {
    var shard := Destination(m);
    var r := ApplyOwnership(setup, NodeOf(s.nodes, shard), ActionOf(setup, m));
    s.(nodes := s.nodes[shard := r.node],
       replies := if r.reply.Done? then s.replies + {(m, r.reply.owner)} else s.replies,
       served := if r.node.owner.state.Active? then s.served + {(r.node.owner.epoch, shard)} else s.served)
  }

  /** tenantTransfer: a source serves its export only while frozen for that move. */
  predicate Exportable(s: System, p: Placement) {
    && InPhase(p, Copying)
    && var n := NodeOf(s.nodes, p.move.value.source);
       && n.owner.state.Frozen?
       && n.owner.epoch == Before(p.move.value.epoch)
       && n.owner.moveId == p.move.value.id
       && n.content.Some?
  }

  function Payload(setup: Setup, s: System, p: Placement): Bytes
    requires Exportable(s, p)
  {
    setup.codec.encode(Transfer(setup.tenant, p.move.value.id, NodeOf(s.nodes, p.move.value.source).content.value))
  }

  /** One step of the system; an event that is not possible changes nothing. */
  ghost function Step(setup: Setup, s: System, e: Event): System {
    match e
    case Request(pick, a) => if Requestable(setup, s, a) then Decide(setup, s, pick, a) else s
    case Send(m) => if Sendable(s, m) then s.(sent := s.sent + {m}) else s
    case Deliver(m) =>
      if m !in s.sent || !Belongs(m) then s
      else if m.Propose? then Decide(setup, s, "", C.OnTenant(setup.tenant, m.step))
      else Serve(setup, s, m)
    case Export(p) =>
      if p in s.history && Exportable(s, p) then s.(exports := s.exports + {(p.move.value.id, Payload(setup, s, p))}) else s
    case Client(shard, op) =>
      var n := NodeOf(s.nodes, shard);
      if Admits(n, op)
      then s.(nodes := s.nodes[shard := n.(content := Some(Perform(View(n.content), op)))], tenant := Perform(s.tenant, op))
      else s
  }

  ghost function Run(setup: Setup, events: seq<Event>): System
    decreases |events|
  {
    if events == [] then START
    else Step(setup, Run(setup, events[..|events| - 1]), events[|events| - 1])
  }
}
