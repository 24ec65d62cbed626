/** Safety of tenant migration over every run of the system. */
module MigrationSafety {
  import opened Sharding
  import opened ShardOwnership
  import opened Migration
  import T = Transfers
  import C = Catalogs

  // ---------- the invariant, shard by shard ----------

  /** A shard that neither serves nor holds the tenant frozen, at an epoch that is over. */
  predicate Passive(n: Node, bound: nat) {
    !n.owner.state.Active? && !n.owner.state.Frozen? && n.owner.epoch <= bound
  }

  /** What a record says on its own about the data beside it. */
  ghost predicate Shape(setup: Setup, n: Node) {
    var o := n.owner;
    && T.Staged(setup.codec, n)
    && (o.epoch == 0 <==> o.state.Unowned?)
    && (o.state.Unowned? || o.state.Retired? || o.state.Importing? ==> n.content.None?)
    && (o.state.Installed? ==> n.content.Some?)
    && (!o.state.Active? ==> Ready(n))
  }

  /** The part each shard plays, given the current placement. */
  predicate Role(p: Placement, shard: string, n: Node) {
    var o := n.owner;
    match p.move
    case None =>
      if shard != p.shard then Passive(n, p.epoch)
      else if p.state.Assigning? then o.state.Unowned? || (o.epoch == 1 && o.state.Active?)
      else o.epoch == p.epoch && o.state.Active?
    case Some(m) =>
      match m.phase
      case Copying =>
        if shard == m.source then o.epoch == p.epoch && (o.state.Active? || (o.state.Frozen? && o.moveId == m.id))
        else if shard == m.target then Awaiting(p, m, n)
        else Passive(n, p.epoch)
      case Cancelling =>
        if shard == m.source then
          || (o.epoch == p.epoch && (o.state.Active? || (o.state.Frozen? && o.moveId == m.id)))
          || (o.epoch == m.epoch && o.state.Active?)
        else if shard == m.target then Awaiting(p, m, n)
        else Passive(n, p.epoch)
      case Activating =>
        if shard == m.target then o.epoch == m.epoch && o.moveId == m.id && (o.state.Installed? || o.state.Active?)
        else if shard == m.source then o.epoch + 1 == m.epoch && o.state.Frozen? && o.moveId == m.id
        else Passive(n, p.epoch)
      case Cleaning =>
        if shard == m.target then o.epoch == m.epoch && o.state.Active?
        else if shard == m.source then o.epoch + 1 == m.epoch && o.moveId == m.id && (o.state.Frozen? || o.state.Retired?)
        else Passive(n, p.epoch)
      case Discarding =>
        if shard == m.source then o.epoch == p.epoch && o.state.Active?
        else Passive(n, p.epoch)
  }

  /** A move's target before cutover: not yet reserved, or importing or installed for this move. */
  predicate Awaiting(p: Placement, m: Move, n: Node) {
    && Passive(n, m.epoch)
    && (n.owner.epoch == m.epoch ==> n.owner.moveId == m.id && (n.owner.state.Importing? || n.owner.state.Installed?))
  }

  /** The target of a move that cut over has left the installed state, once that move is past activation. */
  predicate Settled(p: Placement, past: Move, n: Node) {
    || n.owner.epoch > past.epoch
    || (n.owner.epoch == past.epoch && (n.owner.state.Active? || n.owner.state.Frozen? || n.owner.state.Retired?))
    || (p.move.Some? && p.move.value.id == past.id && p.move.value.phase.Activating?)
  }

  /** Epochs only grow, and within an epoch a shard that has served does not import again. */
  predicate Advances(n: Node, n': Node) {
    || n'.owner.epoch > n.owner.epoch
    || (n'.owner.epoch == n.owner.epoch &&
        (n.owner.state.Active? || n.owner.state.Frozen? || n.owner.state.Retired? ==>
           n'.owner.state.Active? || n'.owner.state.Frozen? || n'.owner.state.Retired?))
  }

  /** What a coordinator may rely on once it has seen it: within the phase it does not change back. */
  predicate Lasts(p: Placement, shard: string, n: Node, n': Node) {
    p.move.Some? ==>
      var m := p.move.value;
      && (m.phase.Copying? && shard == m.source && n.owner.state.Frozen? ==> n' == n)
      && (m.phase.Copying? && shard == m.target && HasInstalled(m, n) ==> n' == n)
      && (m.phase.Activating? && shard == m.target && n.owner.state.Active? ==> n'.owner.state.Active?)
      && (m.phase.Cleaning? && shard == m.source && n.owner.state.Retired? ==> n'.owner.state.Retired?)
      && (m.phase.Cancelling? && shard == m.source && HasThawed(m, n) ==> HasThawed(m, n'))
  }

  predicate HasInstalled(m: Move, n: Node) {
    n.owner.epoch == m.epoch && n.owner.state.Installed?
  }

  predicate HasThawed(m: Move, n: Node) {
    n.owner.epoch == m.epoch && n.owner.state.Active?
  }

  /** What a delivery keeps at the shard that receives it. */
  ghost predicate Kept(setup: Setup, p: Placement, shard: string, n: Node, n': Node) {
    && Shape(setup, n')
    && Role(p, shard, n')
    && Advances(n, n')
    && Lasts(p, shard, n, n')
    && (shard == p.shard ==> n'.content == n.content)
  }

  lemma OwnKeeps(setup: Setup, p: Placement, m: Message, n: Node)
    requires m.OwnMsg? && Belongs(m) && C.WellFormed(p) && C.Precedes(m.p, p)
    requires Shape(setup, n) && Role(p, Destination(m), n)
    requires !p.state.Assigning? ==> n.owner.epoch >= 1
    ensures Kept(setup, p, Destination(m), n, ApplyOwnership(setup, n, ActionOf(setup, m)).node)
  {
  }

  lemma FreezeKeeps(setup: Setup, p: Placement, m: Message, n: Node)
    requires m.FreezeMsg? && Belongs(m) && C.WellFormed(p) && C.Precedes(m.p, p)
    requires Shape(setup, n) && Role(p, Destination(m), n)
    ensures Kept(setup, p, Destination(m), n, ApplyOwnership(setup, n, ActionOf(setup, m)).node)
  {
  }

  lemma ReserveKeeps(setup: Setup, p: Placement, m: Message, n: Node)
    requires m.ReserveMsg? && Belongs(m) && C.WellFormed(p) && C.Precedes(m.p, p)
    requires Shape(setup, n) && Role(p, Destination(m), n)
    ensures Kept(setup, p, Destination(m), n, ApplyOwnership(setup, n, ActionOf(setup, m)).node)
  {
  }

  lemma StageKeeps(setup: Setup, p: Placement, m: Message, n: Node)
    requires m.StageMsg? && Belongs(m) && C.WellFormed(p) && C.Precedes(m.p, p)
    requires Shape(setup, n) && Role(p, Destination(m), n)
    ensures Kept(setup, p, Destination(m), n, ApplyOwnership(setup, n, ActionOf(setup, m)).node)
  {
    T.ActionKeepsStaged(setup, n, ActionOf(setup, m));
  }

  lemma ActivateKeeps(setup: Setup, p: Placement, m: Message, n: Node)
    requires m.ActivateMsg? && Belongs(m) && C.WellFormed(p) && C.Precedes(m.p, p)
    requires Shape(setup, n) && Role(p, Destination(m), n)
    requires Settled(p, m.p.move.value, n)
    ensures Kept(setup, p, Destination(m), n, ApplyOwnership(setup, n, ActionOf(setup, m)).node)
  {
  }

  lemma RetireKeeps(setup: Setup, p: Placement, m: Message, n: Node)
    requires m.RetireMsg? && Belongs(m) && C.WellFormed(p) && C.Precedes(m.p, p)
    requires Shape(setup, n) && Role(p, Destination(m), n)
    ensures Kept(setup, p, Destination(m), n, ApplyOwnership(setup, n, ActionOf(setup, m)).node)
  {
  }

  lemma ThawKeeps(setup: Setup, p: Placement, m: Message, n: Node)
    requires m.ThawMsg? && Belongs(m) && C.WellFormed(p) && C.Precedes(m.p, p)
    requires Shape(setup, n) && Role(p, Destination(m), n)
    ensures Kept(setup, p, Destination(m), n, ApplyOwnership(setup, n, ActionOf(setup, m)).node)
  {
  }

  lemma DiscardKeeps(setup: Setup, p: Placement, m: Message, n: Node)
    requires m.DiscardMsg? && Belongs(m) && C.WellFormed(p) && C.Precedes(m.p, p)
    requires Shape(setup, n) && Role(p, Destination(m), n)
    ensures Kept(setup, p, Destination(m), n, ApplyOwnership(setup, n, ActionOf(setup, m)).node)
  {
  }

  /** A payload that a frozen source exported for its move. */
  ghost predicate Genuine(setup: Setup, move: string, payload: Bytes) {
    var t := setup.codec.decode(payload);
    t.Some? && t.value.tenant == setup.tenant && t.value.moveId == move && Drained(t.value.content)
  }

  lemma InstallKeeps(setup: Setup, p: Placement, m: Message, n: Node)
    requires m.InstallMsg? && Belongs(m) && C.WellFormed(p) && C.Precedes(m.p, p) && Faithful(setup.codec)
    requires Shape(setup, n) && Role(p, Destination(m), n)
    requires Genuine(setup, m.p.move.value.id, m.payload)
    ensures Kept(setup, p, Destination(m), n, ApplyOwnership(setup, n, ActionOf(setup, m)).node)
    ensures var r := ApplyOwnership(setup, n, ActionOf(setup, m));
      r.node != n ==> r.node.owner.state.Installed? && r.node.content == Some(setup.codec.decode(m.payload).value.content)
  {
    var a := ActionOf(setup, m);
    T.ActionKeepsStaged(setup, n, a);
    if n.owner.state.Importing? && Matches(n.owner, a) && a.epoch > 0 && ValidIdentifier(a.moveId) {
      T.InstallIsExact(setup, n, a);
    }
  }

  // ---------- the invariant of the system ----------

  predicate SameId(p: Placement, q: Placement) {
    p.move.Some? && q.move.Some? && p.move.value.id == q.move.value.id
  }

  ghost predicate Known(history: set<Placement>, move: string) {
    exists h :: h in history && h.move.Some? && h.move.value.id == move
  }

  ghost predicate Messages(s: System) {
    && (forall m :: m in s.sent ==> Sendable(s, m))
    && (forall r :: r in s.replies ==> r.0 in s.sent && !r.0.Propose?)
    && (forall x :: x in s.exports ==> Known(s.history, x.0))
  }

  ghost predicate Shards(setup: Setup, now: Option<Placement>, nodes: map<string, Node>) {
    forall id: string ::
      && Shape(setup, NodeOf(nodes, id))
      && match now
         case None => NodeOf(nodes, id) == EMPTY_NODE
         case Some(p) => Role(p, id, NodeOf(nodes, id))
  }

  /** The placement's shard holds the tenant, and so does a target once it has installed. */
  ghost predicate Data(nodes: map<string, Node>, tenant: Content, p: Placement) {
    && View(NodeOf(nodes, p.shard).content) == tenant
    && (InPhase(p, Copying) && HasInstalled(p.move.value, NodeOf(nodes, p.move.value.target)) ==>
        && NodeOf(nodes, p.move.value.source).owner.state.Frozen?
        && NodeOf(nodes, p.move.value.target).content == NodeOf(nodes, p.move.value.source).content)
  }

  /** What a reply proves about the present, as long as its move is still in the reply's phase. */
  predicate Proves(nodes: map<string, Node>, p: Placement, m: Message, o: Ownership) {
    match m
    case OwnMsg(q) => NodeOf(nodes, q.shard).owner.epoch >= 1
    case ReserveMsg(q) => o.state.Installed? && InPhase(p, Copying) && SameId(p, q) ==> HasInstalled(p.move.value, NodeOf(nodes, p.move.value.target))
    case InstallMsg(q, _) => InPhase(p, Copying) && SameId(p, q) ==> HasInstalled(p.move.value, NodeOf(nodes, p.move.value.target))
    case ActivateMsg(q) => InPhase(p, Activating) && SameId(p, q) ==> NodeOf(nodes, p.move.value.target).owner.state.Active?
    case RetireMsg(q) => InPhase(p, Cleaning) && SameId(p, q) ==> NodeOf(nodes, p.move.value.source).owner.state.Retired?
    case ThawMsg(q) => InPhase(p, Cancelling) && SameId(p, q) ==> HasThawed(p.move.value, NodeOf(nodes, p.move.value.source))
    case _ => true
  }

  ghost predicate Evidence(nodes: map<string, Node>, replies: set<(Message, Ownership)>, p: Placement) {
    forall r :: r in replies ==> Proves(nodes, p, r.0, r.1)
  }

  /** What the placements of the past left behind on their shards. */
  ghost predicate Traces(nodes: map<string, Node>, history: set<Placement>, p: Placement) {
    && (!p.state.Assigning? ==> forall h :: h in history && h.state.Assigning? ==> NodeOf(nodes, h.shard).owner.epoch >= 1)
    && (forall h :: h in history && h.move.Some? && C.Forward(h.move.value.phase) ==> Settled(p, h.move.value, NodeOf(nodes, h.move.value.target)))
  }

  ghost predicate Exports(setup: Setup, nodes: map<string, Node>, exports: set<(string, Bytes)>, p: Placement) {
    forall x :: x in exports ==>
      && Genuine(setup, x.0, x.1)
      && (InPhase(p, Copying) && p.move.value.id == x.0 ==>
          && NodeOf(nodes, p.move.value.source).owner.state.Frozen?
          && NodeOf(nodes, p.move.value.source).content == Some(setup.codec.decode(x.1).value.content))
  }

  /** Each epoch was active on one shard, and the newest ones on the placement's own. */
  ghost predicate Served(served: set<(Epoch, string)>, p: Placement) {
    && (forall x :: x in served ==> x.0 <= p.epoch || (InPhase(p, Cancelling) && x.0 == p.move.value.epoch))
    && (forall x :: x in served && x.0 >= p.epoch ==> x.1 == p.shard)
    && (forall x, y :: x in served && y in served && x.0 == y.0 ==> x == y)
  }

  ghost predicate Invariant(setup: Setup, s: System) {
    && C.History(s.history, Now(setup, s))
    && Messages(s)
    && Shards(setup, Now(setup, s), s.nodes)
    && match Now(setup, s)
       case None => s.tenant == EMPTY_CONTENT && s.served == {} && s.exports == {} && s.replies == {}
       case Some(p) =>
         && Data(s.nodes, s.tenant, p)
         && Evidence(s.nodes, s.replies, p)
         && Traces(s.nodes, s.history, p)
         && Exports(setup, s.nodes, s.exports, p)
         && Served(s.served, p)
         && Recorded(s.nodes, s.served)
  }

  ghost predicate Recorded(nodes: map<string, Node>, served: set<(Epoch, string)>) {
    forall id: string :: NodeOf(nodes, id).owner.state.Active? ==> (NodeOf(nodes, id).owner.epoch, id) in served
  }

  // ---------- steps that move no ownership ----------

  lemma SendableGrows(s: System, s': System, m: Message)
    requires s.history <= s'.history && s.replies <= s'.replies && s.exports <= s'.exports
    requires Sendable(s, m)
    ensures Sendable(s', m)
  {
  }

  lemma MessagesGrow(s: System, s': System)
    requires s.history <= s'.history && s.replies == s'.replies && s.exports <= s'.exports && s.sent == s'.sent
    requires Messages(s)
    requires forall x :: x in s'.exports - s.exports ==> Known(s.history, x.0)
    ensures Messages(s')
  {
    forall m | m in s'.sent ensures Sendable(s', m) {
      SendableGrows(s, s', m);
    }
    forall x | x in s'.exports ensures Known(s'.history, x.0) {
      assert Known(s.history, x.0);
    }
  }

  lemma SendKeeps(setup: Setup, s: System, m: Message)
    requires Invariant(setup, s)
    ensures Invariant(setup, Step(setup, s, Send(m)))
  {
    var s' := Step(setup, s, Send(m));
    forall k | k in s'.sent ensures Sendable(s', k) {
      SendableGrows(s, s', k);
    }
  }

  lemma ExportKeeps(setup: Setup, s: System, q: Placement)
    requires Invariant(setup, s) && Faithful(setup.codec)
    ensures Invariant(setup, Step(setup, s, Export(q)))
  {
    var s' := Step(setup, s, Export(q));
    if s' != s {
      MessagesGrow(s, s');
      var p := Now(setup, s).value;
      assert C.Precedes(q, p);
      var source := NodeOf(s.nodes, q.move.value.source);
      assert Shape(setup, source);
      assert setup.codec.decode(Payload(setup, s, q)) == Some(Transfer(setup.tenant, q.move.value.id, source.content.value));
    }
  }

  /** Mutations are admitted only where the tenant is served, which is the placement's shard. */
  lemma AdmittedAtPlacement(setup: Setup, s: System, shard: string, op: TenantOp)
    requires Invariant(setup, s) && Admits(NodeOf(s.nodes, shard), op)
    ensures NodeOf(s.nodes, shard).owner.state.Active?
    ensures Now(setup, s).Some? && shard == Now(setup, s).value.shard
  {
    var n := NodeOf(s.nodes, shard);
    assert Shape(setup, n);
    if Now(setup, s).Some? {
      assert Role(Now(setup, s).value, shard, n);
    }
  }

  /** What is known about shards from replies and history depends on their records only. */
  lemma SameOwnersSameFacts(nodes: map<string, Node>, nodes': map<string, Node>, replies: set<(Message, Ownership)>, history: set<Placement>,
      served: set<(Epoch, string)>, p: Placement)
    requires forall id: string :: NodeOf(nodes', id).owner == NodeOf(nodes, id).owner
    requires Evidence(nodes, replies, p) && Traces(nodes, history, p) && Recorded(nodes, served)
    ensures Evidence(nodes', replies, p) && Traces(nodes', history, p) && Recorded(nodes', served)
  {
    forall r | r in replies ensures Proves(nodes', p, r.0, r.1) {
      assert Proves(nodes, p, r.0, r.1);
    }
  }

  lemma ServingDataKept(setup: Setup, p: Placement, nodes: map<string, Node>, exports: set<(string, Bytes)>, shard: string, content: Content)
    requires C.WellFormed(p) && shard == p.shard && NodeOf(nodes, shard).owner.state.Active?
    requires Exports(setup, nodes, exports, p) && Data(nodes, View(NodeOf(nodes, shard).content), p)
    ensures var nodes' := nodes[shard := NodeOf(nodes, shard).(content := Some(content))];
      Exports(setup, nodes', exports, p) && Data(nodes', content, p)
  {
  }

  lemma ClientKeeps(setup: Setup, s: System, shard: string, op: TenantOp)
    requires Invariant(setup, s)
    ensures Invariant(setup, Step(setup, s, Client(shard, op)))
  {
    var s' := Step(setup, s, Client(shard, op));
    if Admits(NodeOf(s.nodes, shard), op) {
      AdmittedAtPlacement(setup, s, shard, op);
      MessagesGrow(s, s');
      var p := Now(setup, s).value;
      var content := Perform(View(NodeOf(s.nodes, shard).content), op);
      ServingNodeWrites(setup, p, s.nodes, shard, content);
      ServingDataKept(setup, p, s.nodes, s.exports, shard, content);
      SameOwnersSameFacts(s.nodes, s'.nodes, s.replies, s.history, s.served, p);
    }
  }

  /** New data on the serving shard disturbs nothing the protocol knows. */
  lemma ServingNodeWrites(setup: Setup, p: Placement, nodes: map<string, Node>, shard: string, content: Content)
    requires C.WellFormed(p) && Shards(setup, Some(p), nodes)
    requires shard == p.shard && NodeOf(nodes, shard).owner.state.Active?
    ensures var nodes' := nodes[shard := NodeOf(nodes, shard).(content := Some(content))];
      && Shards(setup, Some(p), nodes')
      && (forall id: string :: NodeOf(nodes', id).owner == NodeOf(nodes, id).owner)
      && (forall id: string :: id != shard ==> NodeOf(nodes', id) == NodeOf(nodes, id))
  {
    var nodes' := nodes[shard := NodeOf(nodes, shard).(content := Some(content))];
    assert Shape(setup, NodeOf(nodes, shard)) && Role(p, shard, NodeOf(nodes, shard));
    forall id: string ensures Shape(setup, NodeOf(nodes', id)) && Role(p, id, NodeOf(nodes', id)) {
      assert Shape(setup, NodeOf(nodes, id)) && Role(p, id, NodeOf(nodes, id));
    }
  }

  // ---------- deliveries to shards ----------

  lemma DeliveryKeeps(setup: Setup, s: System, p: Placement, m: Message)
    requires Invariant(setup, s) && Now(setup, s) == Some(p) && Faithful(setup.codec)
    requires m in s.sent && Belongs(m) && !m.Propose?
    ensures var n := NodeOf(s.nodes, Destination(m));
      Kept(setup, p, Destination(m), n, ApplyOwnership(setup, n, ActionOf(setup, m)).node)
  {
    var n := NodeOf(s.nodes, Destination(m));
    assert Sendable(s, m);
    assert C.Precedes(m.p, p);
    assert Shape(setup, n) && Role(p, Destination(m), n);
    match m
    case OwnMsg(_) => OwnKeeps(setup, p, m, n);
    case FreezeMsg(_) => FreezeKeeps(setup, p, m, n);
    case ReserveMsg(_) => ReserveKeeps(setup, p, m, n);
    case StageMsg(_, _, _, _, _) => StageKeeps(setup, p, m, n);
    case InstallMsg(q, payload) =>
      assert (q.move.value.id, payload) in s.exports;
      InstallKeeps(setup, p, m, n);
    case ActivateMsg(_) => ActivateKeeps(setup, p, m, n);
    case RetireMsg(_) => RetireKeeps(setup, p, m, n);
    case ThawMsg(_) => ThawKeeps(setup, p, m, n);
    case DiscardMsg(_) => DiscardKeeps(setup, p, m, n);
  }

  /** One shard changing as `Kept` says leaves every other fact about shards in place. */
  lemma KeptShards(setup: Setup, p: Placement, nodes: map<string, Node>, shard: string, n': Node)
    requires Shards(setup, Some(p), nodes) && Kept(setup, p, shard, NodeOf(nodes, shard), n')
    ensures Shards(setup, Some(p), nodes[shard := n'])
  {
    var nodes' := nodes[shard := n'];
    forall id: string ensures Shape(setup, NodeOf(nodes', id)) && Role(p, id, NodeOf(nodes', id)) {
      assert Shape(setup, NodeOf(nodes, id)) && Role(p, id, NodeOf(nodes, id));
    }
  }

  lemma KeptTraces(setup: Setup, p: Placement, nodes: map<string, Node>, history: set<Placement>, shard: string, n': Node)
    requires Traces(nodes, history, p) && Kept(setup, p, shard, NodeOf(nodes, shard), n')
    ensures Traces(nodes[shard := n'], history, p)
  {
  }

  lemma KeptEvidence(setup: Setup, p: Placement, nodes: map<string, Node>, replies: set<(Message, Ownership)>, shard: string, n': Node)
    requires Evidence(nodes, replies, p) && Kept(setup, p, shard, NodeOf(nodes, shard), n')
    ensures Evidence(nodes[shard := n'], replies, p)
  {
    forall r | r in replies ensures Proves(nodes[shard := n'], p, r.0, r.1) {
      assert Proves(nodes, p, r.0, r.1);
    }
  }

  lemma KeptExports(setup: Setup, p: Placement, nodes: map<string, Node>, exports: set<(string, Bytes)>, shard: string, n': Node)
    requires Exports(setup, nodes, exports, p) && Kept(setup, p, shard, NodeOf(nodes, shard), n')
    ensures Exports(setup, nodes[shard := n'], exports, p)
  {
  }

  /** Only an install for the current move makes its target installed. */
  lemma OnlyInstallInstalls(setup: Setup, p: Placement, m: Message, n: Node)
    requires Belongs(m) && !m.Propose? && C.WellFormed(p) && C.Precedes(m.p, p)
    requires Role(p, Destination(m), n) && InPhase(p, Copying) && Destination(m) == p.move.value.target
    requires !HasInstalled(p.move.value, n)
    requires HasInstalled(p.move.value, ApplyOwnership(setup, n, ActionOf(setup, m)).node)
    ensures m.InstallMsg? && SameId(m.p, p)
  {
  }

  /** An install that changes the target of the current move gives it the frozen source's data. */
  lemma InstallCopiesSource(setup: Setup, s: System, p: Placement, m: Message)
    requires Invariant(setup, s) && Now(setup, s) == Some(p) && Faithful(setup.codec)
    requires m in s.sent && m.InstallMsg? && Belongs(m) && InPhase(p, Copying) && SameId(m.p, p)
    ensures NodeOf(s.nodes, p.move.value.source).owner.state.Frozen?
    ensures var n := NodeOf(s.nodes, Destination(m));
      var n' := ApplyOwnership(setup, n, ActionOf(setup, m)).node;
      n' != n ==> n'.content == NodeOf(s.nodes, p.move.value.source).content
  {
    assert Sendable(s, m) && C.Precedes(m.p, p);
    var x := (m.p.move.value.id, m.payload);
    assert x in s.exports;
    var n := NodeOf(s.nodes, Destination(m));
    assert Role(p, Destination(m), n) && Shape(setup, n);
    InstallKeeps(setup, p, m, n);
  }

  lemma KeptData(setup: Setup, s: System, p: Placement, m: Message)
    requires Invariant(setup, s) && Now(setup, s) == Some(p) && Faithful(setup.codec)
    requires m in s.sent && Belongs(m) && !m.Propose?
    ensures Data(Serve(setup, s, m).nodes, s.tenant, p)
  {
    var shard := Destination(m);
    var n := NodeOf(s.nodes, shard);
    var n' := ApplyOwnership(setup, n, ActionOf(setup, m)).node;
    DeliveryKeeps(setup, s, p, m);
    assert C.WellFormed(p) && Role(p, shard, n);
    var nodes' := s.nodes[shard := n'];
    assert Serve(setup, s, m).nodes == nodes';
    if InPhase(p, Copying) && HasInstalled(p.move.value, NodeOf(nodes', p.move.value.target)) {
      if shard == p.move.value.target && !HasInstalled(p.move.value, n) {
        assert Sendable(s, m) && C.Precedes(m.p, p);
        OnlyInstallInstalls(setup, p, m, n);
        InstallCopiesSource(setup, s, p, m);
      }
    }
  }

  /** An acknowledged action left its shard in the state the acknowledgement claims. */
  lemma AcknowledgementHolds(setup: Setup, p: Placement, m: Message, n: Node)
    requires Belongs(m) && !m.Propose? && C.WellFormed(p) && C.Precedes(m.p, p) && Role(p, Destination(m), n) && Shape(setup, n)
    ensures var r := ApplyOwnership(setup, n, ActionOf(setup, m));
      r.reply.Done? ==>
        && r.reply.owner == r.node.owner
        && (m.OwnMsg? ==> r.node.owner.epoch >= 1)
        && (p.move.Some? && SameId(p, m.p) ==>
            && (m.InstallMsg? && InPhase(p, Copying) && Role(p, Destination(m), r.node) ==> HasInstalled(p.move.value, r.node))
            && (m.ReserveMsg? && InPhase(p, Copying) && r.node.owner.state.Installed? ==> HasInstalled(p.move.value, r.node))
            && (m.ActivateMsg? ==> r.node.owner.state.Active?)
            && (m.RetireMsg? ==> r.node.owner.state.Retired?)
            && (m.ThawMsg? ==> HasThawed(p.move.value, r.node)))
  {
  }

  lemma NewReplyProves(setup: Setup, s: System, p: Placement, m: Message)
    requires Invariant(setup, s) && Now(setup, s) == Some(p)
    requires m in s.sent && Belongs(m) && !m.Propose?
    requires var n := NodeOf(s.nodes, Destination(m));
      Kept(setup, p, Destination(m), n, ApplyOwnership(setup, n, ActionOf(setup, m)).node)
    ensures var r := ApplyOwnership(setup, NodeOf(s.nodes, Destination(m)), ActionOf(setup, m));
      r.reply.Done? ==> Proves(s.nodes[Destination(m) := r.node], p, m, r.reply.owner)
  {
    var n := NodeOf(s.nodes, Destination(m));
    assert Sendable(s, m) && C.Precedes(m.p, p);
    assert Role(p, Destination(m), n) && Shape(setup, n);
    AcknowledgementHolds(setup, p, m, n);
    var r := ApplyOwnership(setup, n, ActionOf(setup, m));
    var nodes' := s.nodes[Destination(m) := r.node];
    assert NodeOf(nodes', Destination(m)) == r.node;
  }

  lemma NewServed(setup: Setup, s: System, p: Placement, shard: string, n': Node)
    requires Served(s.served, p) && C.WellFormed(p) && Role(p, shard, n') && n'.owner.state.Active?
    ensures Served(s.served + {(n'.owner.epoch, shard)}, p)
  {
  }

  lemma KeptRecorded(nodes: map<string, Node>, served: set<(Epoch, string)>, shard: string, n': Node)
    requires Recorded(nodes, served)
    ensures Recorded(nodes[shard := n'], if n'.owner.state.Active? then served + {(n'.owner.epoch, shard)} else served)
  {
    var nodes' := nodes[shard := n'];
    forall id: string | NodeOf(nodes', id).owner.state.Active?
      ensures (NodeOf(nodes', id).owner.epoch, id) in if n'.owner.state.Active? then served + {(n'.owner.epoch, shard)} else served
    {
      assert id != shard ==> NodeOf(nodes', id) == NodeOf(nodes, id);
    }
  }

  lemma ServeMessages(setup: Setup, s: System, m: Message)
    requires Messages(s) && m in s.sent && Belongs(m) && !m.Propose?
    ensures Messages(Serve(setup, s, m))
  {
    var s' := Serve(setup, s, m);
    forall k | k in s'.sent ensures Sendable(s', k) {
      SendableGrows(s, s', k);
    }
  }

  lemma ServeKeepsEvidence(setup: Setup, s: System, p: Placement, m: Message)
    requires Invariant(setup, s) && Now(setup, s) == Some(p) && Faithful(setup.codec)
    requires m in s.sent && Belongs(m) && !m.Propose?
    ensures Evidence(Serve(setup, s, m).nodes, Serve(setup, s, m).replies, p)
    ensures Served(Serve(setup, s, m).served, p)
  {
    var shard := Destination(m);
    var r := ApplyOwnership(setup, NodeOf(s.nodes, shard), ActionOf(setup, m));
    DeliveryKeeps(setup, s, p, m);
    KeptEvidence(setup, p, s.nodes, s.replies, shard, r.node);
    NewReplyProves(setup, s, p, m);
    if r.node.owner.state.Active? {
      NewServed(setup, s, p, shard, r.node);
    }
  }

  lemma ServeKeeps(setup: Setup, s: System, m: Message)
    requires Invariant(setup, s) && Faithful(setup.codec)
    requires m in s.sent && Belongs(m) && !m.Propose?
    ensures Invariant(setup, Serve(setup, s, m))
  {
    assert Sendable(s, m);
    var p := Now(setup, s).value;
    var shard := Destination(m);
    var n' := ApplyOwnership(setup, NodeOf(s.nodes, shard), ActionOf(setup, m)).node;
    DeliveryKeeps(setup, s, p, m);
    KeptShards(setup, p, s.nodes, shard, n');
    KeptTraces(setup, p, s.nodes, s.history, shard, n');
    KeptExports(setup, p, s.nodes, s.exports, shard, n');
    KeptRecorded(s.nodes, s.served, shard, n');
    KeptData(setup, s, p, m);
    ServeKeepsEvidence(setup, s, p, m);
    ServeMessages(setup, s, m);
  }

  // ---------- catalog decisions ----------

  /** When a coordinator may propose a step, the shards are ready for it. */
  ghost predicate Justified(s: System, p: Placement, a: C.TenantAction) {
    match a
    case Assigned(_) => p.state.Assigning? ==> NodeOf(s.nodes, p.shard).owner.epoch >= 1
    case CutoverMove(id) => C.MatchesMove(p, id, Copying) ==> HasInstalled(p.move.value, NodeOf(s.nodes, p.move.value.target))
    case ActivatedMove(id) => C.MatchesMove(p, id, Activating) ==> NodeOf(s.nodes, p.move.value.target).owner.state.Active?
    case CleanedMove(id) => C.MatchesMove(p, id, Cleaning) ==> NodeOf(s.nodes, p.move.value.source).owner.state.Retired?
    case ThawedMove(id) => C.MatchesMove(p, id, Cancelling) ==> HasThawed(p.move.value, NodeOf(s.nodes, p.move.value.source))
    case _ => true
  }

  lemma ProposalJustified(setup: Setup, s: System, p: Placement, m: Message)
    requires Invariant(setup, s) && Now(setup, s) == Some(p)
    requires m in s.sent && m.Propose?
    ensures Justified(s, p, m.step)
  {
    hide Shards, Data, Traces, Exports, Served, Recorded, HasInstalled, HasThawed;
    assert Sendable(s, m) && C.Precedes(m.p, p);
    match m.step {
      case Assigned(_) =>
        var o :| (OwnMsg(m.p), o) in s.replies;
        assert Proves(s.nodes, p, OwnMsg(m.p), o);
      case CutoverMove(_) =>
        if o :| (ReserveMsg(m.p), o) in s.replies && o.state.Installed? {
          assert Proves(s.nodes, p, ReserveMsg(m.p), o);
        } else {
          var payload :| Answered(s, InstallMsg(m.p, payload));
          var o :| (InstallMsg(m.p, payload), o) in s.replies;
          assert Proves(s.nodes, p, InstallMsg(m.p, payload), o);
        }
      case ActivatedMove(_) =>
        var o :| (ActivateMsg(m.p), o) in s.replies;
        assert Proves(s.nodes, p, ActivateMsg(m.p), o);
      case CleanedMove(_) =>
        var o :| (RetireMsg(m.p), o) in s.replies;
        assert Proves(s.nodes, p, RetireMsg(m.p), o);
      case ThawedMove(_) =>
        var o :| (ThawMsg(m.p), o) in s.replies;
        assert Proves(s.nodes, p, ThawMsg(m.p), o);
      case _ =>
    }
  }

  /** The parts shards play before a decision fit the placement after it. */
  lemma RoleFollows(setup: Setup, s: System, pick: string, p: Placement, a: C.TenantAction, id: string)
    requires Shards(setup, Some(p), s.nodes) && C.WellFormed(p) && Justified(s, p, a) && Data(s.nodes, s.tenant, p)
    ensures var r := C.StepPlacement(s.catalog.shards, pick, Some(p), a); r.Changed? ==> Role(r.value, id, NodeOf(s.nodes, id))
  {
    assert Role(p, id, NodeOf(s.nodes, id));
    if p.move.Some? {
      assert Role(p, p.move.value.source, NodeOf(s.nodes, p.move.value.source));
      assert Role(p, p.move.value.target, NodeOf(s.nodes, p.move.value.target));
    } else {
      assert Role(p, p.shard, NodeOf(s.nodes, p.shard));
    }
  }

  lemma DataFollows(setup: Setup, s: System, pick: string, p: Placement, a: C.TenantAction)
    requires Shards(setup, Some(p), s.nodes) && C.WellFormed(p) && Justified(s, p, a) && Data(s.nodes, s.tenant, p)
    ensures var r := C.StepPlacement(s.catalog.shards, pick, Some(p), a); r.Changed? ==> Data(s.nodes, s.tenant, r.value)
  {
    if a.StartMove? {
      assert Role(p, a.target, NodeOf(s.nodes, a.target));
    }
  }

  lemma ServedFollows(setup: Setup, s: System, pick: string, p: Placement, a: C.TenantAction)
    requires C.WellFormed(p) && Served(s.served, p)
    ensures var r := C.StepPlacement(s.catalog.shards, pick, Some(p), a); r.Changed? ==> Served(s.served, r.value)
  {
  }

  /** No reply to a later phase of the current move can exist yet. */
  lemma ReplyFollows(setup: Setup, s: System, pick: string, p: Placement, a: C.TenantAction, m: Message, o: Ownership)
    requires C.WellFormed(p) && C.Precedes(m.p, p) && Belongs(m) && Proves(s.nodes, p, m, o)
    requires a.StartMove? && m.p.move.Some? ==> m.p.move.value.id != a.id
    ensures var r := C.StepPlacement(s.catalog.shards, pick, Some(p), a); r.Changed? ==> Proves(s.nodes, r.value, m, o)
  {
  }

  lemma TraceFollows(setup: Setup, s: System, pick: string, p: Placement, a: C.TenantAction)
    requires C.WellFormed(p) && p in s.history && (forall h :: h in s.history ==> C.Precedes(h, p))
    requires Justified(s, p, a) && Traces(s.nodes, s.history, p) && Shards(setup, Some(p), s.nodes)
    ensures var r := C.StepPlacement(s.catalog.shards, pick, Some(p), a); r.Changed? ==> Traces(s.nodes, s.history + {r.value}, r.value)
  {
    var r := C.StepPlacement(s.catalog.shards, pick, Some(p), a);
    if r.Changed? {
      var q := r.value;
      if p.move.Some? {
        assert Role(p, p.move.value.target, NodeOf(s.nodes, p.move.value.target));
      }
      forall h | h in s.history + {q} && h.move.Some? && C.Forward(h.move.value.phase)
        ensures Settled(q, h.move.value, NodeOf(s.nodes, h.move.value.target))
      {
        if h in s.history {
          assert C.Precedes(h, p) && Settled(p, h.move.value, NodeOf(s.nodes, h.move.value.target));
        }
      }
    }
  }

  lemma EvidenceFollows(setup: Setup, s: System, pick: string, p: Placement, a: C.TenantAction)
    requires Messages(s) && C.History(s.history, Some(p)) && C.FreshMove(s.history, a) && Evidence(s.nodes, s.replies, p)
    ensures var r := C.StepPlacement(s.catalog.shards, pick, Some(p), a); r.Changed? ==> Evidence(s.nodes, s.replies, r.value)
  {
    var r := C.StepPlacement(s.catalog.shards, pick, Some(p), a);
    if r.Changed? {
      forall m | m in s.replies ensures Proves(s.nodes, r.value, m.0, m.1) {
        assert Sendable(s, m.0);
        ReplyFollows(setup, s, pick, p, a, m.0, m.1);
      }
    }
  }

  lemma ExportsFollow(setup: Setup, s: System, pick: string, p: Placement, a: C.TenantAction)
    requires Messages(s) && C.WellFormed(p) && C.FreshMove(s.history, a) && Exports(setup, s.nodes, s.exports, p)
    ensures var r := C.StepPlacement(s.catalog.shards, pick, Some(p), a); r.Changed? ==> Exports(setup, s.nodes, s.exports, r.value)
  {
  }

  /** Any accepted decision about the tenant keeps the invariant. */
  lemma DecisionKeeps(setup: Setup, s: System, pick: string, a: C.TenantAction)
    requires Invariant(setup, s) && C.FreshMove(s.history, a)
    requires Now(setup, s).Some? ==> Justified(s, Now(setup, s).value, a)
    ensures Invariant(setup, Decide(setup, s, pick, C.OnTenant(setup.tenant, a)))
  {
    var now := Now(setup, s);
    var s' := Decide(setup, s, pick, C.OnTenant(setup.tenant, a));
    var r := C.StepPlacement(s.catalog.shards, pick, now, a);
    C.StepKeepsHistory(s.catalog.shards, pick, s.history, now, a);
    assert Now(setup, s') == C.After(now, r);
    assert s'.history == C.Remember(s.history, r);
    MessagesGrow(s, s');
    if r.Changed? && now.Some? {
      var p := now.value;
      forall id: string ensures Role(r.value, id, NodeOf(s.nodes, id)) && Shape(setup, NodeOf(s.nodes, id)) {
        RoleFollows(setup, s, pick, p, a, id);
      }
      DataFollows(setup, s, pick, p, a);
      ServedFollows(setup, s, pick, p, a);
      TraceFollows(setup, s, pick, p, a);
      EvidenceFollows(setup, s, pick, p, a);
      ExportsFollow(setup, s, pick, p, a);
    }
  }

  /** Shards and other tenants can change without touching this tenant's placement. */
  lemma OtherDecisionKeeps(setup: Setup, s: System, pick: string, a: C.Action)
    requires Invariant(setup, s) && !(a.OnTenant? && a.tenant == setup.tenant)
    ensures Invariant(setup, Decide(setup, s, pick, a))
  {
    var s' := Decide(setup, s, pick, a);
    assert Now(setup, s') == Now(setup, s);
    assert s'.history == s.history;
    MessagesGrow(s, s');
  }

  // ---------- every run ----------

  lemma StepKeeps(setup: Setup, s: System, e: Event)
    requires Invariant(setup, s) && Faithful(setup.codec)
    ensures Invariant(setup, Step(setup, s, e))
  {
    match e
    case Request(pick, a) =>
      if Requestable(setup, s, a) {
        if a.OnTenant? && a.tenant == setup.tenant {
          DecisionKeeps(setup, s, pick, a.action);
        } else {
          OtherDecisionKeeps(setup, s, pick, a);
        }
      }
    case Send(m) => SendKeeps(setup, s, m);
    case Deliver(m) =>
      if m in s.sent && Belongs(m) {
        if m.Propose? {
          assert Sendable(s, m);
          ProposalJustified(setup, s, Now(setup, s).value, m);
          DecisionKeeps(setup, s, "", m.step);
        } else {
          ServeKeeps(setup, s, m);
        }
      }
    case Export(q) => ExportKeeps(setup, s, q);
    case Client(shard, op) => ClientKeeps(setup, s, shard, op);
  }

  lemma {:induction false} EveryRunKeeps(setup: Setup, events: seq<Event>)
    requires Faithful(setup.codec)
    ensures Invariant(setup, Run(setup, events))
    decreases |events|
  {
    if events != [] {
      EveryRunKeeps(setup, events[..|events| - 1]);
      StepKeeps(setup, Run(setup, events[..|events| - 1]), events[|events| - 1]);
    }
  }

  /** Single owner: whatever is delayed, repeated, lost, cancelled or stale, at most one shard is
      active for the tenant, and no epoch was ever active on two shards. */
  lemma SingleOwner(setup: Setup, events: seq<Event>, a: string, b: string)
    requires Faithful(setup.codec)
    ensures var s := Run(setup, events);
      && (NodeOf(s.nodes, a).owner.state.Active? && NodeOf(s.nodes, b).owner.state.Active? ==> a == b)
      && (NodeOf(s.nodes, a).owner.state.Active? ==> (NodeOf(s.nodes, a).owner.epoch, a) in s.served)
      && (forall e: Epoch :: (e, a) in s.served && (e, b) in s.served ==> a == b)
  {
    EveryRunKeeps(setup, events);
    var s := Run(setup, events);
    assert Shape(setup, NodeOf(s.nodes, a)) && Shape(setup, NodeOf(s.nodes, b));
    if Now(setup, s).Some? {
      var p := Now(setup, s).value;
      assert Role(p, a, NodeOf(s.nodes, a)) && Role(p, b, NodeOf(s.nodes, b));
      forall e: Epoch | (e, a) in s.served && (e, b) in s.served ensures a == b {
        assert (e, a) == (e, b);
      }
    }
  }

  /** The operations a run acknowledged, in order. */
  ghost function Acknowledged(setup: Setup, events: seq<Event>): seq<TenantOp>
    decreases |events|
  {
    if events == [] then []
    else
      var before, last := events[..|events| - 1], events[|events| - 1];
      if last.Client? && Admits(NodeOf(Run(setup, before).nodes, last.shard), last.op)
      then Acknowledged(setup, before) + [last.op]
      else Acknowledged(setup, before)
  }

  /** An unsharded tenant performing them. */
  function Replay(ops: seq<TenantOp>): Content
    decreases |ops|
  {
    if ops == [] then EMPTY_CONTENT else Perform(Replay(ops[..|ops| - 1]), ops[|ops| - 1])
  }

  lemma TenantStep(setup: Setup, s: System, e: Event)
    ensures Step(setup, s, e).tenant
         == if e.Client? && Admits(NodeOf(s.nodes, e.shard), e.op) then Perform(s.tenant, e.op) else s.tenant
  {
  }

  lemma ReplayExtends(ops: seq<TenantOp>, op: TenantOp)
    ensures Replay(ops + [op]) == Perform(Replay(ops), op)
  {
    assert (ops + [op])[..|ops|] == ops;
  }

  lemma {:induction false} TenantReplays(setup: Setup, events: seq<Event>)
    ensures Run(setup, events).tenant == Replay(Acknowledged(setup, events))
    decreases |events|
  {
    if events != [] {
      var before, last := events[..|events| - 1], events[|events| - 1];
      TenantReplays(setup, before);
      TenantStep(setup, Run(setup, before), last);
      if last.Client? {
        ReplayExtends(Acknowledged(setup, before), last.op);
      }
    }
  }

  /** A sharded tenant refines one unsharded tenant: the shard the catalog names always holds every
      acknowledged operation, in order and nothing else, and so does any shard that serves reads. */
  lemma NothingAcknowledgedIsLost(setup: Setup, events: seq<Event>, shard: string)
    requires Faithful(setup.codec)
    ensures var s := Run(setup, events);
      var truth := Replay(Acknowledged(setup, events));
      && (Now(setup, s).None? ==> truth == EMPTY_CONTENT)
      && (Now(setup, s).Some? ==> View(NodeOf(s.nodes, Now(setup, s).value.shard).content) == truth)
      && (NodeOf(s.nodes, shard).owner.state.Active? ==> View(NodeOf(s.nodes, shard).content) == truth)
  {
    EveryRunKeeps(setup, events);
    TenantReplays(setup, events);
    var s := Run(setup, events);
    assert Shape(setup, NodeOf(s.nodes, shard));
    if Now(setup, s).Some? {
      assert Role(Now(setup, s).value, shard, NodeOf(s.nodes, shard));
    }
  }

  /** Between freeze and activation no shard applies any mutation, ungated tasks included. */
  lemma NothingAppliedUnserved(setup: Setup, events: seq<Event>, shard: string, op: TenantOp)
    requires Faithful(setup.codec)
    requires forall id: string :: !NodeOf(Run(setup, events).nodes, id).owner.state.Active?
    ensures Step(setup, Run(setup, events), Client(shard, op)) == Run(setup, events)
  {
    EveryRunKeeps(setup, events);
    var s := Run(setup, events);
    if Admits(NodeOf(s.nodes, shard), op) {
      AdmittedAtPlacement(setup, s, shard, op);
    }
  }

  /** A cutover is decided only when the target already holds the frozen source's data. */
  lemma CutoverHasTheData(setup: Setup, events: seq<Event>, m: Message)
    requires Faithful(setup.codec)
    requires m in Run(setup, events).sent && m.Propose? && m.step.CutoverMove?
    ensures var s := Run(setup, events);
      var now := Now(setup, s);
      now.Some? && C.MatchesMove(now.value, m.step.id, Copying) ==>
        var source, target := NodeOf(s.nodes, now.value.move.value.source), NodeOf(s.nodes, now.value.move.value.target);
        && source.owner.state.Frozen? && target.owner.state.Installed?
        && target.content == source.content && target.content.Some?
  {
    EveryRunKeeps(setup, events);
    var s := Run(setup, events);
    if Now(setup, s).Some? {
      var p := Now(setup, s).value;
      ProposalJustified(setup, s, p, m);
      if C.MatchesMove(p, m.step.id, Copying) {
        assert Shape(setup, NodeOf(s.nodes, p.move.value.target));
      }
    }
  }

  // ---------- what cancellation does not promise ----------

  /** After a discard is acknowledged, a late reserve of the same move is refused unless the target
      had been retired by an earlier move: only then does discarding leave no tombstone. LateReserves
      gives a run that reaches such a target. */
  lemma DiscardSealsExactly(setup: Setup, n: Node, epoch: Epoch, move: string)
    requires Shape(setup, n) && epoch > 0 && ValidIdentifier(move)
    requires ApplyOwnership(setup, n, Plain(Discard, epoch, move)).reply.Done?
    ensures var sealed := ApplyOwnership(setup, n, Plain(Discard, epoch, move)).node;
      var late := ApplyOwnership(setup, sealed, Plain(Reserve, epoch, move)).node;
      (late.owner.state.Importing? && late.owner.moveId == move && late.owner.epoch == epoch)
      <==> (n.owner.state.Retired? && n.owner.epoch < epoch)
  {
  }
}
