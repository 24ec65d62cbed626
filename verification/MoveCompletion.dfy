/** A move can be brought to its end: from any point at which a shard serves a drained tenant, through export, staging,
    install, cutover, activation and retirement (internal/ha/shard_migration.go:76-130, shard_copy.go, shard_ownership.go). */
module MoveCompletions {
  import opened Sharding
  import opened ShardOwnership
  import opened Transfers
  import opened MigrationRuns
  import opened M = Migration
  import MigrationSafety
  import C = Catalogs

  /** The target imports the payload for the move and holds its first parts. */
  ghost predicate Receiving(setup: Setup, b: Node, epoch: Epoch, id: string, payload: Bytes) {
    && b.owner.state.Importing? && b.owner.epoch == epoch && b.owner.moveId == id
    && Staged(setup.codec, b) && Carries(b, payload)
    && b.owner.digest in {"", setup.codec.digest(payload)}
  }

  /** The message with the next part. */
  function NextPart(setup: Setup, p: Placement, b: Node, payload: Bytes): Message
    requires b.owner.nextPart * CHUNK_BYTES < |payload|
  {
    StageMsg(p, b.owner.nextPart, |payload|, setup.codec.digest(payload), Slice(payload, b.owner.nextPart))
  }

  /** The rest of the parts are staged. */
  lemma {:induction false} PartsArrive(setup: Setup, events: seq<Event>, shards: map<string, C.Shard>, x: Scene, id: string, epoch: Epoch, payload: Bytes)
      returns (longer: seq<Event>, b: Node)
    requires At(setup, events, shards, x) && epoch > 0 && x.p.epoch + 1 == epoch && x.p == During(x, x.p.epoch, Moving, id, epoch, Copying)
    requires ValidIdentifier(id) && x.from != x.to && 0 < |payload| <= setup.limit
    requires Receiving(setup, x.b, epoch, id, payload) && M.Answered(M.Run(setup, events), ReserveMsg(x.p))
    ensures At(setup, longer, shards, x.(b := b)) && Extends(setup, events, longer)
    ensures Receiving(setup, b, epoch, id, payload) && b.owner.nextPart == PartCount(|payload|)
    decreases PartCount(|payload|) - x.b.owner.nextPart
  {
    hide M.Run, M.Answered, At, Extends, ValidIdentifier, Staged, ApplyOwnership;
    if x.b.owner.nextPart == PartCount(|payload|) {
      longer, b := events, x.b;
      ExtendsItself(setup, events);
    } else {
      var m := NextPart(setup, x.p, x.b, payload);
      StageCarries(setup, x.b, ActionOf(setup, m), payload);
      ActionKeepsStaged(setup, x.b, ActionOf(setup, m));
      Sees(setup, events, shards, x);
      longer := Call(setup, events, shards, x, m);
      ExtendsKeeps(setup, events, longer, ReserveMsg(x.p));
      var mid := longer;
      longer, b := PartsArrive(setup, mid, shards, After(setup, x, m), id, epoch, payload);
      ExtendsFurther(setup, events, mid, longer);
    }
  }

  lemma ExtendsItself(setup: Setup, events: seq<Event>)
    ensures Extends(setup, events, events)
  {
  }

  /** The target of a reserve, when it holds nothing of the tenant. */
  lemma ReserveBegins(setup: Setup, b: Node, epoch: Epoch, id: string, payload: Bytes)
    requires Staged(setup.codec, b) && epoch > b.owner.epoch && ValidIdentifier(id) && b.content.None?
    requires b.owner.state.Unowned? || b.owner.state.Retired?
    requires b.owner.epoch == 0 <==> b.owner.state.Unowned?
    ensures var r := ApplyOwnership(setup, b, Plain(Reserve, epoch, id));
      r.reply.Done? && Receiving(setup, r.node, epoch, id, payload) && r.node.owner.nextPart == 0
  {
    ActionKeepsStaged(setup, b, Plain(Reserve, epoch, id));
  }

  /** All parts are there: the install succeeds. */
  lemma InstallEnds(setup: Setup, b: Node, epoch: Epoch, id: string, content: Content)
    requires Faithful(setup.codec) && epoch > 0 && ValidIdentifier(id) && content.accepted == []
    requires var payload := setup.codec.encode(Transfer(setup.tenant, id, content));
      0 < |payload| <= setup.limit && Receiving(setup, b, epoch, id, payload) && b.owner.nextPart == PartCount(|payload|)
    ensures var payload := setup.codec.encode(Transfer(setup.tenant, id, content));
      var a := OwnerAction(OwnerOp.Install, epoch, id, 0, PartCount(|payload|), |payload|, setup.codec.digest(payload), []);
      var r := ApplyOwnership(setup, b, a);
      && r.reply.Done? && r.node.owner.state.Installed? && r.node.owner.epoch == epoch && r.node.owner.moveId == id
      && r.node.content == Some(content)
  {
    var payload := setup.codec.encode(Transfer(setup.tenant, id, content));
    var a := OwnerAction(OwnerOp.Install, epoch, id, 0, PartCount(|payload|), |payload|, setup.codec.digest(payload), []);
    InstallIsExact(setup, b, a);
    StagedIs(setup, b, payload);
    hide Staged, Carries;
  }

  lemma StagedIs(setup: Setup, b: Node, payload: Bytes)
    requires Staged(setup.codec, b) && b.owner.state.Importing? && Carries(b, payload) && b.owner.nextPart == PartCount(|payload|) > 0
    ensures StagedBytes(setup.codec, b) == payload
  {
    SlicesTile(b, payload, 0);
    assert payload[0..] == payload;
  }

  /** The copy phase: reserve, export, stage and install. */
  lemma Copied(setup: Setup, events: seq<Event>, shards: map<string, C.Shard>, x: Scene, id: string, epoch: Epoch, content: Content)
      returns (longer: seq<Event>, y: Scene)
    requires Faithful(setup.codec) && ValidIdentifier(id) && x.from != x.to
    requires At(setup, events, shards, x) && x.p.epoch + 1 == epoch && x.p == During(x, x.p.epoch, Moving, id, epoch, Copying)
    requires x.a.owner.state.Frozen? && x.a.owner.epoch == x.p.epoch && x.a.owner.moveId == id && x.a.content == Some(content) && content.accepted == []
    requires 0 < |setup.codec.encode(Transfer(setup.tenant, id, content))| <= setup.limit
    requires Staged(setup.codec, x.b) && epoch > x.b.owner.epoch && x.b.content.None? && (x.b.owner.state.Unowned? || x.b.owner.state.Retired?)
    requires x.b.owner.epoch == 0 <==> x.b.owner.state.Unowned?
    requires M.Answered(M.Run(setup, events), FreezeMsg(x.p))
    ensures y == x.(b := y.b) && y.b.owner.state.Installed? && y.b.owner.epoch == epoch && y.b.owner.moveId == id && y.b.content == Some(content)
    ensures At(setup, longer, shards, y) && Extends(setup, events, longer)
    ensures M.SawInstalled(M.Run(setup, longer), y.p)
  {
    hide M.Run, M.Answered, At, Extends, ValidIdentifier, Staged, Carries, ApplyOwnership;
    var payload := setup.codec.encode(Transfer(setup.tenant, id, content));
    ReserveBegins(setup, x.b, epoch, id, payload);
    Sees(setup, events, shards, x);
    var reserved := Call(setup, events, shards, x, ReserveMsg(x.p));
    var z := After(setup, x, ReserveMsg(x.p));
    var staged, b := PartsArrive(setup, reserved, shards, z, id, epoch, payload);
    ExtendsKeeps(setup, reserved, staged, ReserveMsg(x.p));
    var w := z.(b := b);
    CanExport(setup, staged, shards, w, id, epoch, content);
    var exported := Take(setup, staged, shards, w);
    ExtendsKeeps(setup, staged, exported, ReserveMsg(x.p));
    Sees(setup, exported, shards, w);
    InstallEnds(setup, b, epoch, id, content);
    longer := Call(setup, exported, shards, w, InstallMsg(x.p, payload));
    y := After(setup, w, InstallMsg(x.p, payload));
    ExtendsFurther(setup, events, reserved, staged);
    ExtendsFurther(setup, events, staged, exported);
    ExtendsFurther(setup, events, exported, longer);
  }

  lemma CanExport(setup: Setup, events: seq<Event>, shards: map<string, C.Shard>, x: Scene, id: string, epoch: Epoch, content: Content)
    requires At(setup, events, shards, x) && x.p.epoch + 1 == epoch && x.p == During(x, x.p.epoch, Moving, id, epoch, Copying)
    requires x.a.owner.state.Frozen? && x.a.owner.epoch == x.p.epoch && x.a.owner.moveId == id && x.a.content == Some(content)
    ensures Exportable(M.Run(setup, events), x.p)
    ensures Payload(setup, M.Run(setup, events), x.p) == setup.codec.encode(Transfer(setup.tenant, id, content))
  {
  }

  /** Cutover and activation. */
  lemma Activated(setup: Setup, events: seq<Event>, shards: map<string, C.Shard>, x: Scene, id: string, epoch: Epoch)
      returns (longer: seq<Event>, y: Scene)
    requires At(setup, events, shards, x) && x.p.epoch + 1 == epoch && x.p == During(x, x.p.epoch, Moving, id, epoch, Copying)
    requires id in x.ids && ValidIdentifier(id) && x.from != x.to && M.SawInstalled(M.Run(setup, events), x.p)
    requires x.b.owner.state.Installed? && x.b.owner.epoch == epoch && x.b.owner.moveId == id
    ensures y == x.(p := During(x, epoch, Live, id, epoch, Cleaning), b := x.b.(owner := x.b.owner.(state := Active)))
    ensures At(setup, longer, shards, y) && Extends(setup, events, longer)
  {
    hide M.Run, M.Answered, M.SawInstalled, At, Extends, ValidIdentifier;
    Sees(setup, events, shards, x);
    var cut := During(x, epoch, CutOver, id, epoch, Activating);
    var decided := Report(setup, events, shards, x, C.CutoverMove(id), cut);
    var z := x.(p := cut);
    Sees(setup, decided, shards, z);
    var active := Call(setup, decided, shards, z, ActivateMsg(cut));
    var w := After(setup, z, ActivateMsg(cut));
    Sees(setup, active, shards, w);
    y := w.(p := During(x, epoch, Live, id, epoch, Cleaning));
    longer := Report(setup, active, shards, w, C.ActivatedMove(id), y.p);
    ExtendsFurther(setup, events, decided, active);
    ExtendsFurther(setup, events, active, longer);
  }

  /** Retirement of the source. */
  lemma Cleaned(setup: Setup, events: seq<Event>, shards: map<string, C.Shard>, x: Scene, id: string, epoch: Epoch)
      returns (longer: seq<Event>, y: Scene)
    requires At(setup, events, shards, x) && epoch > 1 && x.p == During(x, epoch, Live, id, epoch, Cleaning)
    requires ValidIdentifier(id) && x.from != x.to
    requires x.a.owner.state.Frozen? && x.a.owner.epoch + 1 == epoch && x.a.owner.moveId == id
    ensures y == x.(p := Resting(x.to, epoch), a := Node(x.a.owner.(state := Retired), map[], None))
    ensures At(setup, longer, shards, y) && Extends(setup, events, longer)
  {
    hide M.Run, M.Answered, At, Extends, ValidIdentifier;
    Sees(setup, events, shards, x);
    var retired := Call(setup, events, shards, x, RetireMsg(x.p));
    var z := After(setup, x, RetireMsg(x.p));
    Sees(setup, retired, shards, z);
    y := z.(p := Resting(x.to, epoch));
    longer := Report(setup, retired, shards, z, C.CleanedMove(id), y.p);
    ExtendsFurther(setup, events, retired, longer);
  }

  /** All of it, from a settled scene. */
  lemma SceneMoves(setup: Setup, events: seq<Event>, shards: map<string, C.Shard>, x: Scene, id: string, content: Content)
      returns (longer: seq<Event>, y: Scene)
    requires Faithful(setup.codec) && At(setup, events, shards, x) && Settled(shards, x) && ValidIdentifier(id) && id !in x.ids
    requires x.a.content == Some(content)
    requires 0 < |setup.codec.encode(Transfer(setup.tenant, id, content))| <= setup.limit
    requires Staged(setup.codec, x.b) && x.p.epoch >= x.b.owner.epoch && x.b.content.None? && (x.b.owner.state.Unowned? || x.b.owner.state.Retired?)
    requires x.b.owner.epoch == 0 <==> x.b.owner.state.Unowned?
    ensures At(setup, longer, shards, y) && events <= longer
    ensures y.p == Resting(x.to, x.p.epoch + 1) && y.from == x.from && y.to == x.to && y.rest == x.rest && y.tenant == x.tenant
    ensures y.b.owner.state.Active? && y.b.owner.epoch == x.p.epoch + 1 && y.b.content == Some(content)
    ensures y.a.owner.state.Retired? && y.a.content.None? && y.a.chunks == map[]
  {
    hide M.Run, M.Answered, M.SawInstalled, At, Extends, ValidIdentifier, Staged;
    var epoch: Epoch := x.p.epoch + 1;
    var started, z := Started(setup, events, shards, x, id);
    var copied, w := Copied(setup, started, shards, z, id, epoch, content);
    var active, v := Activated(setup, copied, shards, w, id, epoch);
    longer, y := Cleaned(setup, active, shards, v, id, epoch);
    ExtendsFurther(setup, events, started, copied);
    ExtendsFurther(setup, events, copied, active);
    ExtendsFurther(setup, events, active, longer);
    Prefix(setup, events, longer);
  }

  lemma Prefix(setup: Setup, events: seq<Event>, longer: seq<Event>)
    requires Extends(setup, events, longer)
    ensures events <= longer
  {
  }

  /** From every reachable state in which the tenant rests, has data and nothing outstanding, a move to any open shard that holds
      no leftovers of an unfinished import can be brought to its end: then the target alone serves exactly the tenant's data at the
      next epoch, and takes writes at that epoch; the source is retired and empty, the other shards are untouched, and no move is underway. */
  lemma MoveCompletes(setup: Setup, events: seq<Event>, target: string, id: string, write: Write) returns (longer: seq<Event>)
    requires Faithful(setup.codec) && ValidIdentifier(id)
    requires var s := M.Run(setup, events);
      && Now(setup, s).Some? && Now(setup, s).value == Resting(Now(setup, s).value.shard, Now(setup, s).value.epoch)
      && Now(setup, s).value.epoch < MAX_UINT64
      && target != Now(setup, s).value.shard && target in s.catalog.shards && !s.catalog.shards[target].draining
      && (NodeOf(s.nodes, target).owner.state.Unowned? || NodeOf(s.nodes, target).owner.state.Retired?)
      && (forall h :: h in s.history && h.move.Some? ==> h.move.value.id != id)
      && NodeOf(s.nodes, Now(setup, s).value.shard).content.Some? && Drained(s.tenant)
      && 0 < |setup.codec.encode(Transfer(setup.tenant, id, s.tenant))| <= setup.limit
    ensures events <= longer
    ensures var s, after := M.Run(setup, events), M.Run(setup, longer);
      var p := Now(setup, s).value;
      && Now(setup, after) == Some(Placement(target, p.epoch + 1, Live, None))
      && NodeOf(after.nodes, target).owner.state.Active? && NodeOf(after.nodes, target).owner.epoch == p.epoch + 1
      && NodeOf(after.nodes, target).content == Some(s.tenant) && after.tenant == s.tenant
      && NodeOf(after.nodes, p.shard).owner.state.Retired? && NodeOf(after.nodes, p.shard).content.None?
      && (forall other: string :: other != target && other != p.shard ==> NodeOf(after.nodes, other) == NodeOf(s.nodes, other))
      && Admits(NodeOf(after.nodes, target), M.Commit(p.epoch + 1, write))
      && forall shard: string, epoch: Epoch :: Admits(NodeOf(after.nodes, shard), M.Commit(epoch, write)) ==> shard == target && epoch == p.epoch + 1
  {
    var s := M.Run(setup, events);
    var x := SceneOf(setup, events, target);
    SceneIs(setup, events, target);
    var y: Scene;
    longer, y := SceneMoves(setup, events, s.catalog.shards, x, id, s.tenant);
    Ends(setup, longer, s.catalog.shards, y);
    OnlyTarget(setup, longer, target, write);
  }

  lemma OnlyTarget(setup: Setup, events: seq<Event>, target: string, write: Write)
    requires Faithful(setup.codec)
    requires var s := M.Run(setup, events); Now(setup, s).Some? && Now(setup, s).value.shard == target
    ensures forall shard: string, epoch: Epoch :: Admits(NodeOf(M.Run(setup, events).nodes, shard), M.Commit(epoch, write)) ==>
      shard == target && epoch == NodeOf(M.Run(setup, events).nodes, target).owner.epoch
  {
    var s := M.Run(setup, events);
    forall shard: string, epoch: Epoch | Admits(NodeOf(s.nodes, shard), M.Commit(epoch, write)) ensures shard == target && epoch == NodeOf(s.nodes, target).owner.epoch {
      hide M.Run;
      MigrationSafety.EveryRunKeeps(setup, events);
      MigrationSafety.AdmittedAtPlacement(setup, s, shard, M.Commit(epoch, write));
    }
  }

  /** The scene of a move to another shard. */
  ghost function SceneOf(setup: Setup, events: seq<Event>, target: string): Scene
    requires Now(setup, M.Run(setup, events)).Some?
  {
    var s := M.Run(setup, events);
    var p := Now(setup, s).value;
    Scene(p, p.shard, target, NodeOf(s.nodes, p.shard), NodeOf(s.nodes, target), s.nodes,
      set h | h in s.history && h.move.Some? :: h.move.value.id, s.tenant)
  }

  lemma SceneIs(setup: Setup, events: seq<Event>, target: string)
    requires Faithful(setup.codec)
    requires var s := M.Run(setup, events);
      && Now(setup, s).Some? && Now(setup, s).value == Resting(Now(setup, s).value.shard, Now(setup, s).value.epoch)
      && Now(setup, s).value.epoch < MAX_UINT64
      && target != Now(setup, s).value.shard && target in s.catalog.shards && !s.catalog.shards[target].draining
      && (NodeOf(s.nodes, target).owner.state.Unowned? || NodeOf(s.nodes, target).owner.state.Retired?)
      && NodeOf(s.nodes, Now(setup, s).value.shard).content.Some? && Drained(s.tenant)
    ensures var s := M.Run(setup, events);
      var x := SceneOf(setup, events, target);
      && At(setup, events, s.catalog.shards, x) && Settled(s.catalog.shards, x) && x.a.content == Some(s.tenant)
      && Staged(setup.codec, x.b) && x.p.epoch >= x.b.owner.epoch && x.b.content.None?
      && (x.b.owner.epoch == 0 <==> x.b.owner.state.Unowned?)
  {
    hide M.Run;
    MigrationSafety.EveryRunKeeps(setup, events);
    var s := M.Run(setup, events);
    var p := Now(setup, s).value;
    assert MigrationSafety.Shape(setup, NodeOf(s.nodes, target)) && MigrationSafety.Role(p, target, NodeOf(s.nodes, target));
    assert MigrationSafety.Shape(setup, NodeOf(s.nodes, p.shard)) && MigrationSafety.Role(p, p.shard, NodeOf(s.nodes, p.shard));
  }

  lemma Ends(setup: Setup, events: seq<Event>, shards: map<string, C.Shard>, x: Scene)
    requires At(setup, events, shards, x)
    ensures var s := M.Run(setup, events);
      && Now(setup, s) == Some(x.p) && NodeOf(s.nodes, x.from) == x.a && NodeOf(s.nodes, x.to) == x.b && s.tenant == x.tenant
      && forall other: string :: other != x.from && other != x.to ==> NodeOf(s.nodes, other) == NodeOf(x.rest, other)
  {
  }
}
