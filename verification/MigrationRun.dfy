/** Runs of the whole migration system, built call by call: an operator's request, a coordinator's call to one of two shards,
    its report to the catalog (internal/ha/shard_migration.go). */
module MigrationRuns {
  import opened Sharding
  import opened ShardOwnership
  import opened Migration
  import C = Catalogs

  /** Where a run has come to, as far as one move sees it: the placement, two shards and what they hold, the other shards, the
      move identities used, and the tenant all shards together stand for. */
  datatype Scene = Scene(p: Placement, from: string, to: string, a: Node, b: Node, rest: map<string, Node>, ids: set<string>, tenant: Content)

  ghost predicate At(setup: Setup, events: seq<Event>, shards: map<string, C.Shard>, x: Scene) {
    var s := Run(setup, events);
    && Now(setup, s) == Some(x.p) && x.p in s.history
    && s.catalog.shards == shards
    && x.from != x.to && NodeOf(s.nodes, x.from) == x.a && NodeOf(s.nodes, x.to) == x.b
    && (forall id: string :: id != x.from && id != x.to ==> NodeOf(s.nodes, id) == NodeOf(x.rest, id))
    && (forall h :: h in s.history && h.move.Some? ==> h.move.value.id in x.ids)
    && s.tenant == x.tenant
  }

  /** Nothing that was sent, answered or exported is forgotten. */
  ghost predicate Extends(setup: Setup, events: seq<Event>, longer: seq<Event>) {
    && events <= longer
    && Run(setup, events).sent <= Run(setup, longer).sent
    && Run(setup, events).replies <= Run(setup, longer).replies
    && Run(setup, events).history <= Run(setup, longer).history
    && Run(setup, events).exports <= Run(setup, longer).exports
  }

  lemma RunThen(setup: Setup, events: seq<Event>, e: Event)
    ensures Run(setup, events + [e]) == Step(setup, Run(setup, events), e)
  {
    assert (events + [e])[..|events|] == events;
  }

  lemma ExtendsFurther(setup: Setup, events: seq<Event>, sent: seq<Event>, longer: seq<Event>)
    requires Extends(setup, events, sent) && Extends(setup, sent, longer)
    ensures Extends(setup, events, longer)
  {
  }

  lemma ExtendsKeeps(setup: Setup, events: seq<Event>, longer: seq<Event>, m: Message)
    requires Extends(setup, events, longer)
    ensures m in Run(setup, events).sent ==> m in Run(setup, longer).sent
    ensures Answered(Run(setup, events), m) ==> Answered(Run(setup, longer), m)
    ensures m.p in Run(setup, events).history ==> m.p in Run(setup, longer).history
  {
  }

  lemma Sees(setup: Setup, events: seq<Event>, shards: map<string, C.Shard>, x: Scene)
    requires At(setup, events, shards, x)
    ensures x.p in Run(setup, events).history
  {
  }

  /** An operator's request for this tenant. */
  lemma Ask(setup: Setup, events: seq<Event>, shards: map<string, C.Shard>, x: Scene, action: C.TenantAction, q: Placement) returns (longer: seq<Event>)
    requires At(setup, events, shards, x)
    requires action.CancelMove? || (action.StartMove? && action.id !in x.ids)
    requires C.StepPlacement(shards, "", Some(x.p), action) == C.Changed(q)
    ensures At(setup, longer, shards, x.(p := q, ids := x.ids + if q.move.Some? then {q.move.value.id} else {}))
    ensures Extends(setup, events, longer)
  {
    hide C.StepPlacement;
    var e := Request("", C.OnTenant(setup.tenant, action));
    RunThen(setup, events, e);
    longer := events + [e];
  }

  lemma Post(setup: Setup, events: seq<Event>, shards: map<string, C.Shard>, x: Scene, m: Message) returns (longer: seq<Event>)
    requires At(setup, events, shards, x) && Sendable(Run(setup, events), m)
    ensures At(setup, longer, shards, x) && Extends(setup, events, longer) && m in Run(setup, longer).sent
  {
    RunThen(setup, events, Send(m));
    longer := events + [Send(m)];
  }

  function Reached(setup: Setup, x: Scene, m: Message): Outcome
    requires Belongs(m) && !m.Propose?
  {
    ApplyOwnership(setup, if Destination(m) == x.from then x.a else x.b, ActionOf(setup, m))
  }

  /** The scene when a message has reached its shard. */
  function After(setup: Setup, x: Scene, m: Message): Scene
    requires Belongs(m) && !m.Propose?
  {
    if Destination(m) == x.from then x.(a := Reached(setup, x, m).node) else x.(b := Reached(setup, x, m).node)
  }

  /** A message reaches one of the two shards. */
  lemma Arrive(setup: Setup, events: seq<Event>, shards: map<string, C.Shard>, x: Scene, m: Message) returns (longer: seq<Event>)
    requires At(setup, events, shards, x) && m in Run(setup, events).sent
    requires Belongs(m) && !m.Propose? && Destination(m) in {x.from, x.to}
    ensures longer == events + [Deliver(m)] && At(setup, longer, shards, After(setup, x, m)) && Extends(setup, events, longer)
    ensures Reached(setup, x, m).reply.Done? ==> Answered(Run(setup, longer), m)
  {
    hide ApplyOwnership;
    var e := Deliver(m);
    RunThen(setup, events, e);
    longer := events + [e];
    var s' := Run(setup, longer);
    var r := Reached(setup, x, m);
    if r.reply.Done? {
      assert (m, r.reply.owner) in s'.replies;
    }
  }

  /** A coordinator's call that is answered. */
  lemma Call(setup: Setup, events: seq<Event>, shards: map<string, C.Shard>, x: Scene, m: Message) returns (longer: seq<Event>)
    requires At(setup, events, shards, x) && Sendable(Run(setup, events), m)
    requires !m.Propose? && Destination(m) in {x.from, x.to} && Reached(setup, x, m).reply.Done?
    ensures At(setup, longer, shards, After(setup, x, m)) && Extends(setup, events, longer) && Answered(Run(setup, longer), m)
  {
    hide At, Extends, Reached, After;
    var sent := Post(setup, events, shards, x, m);
    longer := Arrive(setup, sent, shards, x, m);
    ExtendsFurther(setup, events, sent, longer);
  }

  /** A coordinator's report to the catalog. */
  lemma Report(setup: Setup, events: seq<Event>, shards: map<string, C.Shard>, x: Scene, step: C.TenantAction, q: Placement) returns (longer: seq<Event>)
    requires At(setup, events, shards, x) && Sendable(Run(setup, events), Propose(x.p, step))
    requires C.StepPlacement(shards, "", Some(x.p), step) == C.Changed(q) && (q.move.Some? ==> q.move.value.id in x.ids)
    ensures At(setup, longer, shards, x.(p := q)) && Extends(setup, events, longer)
  {
    hide C.StepPlacement;
    var m := Propose(x.p, step);
    var sent := Post(setup, events, shards, x, m);
    RunThen(setup, sent, Deliver(m));
    longer := sent + [Deliver(m)];
  }

  /** A frozen source exports the tenant. */
  lemma Take(setup: Setup, events: seq<Event>, shards: map<string, C.Shard>, x: Scene) returns (longer: seq<Event>)
    requires At(setup, events, shards, x) && Exportable(Run(setup, events), x.p)
    ensures At(setup, longer, shards, x) && Extends(setup, events, longer)
    ensures (x.p.move.value.id, Payload(setup, Run(setup, events), x.p)) in Run(setup, longer).exports
  {
    RunThen(setup, events, Export(x.p));
    longer := events + [Export(x.p)];
  }

  /** The placement of a tenant that rests on a shard. */
  function Resting(shard: string, epoch: Epoch): Placement {
    Placement(shard, epoch, Live, None)
  }

  /** The placement during a move. */
  function During(x: Scene, epoch: Epoch, state: PlacementState, id: string, moveEpoch: Epoch, phase: Phase): Placement {
    Placement(if phase.Activating? || phase.Cleaning? then x.to else x.from, epoch, state, Some(Move(id, x.from, x.to, moveEpoch, phase, "")))
  }

  /** The source serves the tenant, which is drained, and no move is underway; the target can be moved to. */
  predicate Settled(shards: map<string, C.Shard>, x: Scene) {
    && 1 <= x.p.epoch < MAX_UINT64 && x.p == Resting(x.from, x.p.epoch)
    && x.a.owner.epoch == x.p.epoch && x.a.owner.state.Active? && Ready(x.a)
    && C.Accepts(shards, x.to) && x.from != x.to
  }

  /** A move has started and its coordinator has frozen the source. */
  lemma Started(setup: Setup, events: seq<Event>, shards: map<string, C.Shard>, x: Scene, id: string) returns (longer: seq<Event>, y: Scene)
    requires At(setup, events, shards, x) && Settled(shards, x) && ValidIdentifier(id) && id !in x.ids
    ensures y == x.(p := During(x, x.p.epoch, Moving, id, x.p.epoch + 1, Copying), a := x.a.(owner := x.a.owner.(state := Frozen, moveId := id)), ids := x.ids + {id})
    ensures At(setup, longer, shards, y) && Extends(setup, events, longer)
    ensures Answered(Run(setup, longer), FreezeMsg(y.p))
  {
    hide Run, Answered, At, Extends, ValidIdentifier, Ready;
    var q := During(x, x.p.epoch, Moving, id, x.p.epoch + 1, Copying);
    var asked := Ask(setup, events, shards, x, C.StartMove(id, x.to), q);
    var z := x.(p := q, ids := x.ids + {id});
    Sees(setup, asked, shards, z);
    longer := Call(setup, asked, shards, z, FreezeMsg(q));
    y := After(setup, z, FreezeMsg(q));
    ExtendsFurther(setup, events, asked, longer);
  }
}
