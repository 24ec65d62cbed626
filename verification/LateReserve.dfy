/** Moves that are cancelled, and what cancellation does not promise: a run of the whole system in which a reserve
    delivered late leaves its target importing for a move that is over (internal/ha/shard_ownership.go:48-63, 110-122). */
module LateReserves {
  import opened Sharding
  import opened ShardOwnership
  import opened Migration
  import opened MigrationRuns
  import C = Catalogs

  // ---------- a cancelled move ----------

  /** The move is cancelled and its source thawed. */
  lemma Thawed(setup: Setup, events: seq<Event>, shards: map<string, C.Shard>, x: Scene, id: string) returns (longer: seq<Event>, y: Scene)
    requires At(setup, events, shards, x) && x.p.epoch < MAX_UINT64 && x.p == During(x, x.p.epoch, Moving, id, x.p.epoch + 1, Copying)
    requires id in x.ids && ValidIdentifier(id)
    requires x.a.owner.epoch == x.p.epoch && x.a.owner.state.Frozen? && x.a.owner.moveId == id
    ensures y == x.(p := During(x, x.p.epoch + 1, Live, id, x.p.epoch + 1, Discarding), a := x.a.(owner := Record(x.p.epoch + 1, Active, id)))
    ensures At(setup, longer, shards, y) && Extends(setup, events, longer)
  {
    hide Run, Answered, At, Extends, ValidIdentifier;
    var back := During(x, x.p.epoch, BackingOut, id, x.p.epoch + 1, Cancelling);
    var z := x.(p := back);
    assert x.ids + {id} == x.ids;
    var asked := Ask(setup, events, shards, x, C.CancelMove, back);
    Sees(setup, asked, shards, z);
    var thawed := Call(setup, asked, shards, z, ThawMsg(back));
    var w := After(setup, z, ThawMsg(back));
    Sees(setup, thawed, shards, w);
    y := w.(p := During(x, x.p.epoch + 1, Live, id, x.p.epoch + 1, Discarding));
    longer := Report(setup, thawed, shards, w, C.ThawedMove(id), y.p);
    ExtendsFurther(setup, events, asked, thawed);
    ExtendsFurther(setup, events, thawed, longer);
  }

  /** The target's discard is acknowledged and the move is over. */
  lemma Discarded(setup: Setup, events: seq<Event>, shards: map<string, C.Shard>, x: Scene, id: string) returns (longer: seq<Event>)
    requires At(setup, events, shards, x) && x.p.epoch > 0 && x.p == During(x, x.p.epoch, Live, id, x.p.epoch, Discarding)
    requires ValidIdentifier(id) && x.from != x.to && ApplyOwnership(setup, x.b, Plain(Discard, x.p.epoch, id)).reply.Done?
    ensures At(setup, longer, shards, x.(p := Resting(x.from, x.p.epoch), b := ApplyOwnership(setup, x.b, Plain(Discard, x.p.epoch, id)).node))
    ensures Extends(setup, events, longer)
  {
    hide Run, Answered, At, Extends, ValidIdentifier, ApplyOwnership;
    Sees(setup, events, shards, x);
    var asked := Call(setup, events, shards, x, DiscardMsg(x.p));
    var y := After(setup, x, DiscardMsg(x.p));
    Sees(setup, asked, shards, y);
    longer := Report(setup, asked, shards, y, C.CancelledMove(id), Resting(x.from, x.p.epoch));
    ExtendsFurther(setup, events, asked, longer);
  }

  /** From any point at which a shard serves a drained tenant, a move to another shard that answers its discard can be
      started, frozen, cancelled, thawed and discarded while its reserve is still under way. The source then serves the
      tenant's data as it was, at the next epoch. */
  lemma CancelledMove(setup: Setup, events: seq<Event>, shards: map<string, C.Shard>, x: Scene, id: string)
      returns (longer: seq<Event>, y: Scene, reserve: Message)
    requires At(setup, events, shards, x) && Settled(shards, x) && ValidIdentifier(id) && id !in x.ids
    requires ApplyOwnership(setup, x.b, Plain(Discard, x.p.epoch + 1, id)).reply.Done?
    ensures y == x.(p := Resting(x.from, x.p.epoch + 1), a := x.a.(owner := Record(x.p.epoch + 1, Active, id)),
      b := ApplyOwnership(setup, x.b, Plain(Discard, x.p.epoch + 1, id)).node, ids := x.ids + {id})
    ensures At(setup, longer, shards, y) && events <= longer
    ensures reserve.ReserveMsg? && Belongs(reserve) && Destination(reserve) == x.to && ActionOf(setup, reserve) == Plain(Reserve, y.p.epoch, id)
    ensures reserve in Run(setup, longer).sent
  {
    hide Run, At, Extends, ApplyOwnership, ValidIdentifier, Ready, Answered;
    var started, z := Started(setup, events, shards, x, id);
    Sees(setup, started, shards, z);
    reserve := ReserveMsg(z.p);
    var posted := Post(setup, started, shards, z, reserve);
    var thawed, w := Thawed(setup, posted, shards, z, id);
    longer := Discarded(setup, thawed, shards, w, id);
    y := x.(p := Resting(x.from, x.p.epoch + 1), a := x.a.(owner := Record(x.p.epoch + 1, Active, id)),
      b := ApplyOwnership(setup, x.b, Plain(Discard, x.p.epoch + 1, id)).node, ids := x.ids + {id});
    ExtendsKeeps(setup, posted, thawed, reserve);
    ExtendsKeeps(setup, thawed, longer, reserve);
    ExtendsFurther(setup, events, started, posted);
    ExtendsFurther(setup, events, posted, thawed);
    ExtendsFurther(setup, events, thawed, longer);
    ExtendsPrefix(setup, events, longer);
  }

  lemma ExtendsPrefix(setup: Setup, events: seq<Event>, longer: seq<Event>)
    requires Extends(setup, events, longer)
    ensures events <= longer
  {
  }

  // ---------- a first run ----------

  const PEERS: map<nat, string> := map[1 := "p", 2 := "q", 3 := "r"]
  const SHARDS: map<string, C.Shard> :=
    map["a" := C.Shard("a", "x", PEERS, false), "b" := C.Shard("b", "y", PEERS, false)]

  lemma Registrable(id: string, cluster: string)
    requires ValidIdentifier(id) && ValidIdentifier(cluster)
    ensures C.ValidShard(C.Shard(id, cluster, PEERS, false))
  {
    hide ValidIdentifier;
    assert PEERS.Keys == {1, 2, 3};
    assert |PEERS.Keys| == 3;
  }

  lemma Register(setup: Setup, events: seq<Event>, shard: C.Shard) returns (longer: seq<Event>)
    requires Run(setup, events).catalog.tenants == map[] && C.ValidShard(shard)
    requires forall id :: id in Run(setup, events).catalog.shards ==>
      id != shard.id && Run(setup, events).catalog.shards[id].cluster != shard.cluster
    ensures var s, s' := Run(setup, events), Run(setup, longer);
      s' == s.(catalog := C.Catalog(s.catalog.version + 1, s.catalog.shards[shard.id := shard], map[]))
  {
    hide C.ValidShard;
    var e := Request("", C.Register(shard));
    RunThen(setup, events, e);
    longer := events + [e];
  }

  lemma RegisterBoth(setup: Setup) returns (events: seq<Event>)
    ensures Run(setup, events) == START.(catalog := C.Catalog(2, SHARDS, map[]))
  {
    hide C.ValidShard, Step;
    Registrable("a", "x");
    Registrable("b", "y");
    events := Register(setup, [], SHARDS["a"]);
    events := Register(setup, events, SHARDS["b"]);
  }

  lemma Place(setup: Setup) returns (events: seq<Event>, x: Scene)
    ensures x == Scene(Placement("a", 1, Assigning, None), "a", "b", EMPTY_NODE, EMPTY_NODE, map[], {}, EMPTY_CONTENT) && At(setup, events, SHARDS, x)
  {
    hide C.ValidShard;
    events := RegisterBoth(setup);
    var e := Request("", C.OnTenant(setup.tenant, C.Assign("a")));
    RunThen(setup, events, e);
    events, x := events + [e], Scene(Placement("a", 1, Assigning, None), "a", "b", EMPTY_NODE, EMPTY_NODE, map[], {}, EMPTY_CONTENT);
  }

  /** Two shards are registered, and the tenant is assigned to the first. */
  lemma Begin(setup: Setup) returns (events: seq<Event>, x: Scene)
    ensures x == Scene(Resting("a", 1), "a", "b", EMPTY_NODE.(owner := Record(1, Active, "")), EMPTY_NODE, map[], {}, EMPTY_CONTENT)
    ensures At(setup, events, SHARDS, x) && Settled(SHARDS, x)
  {
    hide Run, Answered, At, Extends;
    events, x := Place(setup);
    Sees(setup, events, SHARDS, x);
    events := Call(setup, events, SHARDS, x, OwnMsg(x.p));
    x := After(setup, x, OwnMsg(x.p));
    Sees(setup, events, SHARDS, x);
    events := Report(setup, events, SHARDS, x, C.Assigned(1), Resting("a", 1));
    x := x.(p := Resting("a", 1));
  }

  /** Two moves to one target are cancelled one after the other, both discards acknowledged. The first
      leaves a tombstone and the second none, so the second move's reserve, delivered when no move is
      underway any more, makes the target import; and from then on it refuses every further move. */
  lemma LateReserveLands(setup: Setup, first: string, second: string) returns (events: seq<Event>, reserve: Message)
    requires ValidIdentifier(first) && ValidIdentifier(second) && first != second
    ensures var s, late := Run(setup, events), Run(setup, events + [Deliver(reserve)]);
      && Now(setup, s) == Now(setup, late) == Some(Placement("a", 3, Live, None))
      && NodeOf(s.nodes, "b").owner == Record(2, Retired, first)
      && NodeOf(late.nodes, "b").owner == Record(3, Importing, second)
    ensures reserve.ReserveMsg? && reserve.p.move.Some? && reserve.p.move.value.id == second
    ensures forall epoch: Epoch, move: string :: move != second ==>
      ApplyOwnership(setup, NodeOf(Run(setup, events + [Deliver(reserve)]).nodes, "b"), Plain(Reserve, epoch, move)).reply.Rejected?
  {
    var x, y, z: Scene;
    var b := EMPTY_NODE.(owner := Record(2, Retired, first));
    Discards(setup, first, second);
    events, x := Begin(setup);
    events, y, reserve := CancelledMove(setup, events, SHARDS, x, first);
    events, z, reserve := CancelledMove(setup, events, SHARDS, y, second);
    var late := Arrive(setup, events, SHARDS, z, reserve);
  }

  lemma Discards(setup: Setup, first: string, second: string)
    requires ValidIdentifier(first) && ValidIdentifier(second) && first != second
    ensures var b := EMPTY_NODE.(owner := Record(2, Retired, first));
      && ApplyOwnership(setup, EMPTY_NODE, Plain(Discard, 2, first)) == Outcome(b, Done(b.owner))
      && ApplyOwnership(setup, b, Plain(Discard, 3, second)) == Outcome(b, Done(b.owner))
      && ApplyOwnership(setup, b, Plain(Reserve, 3, second)).node.owner == Record(3, Importing, second)
  {
  }
}
