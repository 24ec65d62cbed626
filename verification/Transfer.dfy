/** Chunked tenant transfer: what staging keeps over every sequence of requests, and what a
    successful install means (internal/ha/shard_ownership.go, shard_transfer.go, restore.go). */
module Transfers {
  import opened Sharding
  import opened ShardOwnership

  /** The staged chunks are a contiguous prefix of one transfer: part i is stored with its exact
      size and recorded digest for every i below nextPart, and nothing else is stored. */
  ghost predicate Staged(codec: Codec, n: Node) {
    var o := n.owner;
    (o.epoch == 0 ==> o.state.Unowned?) &&
    if o.state.Importing? then
      && o.nextPart == |o.chunkDigests|
      && (forall k :: k in n.chunks <==> k.0 == o.moveId && 0 <= k.1 < o.nextPart)
      && (forall i :: 0 <= i < o.nextPart ==> PartStored(codec, n, i))
      && (o.nextPart > 0 ==> (o.nextPart - 1) * CHUNK_BYTES < o.transferBytes)
      && (o.nextPart == 0 ==> o.transferBytes == 0 && o.digest == "")
    else
      n.chunks == map[]
  }

  ghost predicate PartStored(codec: Codec, n: Node, i: int) {
    && 0 <= i < |n.owner.chunkDigests|
    && (n.owner.moveId, i) in n.chunks
    && |n.chunks[(n.owner.moveId, i)]| == ChunkSize(n.owner.transferBytes, i)
    && codec.digest(n.chunks[(n.owner.moveId, i)]) == n.owner.chunkDigests[i]
  }

  lemma StageKeepsStaged(setup: Setup, n: Node, a: OwnerAction)
    requires Staged(setup.codec, n)
    ensures Staged(setup.codec, ApplyStage(setup, n, a).node)
    ensures ApplyStage(setup, n, a).reply != Fault
  {
    var n' := ApplyStage(setup, n, a).node;
    if n' != n {
      var o, o' := n.owner, n'.owner;
      assert o.state.Importing? && 0 <= a.part <= o.nextPart;
      if a.part < o.nextPart {
        assert PartStored(setup.codec, n, a.part);
        assert n'.chunks == n.chunks && o'.chunkDigests == o.chunkDigests;
      }
      forall i | 0 <= i < o'.nextPart ensures PartStored(setup.codec, n', i) {
        assert i != a.part ==> PartStored(setup.codec, n, i);
      }
    } else if a.part < n.owner.nextPart && n.owner.state.Importing? && 0 <= a.part {
      assert PartStored(setup.codec, n, a.part);
    }
  }

  /** Every action keeps the staged prefix, whatever it asks for. */
  lemma ActionKeepsStaged(setup: Setup, n: Node, a: OwnerAction)
    requires Staged(setup.codec, n)
    ensures Staged(setup.codec, ApplyOwnership(setup, n, a).node)
  {
    if a.op.Stage? {
      StageKeepsStaged(setup, n, a);
    }
  }

  /** An answered request that arrives again is answered with the same record and changes nothing: coordinators may
      repeat every call. */
  lemma RepeatIsHarmless(setup: Setup, n: Node, a: OwnerAction)
    requires Staged(setup.codec, n) && ApplyOwnership(setup, n, a).reply.Done?
    ensures var once := ApplyOwnership(setup, n, a).node; ApplyOwnership(setup, once, a) == Outcome(once, Done(once.owner))
  {
    hide Staged, ApplyStage, ReadTransfer;
    if a.op.Stage? {
      StageRepeats(setup, n, a);
    }
  }

  lemma StageRepeats(setup: Setup, n: Node, a: OwnerAction)
    requires Staged(setup.codec, n) && ApplyStage(setup, n, a).reply.Done?
    ensures var once := ApplyStage(setup, n, a).node; ApplyStage(setup, once, a) == Outcome(once, Done(once.owner))
  {
    var once := ApplyStage(setup, n, a).node;
    StageKeepsStaged(setup, n, a);
    if n.owner.state.Importing? {
      assert PartStored(setup.codec, once, a.part);
      var again := ApplyStage(setup, once, a).node;
      assert again.chunks == once.chunks;
      assert again.owner.chunkDigests == once.owner.chunkDigests;
    }
  }

  function Run(setup: Setup, n: Node, actions: seq<OwnerAction>): Node
    decreases |actions|
  {
    if actions == [] then n
    else ApplyOwnership(setup, Run(setup, n, actions[..|actions| - 1]), actions[|actions| - 1]).node
  }

  /** Over every sequence of requests to a fresh shard, replayed, reordered or mixed between moves,
      the stored chunks stay a contiguous prefix with one digest per part. */
  lemma {:induction false} EveryRunStaysStaged(setup: Setup, actions: seq<OwnerAction>)
    ensures Staged(setup.codec, Run(setup, EMPTY_NODE, actions))
    decreases |actions|
  {
    if actions != [] {
      EveryRunStaysStaged(setup, actions[..|actions| - 1]);
      ActionKeepsStaged(setup, Run(setup, EMPTY_NODE, actions[..|actions| - 1]), actions[|actions| - 1]);
    }
  }

  // ---------- reassembly ----------

  /** The chunks from `part` up to `parts`, joined. */
  function Joined(chunks: map<(string, int), Bytes>, move: string, part: nat, parts: nat): Bytes
    requires forall i :: part <= i < parts ==> (move, i) in chunks
    decreases parts - part
  {
    if part >= parts then [] else chunks[(move, part)] + Joined(chunks, move, part + 1, parts)
  }

  lemma {:induction false} AssembleJoins(codec: Codec, n: Node, part: nat)
    requires Staged(codec, n) && n.owner.state.Importing? && n.owner.nextPart > 0
    requires part <= n.owner.nextPart == PartCount(n.owner.transferBytes)
    ensures var joined := Joined(n.chunks, n.owner.moveId, part, n.owner.nextPart);
      && Assemble(codec, n.chunks, n.owner.moveId, n.owner.chunkDigests, n.owner.transferBytes, part) == Some(joined)
      && |joined| == if part == n.owner.nextPart then 0 else n.owner.transferBytes - part * CHUNK_BYTES
    decreases n.owner.nextPart - part
  {
    if part < n.owner.nextPart {
      assert PartStored(codec, n, part);
      AssembleJoins(codec, n, part + 1);
    }
  }

  /** The one byte string a complete set of staged chunks stands for. */
  function StagedBytes(codec: Codec, n: Node): Bytes
    requires Staged(codec, n) && n.owner.state.Importing?
  {
    Joined(n.chunks, n.owner.moveId, 0, n.owner.nextPart)
  }

  /** When an install request meets every condition the source asks for. */
  predicate InstallAgrees(setup: Setup, n: Node, a: OwnerAction) {
    var o := n.owner;
    && 0 < a.bytes <= setup.limit
    && a.parts == PartCount(a.bytes) == o.nextPart
    && a.bytes == o.transferBytes
    && (o.digest == "" || o.digest == a.digest)
  }

  /** Installing succeeds exactly when the staged bytes are complete, have the announced digest and
      hold this tenant's export for this move; the data installed is then that export's, and no
      other byte string of any length has that digest. */
  lemma InstallIsExact(setup: Setup, n: Node, a: OwnerAction)
    requires Faithful(setup.codec) && Staged(setup.codec, n)
    requires n.owner.state.Importing? && a.op.Install? && a.epoch > 0 && ValidIdentifier(a.moveId) && Matches(n.owner, a)
    ensures var r := ApplyOwnership(setup, n, a);
      var bytes := StagedBytes(setup.codec, n);
      var t := setup.codec.decode(bytes);
      && r.reply != Fault
      && (r.reply.Done? <==>
          && InstallAgrees(setup, n, a)
          && setup.codec.digest(bytes) == a.digest
          && t.Some? && t.value.tenant == setup.tenant && t.value.moveId == a.moveId && t.value.content.accepted == [])
      && (r.reply.Done? ==>
          && r.node.owner.state.Installed? && r.node.content == Some(t.value.content)
          && |bytes| == a.bytes
          && forall other: Bytes :: setup.codec.digest(other) == a.digest ==> other == bytes)
  {
    var o := n.owner;
    if InstallAgrees(setup, n, a) {
      AssembleJoins(setup.codec, n, 0);
      forall i | 0 <= i < |o.chunkDigests| ensures o.chunkDigests[i] != "" {
        assert PartStored(setup.codec, n, i);
      }
    } else if a.bytes > 0 && a.parts == PartCount(a.bytes) == o.nextPart {
      assert PartStored(setup.codec, n, 0);
    }
  }

  // ---------- one transfer against its source ----------

  /** Part `i` of a payload. */
  function Slice(payload: Bytes, i: nat): Bytes
    requires i * CHUNK_BYTES < |payload|
  {
    payload[i * CHUNK_BYTES .. i * CHUNK_BYTES + ChunkSize(|payload|, i)]
  }

  /** The staged prefix of `n` is the payload's own. */
  ghost predicate Carries(n: Node, payload: Bytes) {
    && n.owner.nextPart <= PartCount(|payload|)
    && (n.owner.nextPart > 0 ==> n.owner.transferBytes == |payload|)
    && forall i :: 0 <= i < n.owner.nextPart ==> CarriesPart(n, payload, i)
  }

  ghost predicate CarriesPart(n: Node, payload: Bytes, i: int) {
    && 0 <= i
    && i * CHUNK_BYTES < |payload|
    && (n.owner.moveId, i) in n.chunks
    && n.chunks[(n.owner.moveId, i)] == Slice(payload, i)
  }

  /** The slices of a payload tile it: nothing is repeated, skipped or cut. */
  lemma {:induction false} SlicesTile(n: Node, payload: Bytes, part: nat)
    requires Carries(n, payload) && part <= n.owner.nextPart == PartCount(|payload|)
    requires forall i :: part <= i < n.owner.nextPart ==> (n.owner.moveId, i) in n.chunks
    ensures part < n.owner.nextPart ==> part * CHUNK_BYTES < |payload|
    ensures Joined(n.chunks, n.owner.moveId, part, n.owner.nextPart)
         == if part < n.owner.nextPart then payload[part * CHUNK_BYTES..] else []
    decreases n.owner.nextPart - part
  {
    if part < n.owner.nextPart {
      assert CarriesPart(n, payload, part);
      SlicesTile(n, payload, part + 1);
    }
  }

  /** Replaying a stored part with the same bytes changes nothing but a missing announced digest;
      with other bytes, or ahead of the next part, it is refused. */
  lemma ReplayIsHarmless(setup: Setup, n: Node, a: OwnerAction)
    requires Staged(setup.codec, n) && n.owner.state.Importing? && a.op.Stage?
    requires a.part < n.owner.nextPart || a.part > n.owner.nextPart
    ensures var r := ApplyOwnership(setup, n, a);
      && r.node.chunks == n.chunks
      && r.node.content == n.content
      && r.node.owner == n.owner.(digest := r.node.owner.digest)
      && (n.owner.digest != "" ==> r.node == n)
      && (r.reply.Done? ==> 0 <= a.part < n.owner.nextPart && n.chunks[(a.moveId, a.part)] == a.data)
  {
    if 0 <= a.part < n.owner.nextPart {
      assert PartStored(setup.codec, n, a.part);
    }
  }

  /** Staging the next part of a payload extends the prefix the target carries. */
  lemma StageCarries(setup: Setup, n: Node, a: OwnerAction, payload: Bytes)
    requires Staged(setup.codec, n) && n.owner.state.Importing? && Carries(n, payload)
    requires a.op.Stage? && a.epoch > 0 && ValidIdentifier(a.moveId) && Matches(n.owner, a)
    requires |payload| <= setup.limit && a.part == n.owner.nextPart && a.part * CHUNK_BYTES < |payload| == a.bytes
    requires a.data == Slice(payload, a.part) && a.digest == setup.codec.digest(payload)
    requires n.owner.digest in {"", a.digest}
    ensures var r := ApplyOwnership(setup, n, a);
      && r.reply.Done? && Carries(r.node, payload)
      && r.node.owner.nextPart == a.part + 1 && r.node.owner.state.Importing?
      && r.node.owner.epoch == a.epoch && r.node.owner.moveId == a.moveId
      && r.node.owner.digest in {"", a.digest}
  {
    var r := ApplyOwnership(setup, n, a);
    forall i | 0 <= i < r.node.owner.nextPart ensures CarriesPart(r.node, payload, i) {
      assert i < a.part ==> CarriesPart(n, payload, i);
    }
  }
}
