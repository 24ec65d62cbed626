/** The ownership state machine that one data shard runs for one tenant
    (internal/ha/shard_ownership.go, installTenantTransfer of internal/ha/shard_transfer.go). */
module ShardOwnership {
  import opened Sharding

  /** One tenant's slice of a shard's object store: its ownership record, the staged transfer
      chunks by move and part, and its data when the tenant exists there. */
  datatype Node = Node(owner: Ownership, chunks: map<(string, int), Bytes>, content: Option<Content>)

  const EMPTY_NODE: Node := Node(NO_OWNER, map[], None)

  /** `Done` is a 200 carrying the record, `Rejected` a 409, `Fault` an error that stops the replica. */
  datatype Reply = Done(owner: Ownership) | Rejected | Fault

  datatype Outcome = Outcome(node: Node, reply: Reply)

  /** The settings of one shard application. */
  datatype Setup = Setup(codec: Codec, limit: int, tenant: string)

  function Keep(n: Node, reply: Reply): Outcome {
    Outcome(n, reply)
  }

  function Saved(n: Node, owner: Ownership): Outcome {
    Outcome(n.(owner := owner), Done(owner))
  }

  /** removeMigratedTenant: tenant data, accepted requests and staged chunks all go. */
  function Purged(n: Node): Node {
    n.(chunks := map[], content := None)
  }

  predicate Matches(o: Ownership, a: OwnerAction) {
    o.epoch == a.epoch && o.moveId == a.moveId
  }

  /** tenantMigrationReady. */
  predicate Ready(n: Node) {
    n.content.Some? ==> Drained(n.content.value)
  }

  /** checkOwnership: the gate every tenant mutation passes when it is applied. */
  predicate Serves(o: Ownership, epoch: nat) {
    epoch > 0 && o.epoch == epoch && o.state.Active?
  }

  // ---------- applyOwnership ----------

  function ApplyOwn(n: Node, a: OwnerAction): Outcome {
    if n.owner.epoch != 0 && (n.owner.epoch != a.epoch || !n.owner.state.Active?) then Keep(n, Rejected)
    else Saved(n, Record(a.epoch, Active, ""))
  }

  function ApplyReserve(n: Node, a: OwnerAction): Outcome {
    var o := n.owner;
    if Matches(o, a) && (o.state.Importing? || o.state.Installed? || o.state.Active?) then Keep(n, Done(o))
    else if o.epoch >= a.epoch || (o.epoch > 0 && !o.state.Retired?) then Keep(n, Rejected)
    else if o.epoch == 0 && n.content.Some? then Keep(n, Rejected)
    else Saved(n, Record(a.epoch, Importing, a.moveId))
  }

  function ApplyFreeze(n: Node, a: OwnerAction): Outcome {
    var o := n.owner;
    if Matches(o, a) && o.state.Frozen? then Keep(n, Done(o))
    else if o.epoch != a.epoch || !o.state.Active? then Keep(n, Rejected)
    else if !Ready(n) then Keep(n, Rejected)
    else Saved(n, o.(state := Frozen, moveId := a.moveId))
  }

  function ApplyActivate(n: Node, a: OwnerAction): Outcome {
    var o := n.owner;
    if !Matches(o, a) || (!o.state.Installed? && !o.state.Active?) then Keep(n, Rejected)
    else Saved(n, o.(state := Active))
  }

  /** The uint64 sum of the source wraps to 0 at the maximum, which no action carries. */
  function ApplyThaw(n: Node, a: OwnerAction): Outcome {
    var o := n.owner;
    if Matches(o, a) && o.state.Active? then Keep(n, Done(o))
    else if o.epoch + 1 != a.epoch || (!o.state.Active? && !(o.state.Frozen? && o.moveId == a.moveId)) then Keep(n, Rejected)
    else Saved(n, Record(a.epoch, Active, a.moveId))
  }

  function ApplyRetire(n: Node, a: OwnerAction): Outcome {
    var o := n.owner;
    if Matches(o, a) && o.state.Retired? then Keep(n, Done(o))
    else if !Matches(o, a) || !o.state.Frozen? then Keep(n, Rejected)
    else Saved(Purged(n), o.(state := Retired))
  }

  function ApplyDiscard(n: Node, a: OwnerAction): Outcome {
    var o := n.owner;
    if o.epoch > a.epoch || (o.epoch > 0 && !Matches(o, a)) then Keep(n, Done(o))
    else if o.state.Active? && Matches(o, a) then Keep(n, Rejected)
    else
      var cleaned := if Matches(o, a) && (o.state.Installed? || o.state.Importing?) then Purged(n) else n;
      Saved(cleaned, Record(a.epoch, Retired, a.moveId))
  }

  /** The size chunk `part` of a transfer of `total` bytes must have. */
  function ChunkSize(total: int, part: int): int {
    Min(CHUNK_BYTES, total - part * CHUNK_BYTES)
  }

  /** The digest list after recording part `part`, padded when it is shorter. */
  function WithDigest(digests: seq<string>, part: nat, digest: string): (r: seq<string>)
    ensures |r| == if |digests| <= part then part + 1 else |digests|
  {
    var padded := if |digests| <= part then digests + seq(part + 1 - |digests|, _ => "") else digests;
    padded[part := digest]
  }

  function ApplyStage(setup: Setup, n: Node, a: OwnerAction): Outcome {
    var o := n.owner;
    if !Matches(o, a) || (!o.state.Importing? && !o.state.Installed?) || a.part < 0
       || a.part * CHUNK_BYTES >= setup.limit || |a.data| > CHUNK_BYTES then Keep(n, Rejected)
    else if o.state.Installed? then Keep(n, Done(o))
    else if a.bytes <= 0 || a.bytes > setup.limit || a.part * CHUNK_BYTES >= a.bytes
       || |a.data| != ChunkSize(a.bytes, a.part) || (o.transferBytes != 0 && o.transferBytes != a.bytes) then Keep(n, Rejected)
    else if a.part > o.nextPart || (o.digest != "" && a.digest != "" && o.digest != a.digest) then Keep(n, Rejected)
    else
      var key := (a.moveId, a.part);
      var hash := setup.codec.digest;
      if key in n.chunks && a.part < |o.chunkDigests| && o.chunkDigests[a.part] != "" && hash(n.chunks[key]) != o.chunkDigests[a.part] then Keep(n, Fault)
      else if key in n.chunks && n.chunks[key] != a.data then Keep(n, Rejected)
      else if key !in n.chunks && a.part < o.nextPart then Keep(n, Fault)
      else
        var owner := o.(
          digest := if a.digest != "" then a.digest else o.digest,
          transferBytes := a.bytes,
          chunkDigests := WithDigest(o.chunkDigests, a.part, hash(a.data)),
          nextPart := if a.part == o.nextPart then o.nextPart + 1 else o.nextPart);
        Outcome(n.(owner := owner, chunks := n.chunks[key := a.data]), Done(owner))
  }

  /** What reading the staged chunks from `part` on yields: every chunk must be stored with its
      exact size and recorded digest (restoreReader.Read of internal/ha/restore.go). */
  function Assemble(codec: Codec, chunks: map<(string, int), Bytes>, move: string, digests: seq<string>, total: int, part: nat): Option<Bytes>
    decreases total - part * CHUNK_BYTES
  {
    if total - part * CHUNK_BYTES <= 0 then Some([])
    else if (move, part) !in chunks || |chunks[(move, part)]| != ChunkSize(total, part) then None
    else if part < |digests| && digests[part] != "" && codec.digest(chunks[(move, part)]) != digests[part] then None
    else
      match Assemble(codec, chunks, move, digests, total, part + 1)
      case None => None
      case Some(rest) => Some(chunks[(move, part)] + rest)
  }

  function PartCount(bytes: int): int {
    (bytes + CHUNK_BYTES - 1) / CHUNK_BYTES
  }

  /** installTenantTransfer: the data to install, or why not. */
  function ReadTransfer(setup: Setup, n: Node, a: OwnerAction): (r: Result)
  {
    var o := n.owner;
    if a.bytes <= 0 || a.bytes > setup.limit || a.parts <= 0 || a.parts != PartCount(a.bytes) then Invalid
    else if o.nextPart != a.parts || (o.transferBytes != 0 && o.transferBytes != a.bytes) || (o.digest != "" && o.digest != a.digest) then Invalid
    else if |o.chunkDigests| != a.parts || "" in o.chunkDigests then Invalid
    else
      match Assemble(setup.codec, n.chunks, a.moveId, o.chunkDigests, a.bytes, 0)
      case None => Broken
      case Some(bytes) =>
        if |bytes| != a.bytes || setup.codec.digest(bytes) != a.digest then Invalid
        else
          match setup.codec.decode(bytes)
          case None => Invalid
          case Some(t) =>
            if t.tenant != setup.tenant || t.moveId != a.moveId || t.content.accepted != [] then Invalid
            else Read(t.content)
  }

  datatype Result = Read(content: Content) | Invalid | Broken

  function ApplyInstall(setup: Setup, n: Node, a: OwnerAction): Outcome {
    var o := n.owner;
    if Matches(o, a) && (o.state.Installed? || o.state.Active?) then
      if o.digest != a.digest then Keep(n, Rejected) else Keep(n, Done(o))
    else if !Matches(o, a) || !o.state.Importing? then Keep(n, Rejected)
    else
      match ReadTransfer(setup, n, a)
      case Invalid => Keep(n, Rejected)
      case Broken => Keep(n, Fault)
      case Read(content) =>
        var owner := o.(state := Installed, digest := a.digest, chunkDigests := []);
        Outcome(Node(owner, map[], Some(content)), Done(owner))
  }

  /** applyOwnership for the tenant of this slice. */
  function ApplyOwnership(setup: Setup, n: Node, a: OwnerAction): Outcome {
    if a.epoch == 0 || (!a.op.Own? && !ValidIdentifier(a.moveId)) then Keep(n, Rejected)
    else
      match a.op
      case Own => ApplyOwn(n, a)
      case Reserve => ApplyReserve(n, a)
      case Freeze => ApplyFreeze(n, a)
      case Activate => ApplyActivate(n, a)
      case Thaw => ApplyThaw(n, a)
      case Retire => ApplyRetire(n, a)
      case Discard => ApplyDiscard(n, a)
      case Stage => ApplyStage(setup, n, a)
      case Install => ApplyInstall(setup, n, a)
  }
}
