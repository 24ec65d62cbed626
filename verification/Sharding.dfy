/** The vocabulary of tenant sharding (internal/sharding/types.go): ownership records kept by
    each data shard, placements kept by the catalog, and the actions sent to either of them. */
module Sharding {

  datatype Option<+T> = None | Some(value: T)

  const CHUNK_BYTES: int := 0x10_0000
  const MAX_UINT64: nat := 0xFFFF_FFFF_FFFF_FFFF

  type Epoch = e: nat | e <= MAX_UINT64
  type Byte = b: nat | b < 256
  type Bytes = seq<Byte>

  function Min(a: int, b: int): int {
    if a <= b then a else b
  }

  /** ValidateIdentifier of internal/sharding/types.go. */
  predicate ValidIdentifier(id: string) {
    && id != ""
    && |id| <= 128
    && id != "."
    && id != ".."
    && forall i :: 0 <= i < |id| ==> id[i] !in "/\\ \t\r\n"
  }

  // ---------- ownership on one data shard ----------

  /** The states a shard's ownership record of a tenant can be in; `Unowned` is the absent record. */
  datatype Role = Unowned | Active | Frozen | Importing | Installed | Retired

  datatype Ownership = Ownership(
    epoch: Epoch,
    state: Role,
    moveId: string,
    digest: string,
    nextPart: nat,
    transferBytes: int,
    chunkDigests: seq<string>)

  /** A record as the state machine writes it: no transfer has begun. */
  function Record(epoch: Epoch, state: Role, moveId: string): Ownership {
    Ownership(epoch, state, moveId, "", 0, 0, [])
  }

  const NO_OWNER: Ownership := Record(0, Unowned, "")

  datatype OwnerOp = Own | Reserve | Freeze | Activate | Thaw | Retire | Discard | Stage | Install

  datatype OwnerAction = OwnerAction(
    op: OwnerOp,
    epoch: Epoch,
    moveId: string,
    part: int,
    parts: int,
    bytes: int,
    digest: string,
    data: Bytes)

  function Plain(op: OwnerOp, epoch: Epoch, moveId: string): OwnerAction {
    OwnerAction(op, epoch, moveId, 0, 0, 0, "", [])
  }

  // ---------- the data of one tenant ----------

  /** One mutation, named by its payload. */
  type Write = string

  /** A tenant's stored data: the mutations published to its graph in order, the ingestion
      requests accepted but not yet published, and the tasks still queued or running. */
  datatype Content = Content(published: seq<Write>, accepted: seq<Write>, tasks: set<nat>)

  const EMPTY_CONTENT: Content := Content([], [], {})

  /** What tenantMigrationReady asks for: nothing accepted or queued is outstanding. */
  predicate Drained(c: Content) {
    c.accepted == [] && c.tasks == {}
  }

  /** The export of one tenant for one move, before encoding. */
  datatype Transfer = Transfer(tenant: string, moveId: string, content: Content)

  /** JSON encoding and SHA-256, which the model does not open up. */
  datatype Codec = Codec(encode: Transfer -> Bytes, decode: Bytes -> Option<Transfer>, digest: Bytes -> string)

  /** What the protocol needs of them: decoding undoes encoding, and digests name contents. */
  ghost predicate Faithful(codec: Codec) {
    && (forall t: Transfer :: codec.decode(codec.encode(t)) == Some(t))
    && (forall x: Bytes, y: Bytes :: codec.digest(x) == codec.digest(y) ==> x == y)
    && (forall x: Bytes :: codec.digest(x) != "")
  }

  // ---------- the catalog ----------

  datatype Phase = Copying | Activating | Cleaning | Cancelling | Discarding

  datatype Move = Move(id: string, source: string, target: string, epoch: Epoch, phase: Phase, error: string)

  /** "assigning", "active", "moving", "activating" and "cancelling". */
  datatype PlacementState = Assigning | Live | Moving | CutOver | BackingOut

  datatype Placement = Placement(shard: string, epoch: Epoch, state: PlacementState, move: Option<Move>)
}
