/** The shard application's replicated state for one tenant, changed in place: the ownership record,
    the staged chunks and the tenant's data (internal/ha/shard_ownership.go, shard_transfer.go,
    restore.go, and the copy loop of shard_copy.go that drives them). */
module ShardApplications {
  import opened Sharding
  import opened ShardOwnership
  import opened Transfers

  // ---------- reading staged chunks back ----------

  datatype ReadResult = Piece(data: Bytes) | EndOfFile | Failed

  /** Where a set of staged parts is read from. */
  datatype Source = Source(codec: Codec, chunks: map<(string, int), Bytes>, move: string, digests: seq<string>, total: int) {

    predicate Sound(i: nat)
      requires (move, i) in chunks
    {
      i < |digests| && digests[i] != "" ==> codec.digest(chunks[(move, i)]) == digests[i]
    }

    /** An open part is the one before `part`, and what is left of it is a tail of it. */
    predicate Position(part: nat, current: Option<Bytes>) {
      current.Some? ==>
        && part > 0
        && (part - 1) * CHUNK_BYTES < total
        && (move, part - 1) in chunks
        && |current.value| <= |chunks[(move, part - 1)]|
    }

    function From(part: nat): Option<Bytes> {
      Assemble(codec, chunks, move, digests, total, part)
    }

    /** What is still to be delivered from a position; nothing when a part ahead is missing or corrupt. */
    function Remaining(part: nat, current: Option<Bytes>): Option<Bytes>
      requires Position(part, current)
    {
      if current.None? then From(part)
      else if From(part).None? || !Sound(part - 1) then None
      else Some(current.value + From(part).value)
    }

    /** The next part can be opened. */
    predicate Opens(part: nat) {
      (move, part) in chunks && |chunks[(move, part)]| == ChunkSize(total, part)
    }

    lemma OpenKeeps(part: nat)
      requires part * CHUNK_BYTES < total
      ensures if Opens(part) then Remaining(part, None) == Remaining(part + 1, Some(chunks[(move, part)])) else From(part).None?
    {
    }

    lemma CloseKeeps(part: nat)
      requires Position(part, Some([]))
      ensures Remaining(part, Some([])) == if Sound(part - 1) then Remaining(part, None) else None
    {
      if From(part).Some? {
        assert [] + From(part).value == From(part).value;
      }
    }

    lemma TakeKeeps(part: nat, rest: Bytes, n: nat)
      requires Position(part, Some(rest)) && n <= |rest|
      ensures Remaining(part, Some(rest)) == Prefixed(rest[..n], Remaining(part, Some(rest[n..])))
    {
      if From(part).Some? {
        assert rest + From(part).value == rest[..n] + (rest[n..] + From(part).value);
      }
    }
  }

  function Prefixed(head: Bytes, tail: Option<Bytes>): Option<Bytes> {
    if tail.None? then None else Some(head + tail.value)
  }

  /** restoreReader: hands out the staged bytes piece by piece, checking each part's recorded digest
      only when that part runs out. */
  class RestoreReader {
    const source: Source
    var part: nat
    var current: Option<Bytes>

    constructor (source: Source)
      ensures this.source == source && Valid()
      ensures Remaining() == source.From(0)
    {
      this.source := source;
      part, current := 0, None;
    }

    predicate Valid()
      reads this
    {
      source.Position(part, current)
    }

    function Remaining(): Option<Bytes>
      reads this
      requires Valid()
    {
      source.Remaining(part, current)
    }

    /** Bytes of parts not yet opened. */
    function Ahead(): nat
      reads this
    {
      if source.total <= part * CHUNK_BYTES then 0 else source.total - part * CHUNK_BYTES
    }

    function Open(): nat
      reads this
    {
      if current.Some? then |current.value| else 0
    }

    /** Read up to `limit` bytes. */
    method Read(limit: nat) returns (r: ReadResult)
      requires Valid() && limit > 0
      modifies this
      ensures Valid()
      ensures r.Piece? ==> 0 < |r.data| <= limit && old(Remaining()) == Prefixed(r.data, Remaining())
      ensures r.EndOfFile? ==> old(Remaining()) == Some([])
      ensures r.Failed? ==> old(Remaining()) == None
      ensures r.Piece? ==> Ahead() < old(Ahead()) || (Ahead() == old(Ahead()) && Open() < old(Open()))
    {
      while true
        invariant Valid() && Remaining() == old(Remaining())
        invariant Ahead() < old(Ahead()) || (Ahead() == old(Ahead()) && (current == old(current) || current.None?))
        decreases Ahead(), current.Some?
      {
        if current.None? {
          if source.total - part * CHUNK_BYTES <= 0 {
            return EndOfFile;
          }
          source.OpenKeeps(part);
          if !source.Opens(part) {
            return Failed;
          }
          current := Some(source.chunks[(source.move, part)]);
          part := part + 1;
        }
        var rest := current.value;
        if rest != [] {
          var n := Min(limit, |rest|);
          source.TakeKeeps(part, rest, n);
          current := Some(rest[n..]);
          return Piece(rest[..n]);
        }
        source.CloseKeeps(part);
        if !source.Sound(part - 1) {
          return Failed;
        }
        current := None;
      }
    }

    /** io.Copy: read to the end. */
    method ReadAll(limit: nat) returns (r: Option<Bytes>)
      requires Valid() && limit > 0
      modifies this
      ensures r == old(Remaining())
    {
      var out: Bytes := [];
      if Remaining().Some? {
        assert Remaining().value == out + Remaining().value;
      }
      while true
        invariant Valid()
        invariant old(Remaining()) == Prefixed(out, Remaining())
        decreases Ahead(), Open()
      {
        var piece := Read(limit);
        match piece
        case EndOfFile =>
          assert out + [] == out;
          return Some(out);
        case Failed => return None;
        case Piece(data) =>
          if Remaining().Some? {
            assert out + (data + Remaining().value) == (out + data) + Remaining().value;
          }
          out := out + data;
      }
    }
  }

  // ---------- the replicated state ----------

  class ShardApplication {
    const setup: Setup
    var owner: Ownership
    var chunks: map<(string, int), Bytes>
    var content: Option<Content>

    constructor (setup: Setup)
      ensures this.setup == setup && View() == EMPTY_NODE
    {
      this.setup := setup;
      owner, chunks, content := NO_OWNER, map[], None;
    }

    function View(): Node
      reads this
    {
      Node(owner, chunks, content)
    }

    /** removeMigratedTenant. */
    method RemoveTenant()
      modifies this
      ensures View() == Purged(old(View()))
    {
      content := None;
      chunks := map[];
    }

    method Stage(a: OwnerAction) returns (reply: Reply)
      modifies this
      ensures Outcome(View(), reply) == ApplyStage(setup, old(View()), a)
    {
      var o := owner;
      if !Matches(o, a) || (!o.state.Importing? && !o.state.Installed?) || a.part < 0
         || a.part * CHUNK_BYTES >= setup.limit || |a.data| > CHUNK_BYTES {
        return Rejected;
      }
      if o.state.Installed? {
        return Done(o);
      }
      if a.bytes <= 0 || a.bytes > setup.limit || a.part * CHUNK_BYTES >= a.bytes
         || |a.data| != ChunkSize(a.bytes, a.part) || (o.transferBytes != 0 && o.transferBytes != a.bytes) {
        return Rejected;
      }
      if a.part > o.nextPart || (o.digest != "" && a.digest != "" && o.digest != a.digest) {
        return Rejected;
      }
      if a.digest != "" {
        o := o.(digest := a.digest);
      }
      var key := (a.moveId, a.part);
      if key in chunks {
        if a.part < |o.chunkDigests| && o.chunkDigests[a.part] != "" && setup.codec.digest(chunks[key]) != o.chunkDigests[a.part] {
          return Fault;
        }
        if chunks[key] != a.data {
          return Rejected;
        }
      } else if a.part < o.nextPart {
        return Fault;
      }
      chunks := chunks[key := a.data];
      var digests := o.chunkDigests;
      while |digests| <= a.part
        invariant digests == o.chunkDigests + seq(|digests| - |o.chunkDigests|, _ => "")
        invariant |digests| == |o.chunkDigests| || |digests| <= a.part + 1
      {
        digests := digests + [""];
      }
      digests := digests[a.part := setup.codec.digest(a.data)];
      o := o.(transferBytes := a.bytes, chunkDigests := digests);
      if a.part == o.nextPart {
        o := o.(nextPart := o.nextPart + 1);
      }
      owner := o;
      reply := Done(o);
    }

    /** installTenantTransfer: everything is checked before the tenant is replaced. */
    method InstallTransfer(a: OwnerAction, buffer: nat) returns (r: Result)
      requires buffer > 0
      modifies this
      ensures r == ReadTransfer(setup, old(View()), a)
      ensures View() == if r.Read? then Node(old(owner), map[], Some(r.content)) else old(View())
    {
      var o := owner;
      if a.bytes <= 0 || a.bytes > setup.limit || a.parts <= 0 || a.parts != PartCount(a.bytes) {
        return Invalid;
      }
      if o.nextPart != a.parts || (o.transferBytes != 0 && o.transferBytes != a.bytes) || (o.digest != "" && o.digest != a.digest) {
        return Invalid;
      }
      if |o.chunkDigests| != a.parts || "" in o.chunkDigests {
        return Invalid;
      }
      var reader := new RestoreReader(Source(setup.codec, chunks, a.moveId, o.chunkDigests, a.bytes));
      var bytes := reader.ReadAll(buffer);
      if bytes.None? {
        return Broken;
      }
      if |bytes.value| != a.bytes || setup.codec.digest(bytes.value) != a.digest {
        return Invalid;
      }
      var t := setup.codec.decode(bytes.value);
      if t.None? || t.value.tenant != setup.tenant || t.value.moveId != a.moveId || t.value.content.accepted != [] {
        return Invalid;
      }
      content := Some(t.value.content);
      chunks := map[];
      r := Read(t.value.content);
    }

    method Install(a: OwnerAction) returns (reply: Reply)
      modifies this
      ensures Outcome(View(), reply) == ApplyInstall(setup, old(View()), a)
    {
      var o := owner;
      if Matches(o, a) && (o.state.Installed? || o.state.Active?) {
        if o.digest != a.digest {
          return Rejected;
        }
        return Done(o);
      }
      if !Matches(o, a) || !o.state.Importing? {
        return Rejected;
      }
      var r := InstallTransfer(a, 32768);
      match r
      case Invalid => return Rejected;
      case Broken => return Fault;
      case Read(_) =>
        owner := o.(state := Installed, digest := a.digest, chunkDigests := []);
        reply := Done(owner);
    }

    /** applyOwnership. */
    method Apply(a: OwnerAction) returns (reply: Reply)
      modifies this
      ensures Outcome(View(), reply) == ApplyOwnership(setup, old(View()), a)
    {
      if a.epoch == 0 || (!a.op.Own? && !ValidIdentifier(a.moveId)) {
        return Rejected;
      }
      var o := owner;
      var same := Matches(o, a);
      match a.op {
        case Own =>
          if o.epoch != 0 && (o.epoch != a.epoch || !o.state.Active?) {
            return Rejected;
          }
          o := Record(a.epoch, Active, "");
        case Reserve =>
          if same && (o.state.Importing? || o.state.Installed? || o.state.Active?) {
            return Done(o);
          }
          if o.epoch >= a.epoch || (o.epoch > 0 && !o.state.Retired?) {
            return Rejected;
          }
          if o.epoch == 0 && content.Some? {
            return Rejected;
          }
          o := Record(a.epoch, Importing, a.moveId);
        case Freeze =>
          if same && o.state.Frozen? {
            return Done(o);
          }
          if o.epoch != a.epoch || !o.state.Active? {
            return Rejected;
          }
          if content.Some? && !Drained(content.value) {
            return Rejected;
          }
          o := o.(state := Frozen, moveId := a.moveId);
        case Activate =>
          if !same || (!o.state.Installed? && !o.state.Active?) {
            return Rejected;
          }
          o := o.(state := Active);
        case Thaw =>
          if same && o.state.Active? {
            return Done(o);
          }
          if o.epoch + 1 != a.epoch || (!o.state.Active? && !(o.state.Frozen? && o.moveId == a.moveId)) {
            return Rejected;
          }
          o := Record(a.epoch, Active, a.moveId);
        case Retire =>
          if same && o.state.Retired? {
            return Done(o);
          }
          if !same || !o.state.Frozen? {
            return Rejected;
          }
          RemoveTenant();
          o := o.(state := Retired);
        case Discard =>
          if o.epoch > a.epoch || (o.epoch > 0 && !same) {
            return Done(o);
          }
          if o.state.Active? && same {
            return Rejected;
          }
          if same && (o.state.Installed? || o.state.Importing?) {
            RemoveTenant();
          }
          o := Record(a.epoch, Retired, a.moveId);
        case Stage =>
          reply := Stage(a);
          return;
        case Install =>
          reply := Install(a);
          return;
      }
      owner := o;
      reply := Done(o);
    }
  }

  // ---------- the copy loop of one coordinator pass ----------

  /** copyTenantMove against a target that reserved this move: at most eight parts are staged in one
      pass, and the transfer is installed as soon as all are there. A pass that is interrupted, and
      taken up by another coordinator from the record it finds, loses nothing. */
  method CopyTenantMove(target: ShardApplication, move: string, epoch: Epoch, payload: Bytes) returns (installed: bool)
    requires ValidIdentifier(move) && epoch > 0 && Faithful(target.setup.codec)
    requires 0 < |payload| <= target.setup.limit
    requires target.owner.state.Importing? && target.owner.epoch == epoch && target.owner.moveId == move
    requires Staged(target.setup.codec, target.View()) && Carries(target.View(), payload)
    requires target.owner.digest in {"", target.setup.codec.digest(payload)}
    requires var t := target.setup.codec.decode(payload);
      t.Some? && t.value.tenant == target.setup.tenant && t.value.moveId == move && t.value.content.accepted == []
    modifies target
    ensures Staged(target.setup.codec, target.View())
    ensures installed <==> PartCount(|payload|) <= old(target.owner.nextPart) + 8
    ensures installed ==> target.owner.state.Installed? && target.content == Some(target.setup.codec.decode(payload).value.content)
    ensures !installed ==>
      && target.owner.state.Importing? && Carries(target.View(), payload)
      && target.owner.nextPart == old(target.owner.nextPart) + 8
    ensures target.owner.epoch == epoch && target.owner.moveId == move
  {
    var digest := target.setup.codec.digest(payload);
    var parts := PartCount(|payload|);
    var end := Min(parts, target.owner.nextPart + 8);
    var part := target.owner.nextPart;
    while part < end
      invariant target.owner.nextPart <= end && part == target.owner.nextPart
      invariant Staged(target.setup.codec, target.View()) && Carries(target.View(), payload)
      invariant target.owner.state.Importing? && target.owner.epoch == epoch && target.owner.moveId == move
      invariant target.owner.digest in {"", digest}
    {
      assert part * CHUNK_BYTES < |payload|;
      var a := OwnerAction(OwnerOp.Stage, epoch, move, part, 0, |payload|, digest, Slice(payload, part));
      ghost var before := target.View();
      StageKeepsStaged(target.setup, before, a);
      StageCarries(target.setup, before, a, payload);
      var _ := target.Apply(a);
      part := part + 1;
    }
    if end < parts {
      return false;
    }
    var a := OwnerAction(OwnerOp.Install, epoch, move, 0, parts, |payload|, digest, []);
    ghost var before := target.View();
    InstallIsExact(target.setup, before, a);
    SlicesTile(before, payload, 0);
    ActionKeepsStaged(target.setup, before, a);
    assert payload[0..] == payload;
    var _ := target.Apply(a);
    return true;
  }
}
