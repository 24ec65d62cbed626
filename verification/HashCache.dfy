/** The logical hash cache: entry hashes in blocks per category, a digest per block, the total size of the
    hashed values and the digest over all blocks. Graphs copied from each other share blocks
    (internal/graph/content_hash_cache.go, content_hash_stream.go). */
module HashCaches {
  import opened CopyOnWrites
  import opened GraphModel
  import opened Fingerprints
  import opened Schemas
  import opened StringOrder

  const BLOCKS: nat := 256

  type Index = x: nat | x < BLOCKS

  datatype Hashed = Hashed(digest: string, bytes: nat)

  datatype Block = Block(entries: map<string, Hashed>, digest: string)

  const EMPTY_BLOCK := Block(map[], "")

  /** The blocks of one category that have entries. */
  type Blocks = Shared<Index, Block>

  /** How values are hashed, how keys are spread and how a block's digests are combined. */
  datatype Hashing<!V> = Hashing(entry: (string, V) -> Hashed, shardOf: string -> Index, combine: seq<string> -> string)

  /** The hashes of the values of one shard. */
  function EntriesOf<V>(h: Hashing<V>, values: map<string, V>, i: Index): map<string, Hashed> {
    map k | k in values && h.shardOf(k) == i :: h.entry(k, values[k])
  }

  function Digests(entries: map<string, Hashed>, keys: seq<string>): seq<string>
    requires forall k :: k in keys ==> k in entries
  {
    if keys == [] then [] else assert keys[0] in keys; [entries[keys[0]].digest] + Digests(entries, keys[1..])
  }

  /** The digest of a block: those of its entries in key order. */
  ghost function DigestOf<V>(h: Hashing<V>, entries: map<string, Hashed>): string {
    h.combine(Digests(entries, Sorted(entries.Keys)))
  }

  /** What a fresh build holds. */
  ghost predicate AreBlocks<V>(h: Hashing<V>, values: map<string, V>, blocks: map<Index, Block>) {
    forall i: Index ::
      && EntriesIn(blocks, i) == EntriesOf(h, values, i)
      && (i in blocks ==> blocks[i].entries != map[] && blocks[i].digest == DigestOf(h, blocks[i].entries))
  }

  function EntriesIn(blocks: map<Index, Block>, i: Index): map<string, Hashed> {
    if i in blocks then blocks[i].entries else map[]
  }

  /** Blocks are determined by the values. */
  lemma BlocksAreUnique<V>(h: Hashing<V>, values: map<string, V>, a: map<Index, Block>, b: map<Index, Block>)
    requires AreBlocks(h, values, a) && AreBlocks(h, values, b)
    ensures a == b
  {
    hide EntriesOf, DigestOf;
    forall i: Index ensures (i in a <==> i in b) && (i in a ==> a[i] == b[i]) {
      assert EntriesIn(a, i) == EntriesIn(b, i);
    }
  }

  // ---------- the size ----------

  ghost function Size<V>(h: Hashing<V>, values: map<string, V>): nat
    decreases |values|
  {
    if values == map[] then 0
    else
      var k :| k in values;
      Size(h, values - {k}) + h.entry(k, values[k]).bytes
  }

  function SizeAt<V>(h: Hashing<V>, values: map<string, V>, key: string): nat {
    if key in values then h.entry(key, values[key]).bytes else 0
  }

  lemma {:induction false} SizeWithout<V>(h: Hashing<V>, values: map<string, V>, key: string)
    ensures Size(h, values) == Size(h, values - {key}) + SizeAt(h, values, key)
    decreases |values|
  {
    if key in values {
      var k :| k in values && Size(h, values) == Size(h, values - {k}) + h.entry(k, values[k]).bytes;
      if k != key {
        SizeWithout(h, values - {k}, key);
        SizeWithout(h, values - {key}, k);
        assert values - {k} - {key} == values - {key} - {k};
      }
    } else {
      assert values - {key} == values;
    }
  }

  lemma SizeStep<V>(h: Hashing<V>, a: map<string, V>, b: map<string, V>, key: string)
    requires DifferAt(a, b, key)
    ensures Size(h, a) - SizeAt(h, a, key) + SizeAt(h, b, key) == Size(h, b)
  {
    SizeWithout(h, a, key);
    SizeWithout(h, b, key);
    assert a - {key} == b - {key};
  }

  // ---------- one category ----------

  /** The blocks are those of a fresh build, and those of the graph this one was copied from are as they
      were. */
  ghost predicate Caches<V>(h: Hashing<V>, x: Blocks, seen: map<Index, Block>, values: map<string, V>) {
    Sound(x) && x.apart && Seen(x) == seen && AreBlocks(h, values, View(x))
  }

  /** The entries are those of the values; the digests of the blocks in `behind` may be old. */
  ghost predicate Holds<V>(h: Hashing<V>, x: Blocks, seen: map<Index, Block>, values: map<string, V>, behind: set<Index>) {
    && Sound(x) && x.apart && Seen(x) == seen
    && (forall i: Index :: EntriesIn(View(x), i) == EntriesOf(h, values, i))
    && (forall i: Index :: i in behind ==> MayWrite(x, i))
    && (forall i: Index :: i in View(x) && i !in behind ==> View(x)[i].entries != map[] && View(x)[i].digest == DigestOf(h, View(x)[i].entries))
  }

  /** What replacing one key makes of a block. */
  function Replaced<V>(h: Hashing<V>, entries: map<string, Hashed>, key: string, now: map<string, V>): map<string, Hashed> {
    if key in now then entries[key := h.entry(key, now[key])] else entries - {key}
  }

  lemma EntriesStep<V>(h: Hashing<V>, before: map<string, V>, after: map<string, V>, key: string, i: Index)
    requires DifferAt(before, after, key)
    ensures EntriesOf(h, after, i) == if h.shardOf(key) == i then Replaced(h, EntriesOf(h, before, i), key, after) else EntriesOf(h, before, i)
  {
  }

  lemma EntryAt<V>(h: Hashing<V>, values: map<string, V>, key: string)
    ensures var entries := EntriesOf(h, values, h.shardOf(key));
      (if key in entries then entries[key].bytes else 0) == SizeAt(h, values, key)
  {
  }

  /** The writable block of a key, copied when it is not yet this refresh's own, with the key replaced. */
  function ReplaceIn<V>(h: Hashing<V>, x: Blocks, key: string, now: map<string, V>): Blocks {
    var i := h.shardOf(key);
    var y := Writable(x, i, EMPTY_BLOCK);
    Written(y, i, Block(Replaced(h, EntriesIn(View(y), i), key, now), ""))
  }

  lemma ReplaceHolds<V>(h: Hashing<V>, x: Blocks, seen: map<Index, Block>, before: map<string, V>, after: map<string, V>, behind: set<Index>, key: string, now: map<string, V>)
    requires Holds(h, x, seen, before, behind) && DifferAt(before, after, key)
    requires (key in after <==> key in now) && (key in now ==> after[key] == now[key])
    ensures Holds(h, ReplaceIn(h, x, key, now), seen, after, behind + {h.shardOf(key)})
  {
    var i := h.shardOf(key);
    hide Sound, Seen, View, DigestOf, EntriesOf, MayWrite, ReplaceIn, DifferAt;
    ReplaceInIs(h, x, key, now);
    WritableIsMine(x);
    var z := ReplaceIn(h, x, key, now);
    forall j: Index ensures EntriesOf(h, after, j) == if i == j then Replaced(h, EntriesOf(h, before, j), key, now) else EntriesOf(h, before, j) {
      EntriesStep(h, before, after, key, j);
    }
    hide Replaced;
    forall j: Index | j != i ensures (j in View(z) <==> j in View(x)) && (j in View(x) ==> View(z)[j] == View(x)[j]) {
    }
  }

  lemma ReplaceInIs<V>(h: Hashing<V>, x: Blocks, key: string, now: map<string, V>)
    requires Sound(x) && x.apart
    ensures var i, y := h.shardOf(key), ReplaceIn(h, x, key, now);
      && Sound(y) && y.apart && Seen(y) == Seen(x)
      && (exists block :: View(y) == View(x)[i := block] && block.entries == Replaced(h, EntriesIn(View(x), i), key, now))
      && (forall j :: j in x.mine && MayWrite(x, j) ==> MayWrite(y, j)) && MayWrite(y, i)
  {
    hide Sound, Seen, View, Writable, Written, MayWrite, Replaced;
    var i := h.shardOf(key);
    WritableIs(x, i, EMPTY_BLOCK);
    WritableKeeps(x, i, EMPTY_BLOCK);
    var y := Writable(x, i, EMPTY_BLOCK);
    var content := Block(Replaced(h, EntriesIn(View(y), i), key, now), "");
    WrittenIs(y, i, content);
    WrittenKeeps(y, i, content);
    WritableIsMine(x);
    WritableIsMine(y);
    WritableMine(x, i, EMPTY_BLOCK);
    assert View(Written(y, i, content)) == View(x)[i := content];
  }

  lemma WritableMine<K, V>(x: Shared<K, V>, key: K, empty: V)
    ensures forall k :: k in x.mine ==> k in Writable(x, key, empty).mine
  {
  }

  lemma WritableKeeps<K, V>(x: Shared<K, V>, key: K, empty: V)
    ensures forall k :: k in x.mine && MayWrite(x, k) ==> MayWrite(Writable(x, key, empty), k)
    ensures MayWrite(Writable(x, key, empty), key)
  {
  }

  lemma WrittenKeeps<K, V>(x: Shared<K, V>, key: K, content: V)
    ensures forall k :: k in x.mine && MayWrite(x, k) ==> MayWrite(Written(x, key, content), k)
  {
  }

  /** rehash. */
  method Rehash<V>(h: Hashing<V>, entries: map<string, Hashed>) returns (digest: string)
    ensures digest == DigestOf(h, entries)
  {
    var keys := SortSet(entries.Keys);
    assert forall k :: k in keys ==> k in entries.Keys;
    digest := h.combine(Digests(entries, keys));
  }

  /** The last loop: the digests of the blocks written, and no block where no entry is left. */
  method RehashAll<V>(h: Hashing<V>, x: Blocks, written: set<Index>, ghost seen: map<Index, Block>, ghost values: map<string, V>) returns (y: Blocks)
    requires Holds(h, x, seen, values, written)
    ensures Caches(h, y, seen, values)
  {
    hide Sound, Seen, View, DigestOf, EntriesOf, Holds;
    y := x;
    var todo := written;
    while todo != {}
      invariant todo <= written && Holds(h, y, seen, values, todo)
      decreases todo
    {
      var i :| i in todo;
      y := RehashOne(h, y, i, todo, seen, values);
      todo := todo - {i};
    }
    AllRehashed(h, y, seen, values);
  }

  lemma AllRehashed<V>(h: Hashing<V>, x: Blocks, seen: map<Index, Block>, values: map<string, V>)
    requires Holds(h, x, seen, values, {})
    ensures Caches(h, x, seen, values)
  {
    hide Sound, Seen, View, DigestOf, EntriesOf;
  }

  method RehashOne<V>(h: Hashing<V>, x: Blocks, i: Index, todo: set<Index>, ghost seen: map<Index, Block>, ghost values: map<string, V>) returns (y: Blocks)
    requires Holds(h, x, seen, values, todo) && i in todo
    ensures Holds(h, y, seen, values, todo - {i})
  {
    hide Sound, Seen, View, DigestOf, EntriesOf, Written, Left, MayWrite;
    var entries := EntriesIn(View(x), i);
    if entries == map[] {
      y := Left(x, i);
      LeftIs(x, i);
      LeftKeeps(x, i);
    } else {
      var digest := Rehash(h, entries);
      y := Written(x, i, Block(entries, digest));
      WrittenIs(x, i, Block(entries, digest));
      WrittenKeeps(x, i, Block(entries, digest));
      WritableIsMine(x);
    }
  }

  lemma WritableIsMine<K, V>(x: Shared<K, V>)
    ensures forall k :: MayWrite(x, k) ==> k in x.mine
  {
  }

  lemma LeftKeeps<K, V>(x: Shared<K, V>, key: K)
    ensures forall k :: k in x.mine && k != key && MayWrite(x, k) ==> MayWrite(Left(x, key), k)
    ensures forall k :: MayWrite(x, k) ==> k in x.mine
  {
  }

  /** buildLogicalHashCache for one category. */
  method BuildCategory<V(!new)>(h: Hashing<V>, values: map<string, V>) returns (x: Blocks, size: int)
    ensures Caches(h, x, map[], values) && size == Size(h, values)
  {
    x, size := Unshared(), 0;
    var written: set<Index> := {};
    ghost var done: map<string, V> := map[];
    NothingHeld(h);
    hide Holds, ReplaceIn, Replaced, Size, EntriesOf, Caches;
    var todo := values.Keys;
    while todo != {}
      invariant todo <= values.Keys && done == values - todo && size == Size(h, done) && Holds(h, x, map[], done, written)
      decreases todo
    {
      var key :| key in todo;
      ghost var next := done[key := values[key]];
      ReplaceHolds(h, x, map[], done, next, written, key, values);
      SizeStep(h, done, next, key);
      x := ReplaceIn(h, x, key, values);
      size := size + h.entry(key, values[key]).bytes;
      written, todo, done := written + {h.shardOf(key)}, todo - {key}, next;
    }
    assert done == values;
    x := RehashAll(h, x, written, map[], values);
  }

  lemma NothingHeld<V>(h: Hashing<V>)
    ensures Holds(h, Unshared<Index, Block>(), map[], map[], {}) && Size<V>(h, map[]) == 0
  {
    assert View(Unshared<Index, Block>()) == map[];
  }

  /** A refresh owns no block yet: what an earlier one copied may be shared by now. */
  function Disowned(x: Blocks): Blocks {
    x.(copying := true, owned := {})
  }

  lemma DisownedHolds<V>(h: Hashing<V>, x: Blocks, seen: map<Index, Block>, values: map<string, V>)
    requires Caches(h, x, seen, values)
    ensures Holds(h, Disowned(x), seen, values, {})
  {
    assert View(Disowned(x)) == View(x) && Seen(Disowned(x)) == Seen(x);
    hide View, Seen, DigestOf, EntriesOf;
  }

  /** The values with those of the touched keys as they are now. */
  ghost function Refreshed<V>(before: map<string, V>, now: map<string, V>, touched: set<string>): map<string, V> {
    Between(now, before, touched)
  }

  lemma RefreshedStep<V>(before: map<string, V>, now: map<string, V>, touched: set<string>, todo: set<string>, key: string)
    requires key in todo && todo <= touched
    ensures var a, b := Refreshed(before, now, touched - todo), Refreshed(before, now, touched - (todo - {key}));
      DifferAt(a, b, key) && (key in b <==> key in now) && (key in now ==> b[key] == now[key])
  {
  }

  lemma RefreshedNone<V>(before: map<string, V>, now: map<string, V>)
    ensures Refreshed(before, now, {}) == before
  {
  }

  /** refreshLogicalHashCache for one category: only touched keys are looked at and only their blocks
      copied and rehashed. */
  method RefreshCategory<V(!new)>(h: Hashing<V>, x: Blocks, touched: set<string>, now: map<string, V>, bytes: int,
      ghost seen: map<Index, Block>, ghost before: map<string, V>) returns (y: Blocks, total: int)
    requires Caches(h, x, seen, before)
    ensures Caches(h, y, seen, Refreshed(before, now, touched))
    ensures total == bytes - Size(h, before) + Size(h, Refreshed(before, now, touched))
  {
    hide Holds, ReplaceIn, Replaced, Size, EntriesOf, Caches, Refreshed, Disowned, View;
    y, total := Disowned(x), bytes;
    DisownedHolds(h, x, seen, before);
    RefreshedNone(before, now);
    var written: set<Index> := {};
    var todo := touched;
    assert touched - todo == {};
    while todo != {}
      invariant todo <= touched && Holds(h, y, seen, Refreshed(before, now, touched - todo), written)
      invariant total == bytes - Size(h, before) + Size(h, Refreshed(before, now, touched - todo))
      decreases todo
    {
      var key :| key in todo;
      ghost var held, next := Refreshed(before, now, touched - todo), Refreshed(before, now, touched - (todo - {key}));
      RefreshedStep(before, now, touched, todo, key);
      HeldBytes(h, y, seen, held, written, key);
      SizeStep(h, held, next, key);
      ReplaceHolds(h, y, seen, held, next, written, key, now);
      var entries := EntriesIn(View(y), h.shardOf(key));
      total := total - (if key in entries then entries[key].bytes else 0) + if key in now then h.entry(key, now[key]).bytes else 0;
      y := ReplaceIn(h, y, key, now);
      written, todo := written + {h.shardOf(key)}, todo - {key};
    }
    assert touched - {} == touched;
    y := RehashAll(h, y, written, seen, Refreshed(before, now, touched));
  }

  lemma HeldBytes<V>(h: Hashing<V>, x: Blocks, seen: map<Index, Block>, values: map<string, V>, behind: set<Index>, key: string)
    requires Holds(h, x, seen, values, behind)
    ensures var entries := EntriesIn(View(x), h.shardOf(key)); (if key in entries then entries[key].bytes else 0) == SizeAt(h, values, key)
  {
    EntryAt(h, values, key);
  }

  // ---------- the cache of a graph ----------

  datatype Hashings = Hashings(types: Hashing<CIType>, entities: Hashing<Entity>, relations: Hashing<RelationType>, edges: Hashing<Edge>, final: seq<Option<string>> -> string)

  /** logicalHashCache. `digest` is that over all blocks once `ready`. */
  datatype LogicalCache = LogicalCache(types: Blocks, entities: Blocks, relations: Blocks, edges: Blocks, bytes: int, digest: string, ready: bool)

  /** The blocks of the graph this one was copied from. */
  datatype CacheView = CacheView(types: map<Index, Block>, entities: map<Index, Block>, relations: map<Index, Block>, edges: map<Index, Block>)

  const NO_BLOCKS := CacheView(map[], map[], map[], map[])

  function CacheViews(c: LogicalCache): CacheView {
    CacheView(View(c.types), View(c.entities), View(c.relations), View(c.edges))
  }

  /** shareLogicalHashCache: the struct is copied, the blocks are shared. */
  function ShareCache(c: LogicalCache): LogicalCache {
    c.(types := Fork(c.types, true), entities := Fork(c.entities, true), relations := Fork(c.relations, true), edges := Fork(c.edges, true))
  }

  function DigestList(blocks: map<Index, Block>): seq<Option<string>> {
    seq(BLOCKS, i requires 0 <= i < BLOCKS => if i in blocks then Some(blocks[i].digest) else None)
  }

  /** ContentHash: over the digests of all blocks, category by category. */
  function FinalDigest(h: Hashings, v: CacheView): string {
    h.final(DigestList(v.types) + DigestList(v.entities) + DigestList(v.relations) + DigestList(v.edges))
  }

  ghost function TotalSize(h: Hashings, types: Types, entities: Entities, relations: RelationTypes, edges: Edges): int {
    Size(h.types, types) + Size(h.entities, entities) + Size(h.relations, relations) + Size(h.edges, edges)
  }

  /** The cache is that of a fresh build over the four categories, its size and digest included. */
  ghost predicate CacheFor(h: Hashings, c: LogicalCache, seen: CacheView, types: Types, entities: Entities, relations: RelationTypes, edges: Edges) {
    && Caches(h.types, c.types, seen.types, types)
    && Caches(h.entities, c.entities, seen.entities, entities)
    && Caches(h.relations, c.relations, seen.relations, relations)
    && Caches(h.edges, c.edges, seen.edges, edges)
    && c.bytes == TotalSize(h, types, entities, relations, edges)
    && (c.ready ==> c.digest == FinalDigest(h, CacheViews(c)))
  }

  lemma ShareCaches<V>(h: Hashing<V>, x: Blocks, seen: map<Index, Block>, values: map<string, V>)
    requires Caches(h, x, seen, values)
    ensures Caches(h, Fork(x, true), View(x), values) && View(Fork(x, true)) == View(x)
  {
    ForkIsSound(x, true);
    hide View, Seen, DigestOf, EntriesOf, Sound;
  }

  lemma SharedCacheFor(h: Hashings, c: LogicalCache, seen: CacheView, types: Types, entities: Entities, relations: RelationTypes, edges: Edges)
    requires CacheFor(h, c, seen, types, entities, relations, edges)
    ensures CacheFor(h, ShareCache(c), CacheViews(c), types, entities, relations, edges)
  {
    hide Caches, TotalSize, Fork, View, FinalDigest;
    ShareCaches(h.types, c.types, seen.types, types);
    ShareCaches(h.entities, c.entities, seen.entities, entities);
    ShareCaches(h.relations, c.relations, seen.relations, relations);
    ShareCaches(h.edges, c.edges, seen.edges, edges);
  }

  /** Two graphs of the same values have the same digest and size, however their caches came about. */
  lemma HashIsUnique(h: Hashings, c: LogicalCache, seen: CacheView, d: LogicalCache, other: CacheView, types: Types, entities: Entities, relations: RelationTypes, edges: Edges)
    requires CacheFor(h, c, seen, types, entities, relations, edges) && CacheFor(h, d, other, types, entities, relations, edges)
    ensures c.bytes == d.bytes && CacheViews(c) == CacheViews(d) && (c.ready && d.ready ==> c.digest == d.digest)
  {
    hide AreBlocks, View, Seen, Sound, TotalSize, FinalDigest;
    BlocksAreUnique(h.types, types, View(c.types), View(d.types));
    BlocksAreUnique(h.entities, entities, View(c.entities), View(d.entities));
    BlocksAreUnique(h.relations, relations, View(c.relations), View(d.relations));
    BlocksAreUnique(h.edges, edges, View(c.edges), View(d.edges));
  }

  /** buildLogicalHashCache. */
  method BuildCache(h: Hashings, types: Types, entities: Entities, relations: RelationTypes, edges: Edges) returns (c: LogicalCache)
    ensures CacheFor(h, c, NO_BLOCKS, types, entities, relations, edges)
  {
    hide Caches, Size;
    var a, m := BuildCategory(h.types, types);
    var b, n := BuildCategory(h.entities, entities);
    var d, o := BuildCategory(h.relations, relations);
    var e, p := BuildCategory(h.edges, edges);
    c := LogicalCache(a, b, d, e, m + n + o + p, "", false);
  }

  /** refreshLogicalHashCache: category by category, whichever keys were touched. */
  method RefreshCache(h: Hashings, c: LogicalCache,
      touchedTypes: set<string>, touchedEntities: set<string>, touchedRelations: set<string>, touchedEdges: set<string>,
      types: Types, entities: Entities, relations: RelationTypes, edges: Edges,
      ghost seen: CacheView, ghost types0: Types, ghost entities0: Entities, ghost relations0: RelationTypes, ghost edges0: Edges) returns (next: LogicalCache)
    requires CacheFor(h, c, seen, types0, entities0, relations0, edges0)
    ensures CacheFor(h, next, seen, Refreshed(types0, types, touchedTypes), Refreshed(entities0, entities, touchedEntities),
              Refreshed(relations0, relations, touchedRelations), Refreshed(edges0, edges, touchedEdges))
  {
    hide Caches, Size, Refreshed, FinalDigest;
    var a, b, d, e, total;
    a, total := RefreshCategory(h.types, c.types, touchedTypes, types, c.bytes, seen.types, types0);
    b, total := RefreshCategory(h.entities, c.entities, touchedEntities, entities, total, seen.entities, entities0);
    d, total := RefreshCategory(h.relations, c.relations, touchedRelations, relations, total, seen.relations, relations0);
    e, total := RefreshCategory(h.edges, c.edges, touchedEdges, edges, total, seen.edges, edges0);
    next := LogicalCache(a, b, d, e, total, "", false);
  }

  /** What readers of the graph the cache was shared with find. */
  ghost function SeenBlocks(c: LogicalCache): CacheView {
    CacheView(Seen(c.types), Seen(c.entities), Seen(c.relations), Seen(c.edges))
  }

  lemma CacheForIsolates(h: Hashings, c: LogicalCache, seen: CacheView, types: Types, entities: Entities, relations: RelationTypes, edges: Edges)
    requires CacheFor(h, c, seen, types, entities, relations, edges)
    ensures SeenBlocks(c) == seen
  {
    hide AreBlocks, Sound, TotalSize, View, Seen;
  }

  /** Equal entries give equal blocks. */
  ghost predicate SameEntries<V(!new)>(h: Hashing<V>, a: map<string, V>, b: map<string, V>) {
    forall k :: (k in a <==> k in b) && (k in a ==> h.entry(k, a[k]) == h.entry(k, b[k]))
  }

  lemma SameEntriesCached<V(!new)>(h: Hashing<V>, x: Blocks, seen: map<Index, Block>, a: map<string, V>, b: map<string, V>)
    requires Caches(h, x, seen, a) && SameEntries(h, a, b)
    ensures Caches(h, x, seen, b)
  {
    hide EntriesOf, SameEntries, View, Seen, Sound, DigestOf, EntriesIn;
    forall i: Index ensures EntriesOf(h, a, i) == EntriesOf(h, b, i) {
      SameEntriesIn(h, a, b, i);
    }
  }

  lemma SameEntriesIn<V(!new)>(h: Hashing<V>, a: map<string, V>, b: map<string, V>, i: Index)
    requires SameEntries(h, a, b)
    ensures EntriesOf(h, a, i) == EntriesOf(h, b, i)
  {
  }

  lemma {:induction false} SameEntriesSize<V(!new)>(h: Hashing<V>, a: map<string, V>, b: map<string, V>)
    requires SameEntries(h, a, b)
    ensures Size(h, a) == Size(h, b)
    decreases |a|
  {
    if a == map[] {
      assert b == map[];
    } else {
      var k :| k in a;
      SizeWithout(h, a, k);
      SizeWithout(h, b, k);
      SameEntriesSize(h, a - {k}, b - {k});
    }
  }

  /** A key that a cache lacks or has too much shows. */
  lemma OtherKeysShow<V(!new)>(h: Hashing<V>, x: Blocks, seen: map<Index, Block>, a: map<string, V>, b: map<string, V>, key: string)
    requires Caches(h, x, seen, a) && key in b && key !in a
    ensures !Caches(h, x, seen, b)
  {
    hide View, Seen, Sound, DigestOf;
    var i := h.shardOf(key);
    assert key in EntriesOf(h, b, i) && key !in EntriesOf(h, a, i);
  }
}
