/** What equal content hashes mean: graphs of the same logical content (internal/graph/content_hash_cache.go,
    content_hash_stream.go). */
module HashMeanings {
  import opened GraphModel
  import opened CopyOnWrites
  import opened Schemas
  import opened HashCaches
  import opened StringOrder

  /** Digests of entries name key and content, and digests of blocks what they were combined from. */
  ghost predicate Names<V(!new)>(h: Hashing<V>) {
    && (forall k, j, a: V, b: V :: h.entry(k, a).digest == h.entry(j, b).digest ==> k == j && h.entry(k, a) == h.entry(j, b))
    && (forall x, y :: h.combine(x) == h.combine(y) ==> x == y)
  }

  ghost predicate AllName(h: Hashings) {
    && Names(h.types) && Names(h.entities) && Names(h.relations) && Names(h.edges)
    && forall x, y :: h.final(x) == h.final(y) ==> x == y
  }

  lemma {:induction false} DigestsAt(entries: map<string, Hashed>, keys: seq<string>)
    requires forall k :: k in keys ==> k in entries
    ensures |Digests(entries, keys)| == |keys|
    ensures forall i :: 0 <= i < |keys| ==> keys[i] in entries && Digests(entries, keys)[i] == entries[keys[i]].digest
    decreases |keys|
  {
    if keys != [] {
      assert keys[0] in keys && forall k :: k in keys[1..] ==> k in keys;
      DigestsAt(entries, keys[1..]);
      forall i | 0 <= i < |keys| ensures keys[i] in entries && Digests(entries, keys)[i] == entries[keys[i]].digest {
        if i > 0 {
          assert keys[i] == keys[1..][i - 1];
        }
      }
    }
  }

  /** An entry of one block is one of another with the same digest. */
  lemma EntryCarries<V(!new)>(h: Hashing<V>, a: map<string, V>, b: map<string, V>, i: Index, k: string)
    requires Names(h) && k in EntriesOf(h, a, i)
    requires DigestOf(h, EntriesOf(h, a, i)) == DigestOf(h, EntriesOf(h, b, i))
    ensures k in EntriesOf(h, b, i) && EntriesOf(h, a, i)[k] == EntriesOf(h, b, i)[k]
  {
    var x, y := EntriesOf(h, a, i), EntriesOf(h, b, i);
    var keys, others := Sorted(x.Keys), Sorted(y.Keys);
    DigestsAt(x, keys);
    DigestsAt(y, others);
    assert k in keys;
    var n :| 0 <= n < |keys| && keys[n] == k;
    assert Digests(x, keys)[n] == Digests(y, others)[n];
    var j := others[n];
    assert j in others;
    assert h.entry(k, a[k]).digest == h.entry(j, b[j]).digest;
  }

  lemma SameBlocks<V(!new)>(h: Hashing<V>, a: map<string, V>, b: map<string, V>, x: map<Index, Block>, y: map<Index, Block>)
    requires Names(h) && AreBlocks(h, a, x) && AreBlocks(h, b, y) && DigestList(x) == DigestList(y)
    ensures SameEntries(h, a, b)
  {
    forall k ensures (k in a <==> k in b) && (k in a ==> h.entry(k, a[k]) == h.entry(k, b[k])) {
      var i := h.shardOf(k);
      assert DigestList(x)[i] == DigestList(y)[i];
      BlockCarries(h, a, b, x, y, i, k);
      BlockCarries(h, b, a, y, x, i, k);
    }
  }

  lemma BlockCarries<V(!new)>(h: Hashing<V>, a: map<string, V>, b: map<string, V>, x: map<Index, Block>, y: map<Index, Block>, i: Index, k: string)
    requires Names(h) && AreBlocks(h, a, x) && AreBlocks(h, b, y) && (i in x <==> i in y) && (i in x ==> x[i].digest == y[i].digest)
    requires h.shardOf(k) == i
    ensures k in a ==> k in b && h.entry(k, a[k]) == h.entry(k, b[k])
  {
    hide DigestOf, Names;
    assert EntriesIn(x, i) == EntriesOf(h, a, i) && EntriesIn(y, i) == EntriesOf(h, b, i);
    if k in a {
      assert k in EntriesOf(h, a, i);
      EntryCarries(h, a, b, i, k);
    }
  }

  lemma ListsApart(a: CacheView, b: CacheView)
    requires DigestList(a.types) + DigestList(a.entities) + DigestList(a.relations) + DigestList(a.edges)
          == DigestList(b.types) + DigestList(b.entities) + DigestList(b.relations) + DigestList(b.edges)
    ensures DigestList(a.types) == DigestList(b.types) && DigestList(a.entities) == DigestList(b.entities)
    ensures DigestList(a.relations) == DigestList(b.relations) && DigestList(a.edges) == DigestList(b.edges)
  {
    TwoApart(DigestList(a.types) + DigestList(a.entities) + DigestList(a.relations), DigestList(a.edges),
      DigestList(b.types) + DigestList(b.entities) + DigestList(b.relations), DigestList(b.edges));
    TwoApart(DigestList(a.types) + DigestList(a.entities), DigestList(a.relations), DigestList(b.types) + DigestList(b.entities), DigestList(b.relations));
    TwoApart(DigestList(a.types), DigestList(a.entities), DigestList(b.types), DigestList(b.entities));
  }

  lemma TwoApart<T>(a: seq<T>, b: seq<T>, c: seq<T>, d: seq<T>)
    requires a + b == c + d && |a| == |c|
    ensures a == c && b == d
  {
    assert (a + b)[..|a|] == a && (c + d)[..|c|] == c;
    assert (a + b)[|a|..] == b && (c + d)[|c|..] == d;
  }

  /** Two graphs with one content hash hold the same kinds, entities, relation types and edges, up to what the entries hash; the converse
      is HashIsUnique. */
  lemma EqualHashesEqualContent(h: Hashings, c: LogicalCache, seen: CacheView, types: Types, entities: Entities, relations: RelationTypes, edges: Edges,
      d: LogicalCache, other: CacheView, types': Types, entities': Entities, relations': RelationTypes, edges': Edges)
    requires AllName(h) && CacheFor(h, c, seen, types, entities, relations, edges) && CacheFor(h, d, other, types', entities', relations', edges')
    requires FinalDigest(h, CacheViews(c)) == FinalDigest(h, CacheViews(d))
    ensures SameEntries(h.types, types, types') && SameEntries(h.entities, entities, entities')
    ensures SameEntries(h.relations, relations, relations') && SameEntries(h.edges, edges, edges')
  {
    hide Names, AreBlocks, SameEntries, TotalSize, DigestList, View, Seen, Sound;
    ListsApart(CacheViews(c), CacheViews(d));
    SameBlocks(h.types, types, types', View(c.types), View(d.types));
    SameBlocks(h.entities, entities, entities', View(c.entities), View(d.entities));
    SameBlocks(h.relations, relations, relations', View(c.relations), View(d.relations));
    SameBlocks(h.edges, edges, edges', View(c.edges), View(d.edges));
  }
}
