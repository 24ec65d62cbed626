/** The XOR content fingerprint and its incremental maintenance
    (internal/graph/content_fingerprint.go). */
module Fingerprints {
  import opened GraphModel

  /** A digest, as the set of positions of its one bits. */
  type Digest = set<nat>

  const ZERO: Digest := {}

  function Xor(a: Digest, b: Digest): Digest {
    (a - b) + (b - a)
  }

  /** contentFingerprintEntry for one category, or nothing for an absent key. */
  type Entry<!V> = (string, V) -> Digest

  function EntryOf<V>(hash: Entry<V>, values: map<string, V>, key: string): Digest {
    if key in values then hash(key, values[key]) else ZERO
  }

  /** The keys whose entry has a one at a bit. */
  ghost function Ones<V>(hash: Entry<V>, values: map<string, V>, bit: nat): set<string> {
    set k | k in values && bit in hash(k, values[k])
  }

  /** `f` is the XOR over every entry: each bit is the parity of the entries that have it. */
  ghost predicate IsFold<V(!new)>(hash: Entry<V>, values: map<string, V>, f: Digest) {
    forall bit: nat :: bit in f <==> |Ones(hash, values, bit)| % 2 == 1
  }

  lemma FoldIsUnique<V(!new)>(hash: Entry<V>, values: map<string, V>, f: Digest, g: Digest)
    requires IsFold(hash, values, f) && IsFold(hash, values, g)
    ensures f == g
  {
    forall bit: nat ensures bit in f <==> bit in g {
      assert bit in f <==> |Ones(hash, values, bit)| % 2 == 1;
    }
  }

  lemma EmptyFold<V(!new)>(hash: Entry<V>)
    ensures IsFold(hash, map[], ZERO)
  {
    forall bit: nat ensures |Ones(hash, map[], bit)| == 0 {
      assert Ones(hash, map[], bit) == {};
    }
  }

  /** Two maps that differ at most at one key. */
  ghost predicate DifferAt<V>(a: map<string, V>, b: map<string, V>, key: string) {
    forall k :: k != key ==> (k in a <==> k in b) && (k in a ==> a[k] == b[k])
  }

  ghost function OtherOnes<V>(hash: Entry<V>, values: map<string, V>, key: string, bit: nat): set<string> {
    set k | k in values && k != key && bit in hash(k, values[k])
  }

  lemma OnesSplit<V(!new)>(hash: Entry<V>, values: map<string, V>, key: string, bit: nat)
    ensures |Ones(hash, values, bit)| == |OtherOnes(hash, values, key, bit)| + if bit in EntryOf(hash, values, key) then 1 else 0
  {
    var rest := OtherOnes(hash, values, key, bit);
    assert Ones(hash, values, bit) == if bit in EntryOf(hash, values, key) then rest + {key} else rest;
  }

  lemma OthersAgree<V(!new)>(hash: Entry<V>, a: map<string, V>, b: map<string, V>, key: string, bit: nat)
    requires DifferAt(a, b, key)
    ensures OtherOnes(hash, a, key, bit) == OtherOnes(hash, b, key, bit)
  {
  }

  /** Replacing one value replaces its entry in the fold, whatever its neighbours are. */
  lemma FoldStep<V(!new)>(hash: Entry<V>, a: map<string, V>, b: map<string, V>, key: string, f: Digest)
    requires DifferAt(a, b, key) && IsFold(hash, a, f)
    ensures IsFold(hash, b, Xor(Xor(f, EntryOf(hash, a, key)), EntryOf(hash, b, key)))
  {
    var g := Xor(Xor(f, EntryOf(hash, a, key)), EntryOf(hash, b, key));
    forall bit: nat ensures bit in g <==> |Ones(hash, b, bit)| % 2 == 1 {
      OnesSplit(hash, a, key, bit);
      OnesSplit(hash, b, key, bit);
      OthersAgree(hash, a, b, key, bit);
      assert bit in f <==> |Ones(hash, a, bit)| % 2 == 1;
    }
  }

  /** ensureContentFingerprint for one category: XOR every entry into `seed`. */
  method FoldAll<V(!new)>(hash: Entry<V>, values: map<string, V>) returns (f: Digest)
    ensures IsFold(hash, values, f)
  {
    f := ZERO;
    EmptyFold(hash);
    ghost var done: map<string, V> := map[];
    var todo := values.Keys;
    while todo != {}
      invariant todo <= values.Keys && done == values - todo
      invariant IsFold(hash, done, f)
      decreases todo
    {
      var k :| k in todo;
      FoldStep(hash, done, done[k := values[k]], k, f);
      assert Xor(f, ZERO) == f;
      f := Xor(f, hash(k, values[k]));
      todo, done := todo - {k}, done[k := values[k]];
    }
    assert done == values;
  }

  // ---------- the tracker of one commit ----------

  /** What touching a key records: whether it existed and its entry then. */
  type Tracked = map<string, Option<Digest>>

  function Captured<V>(hash: Entry<V>, values: map<string, V>, key: string): Option<Digest> {
    if key in values then Some(hash(key, values[key])) else None
  }

  /** touchEntity, touchEdge, touchRelationType: the first touch counts. */
  function Touch<V>(hash: Entry<V>, tracked: Tracked, values: map<string, V>, key: string): Tracked {
    if key in tracked then tracked else tracked[key := Captured(hash, values, key)]
  }

  /** Every key that differs from `before` was captured, as it was before its first change. */
  ghost predicate Tracks<V(!new)>(hash: Entry<V>, tracked: Tracked, before: map<string, V>, now: map<string, V>) {
    && (forall k :: k in tracked ==> tracked[k] == Captured(hash, before, k))
    && (forall k :: k !in tracked ==> (k in before <==> k in now) && (k in before ==> before[k] == now[k]))
  }

  /** `now` with the keys in `todo` still as they were. */
  ghost function Between<V>(before: map<string, V>, now: map<string, V>, todo: set<string>): map<string, V> {
    map k | k in before.Keys + now.Keys && (if k in todo then k in before else k in now) :: if k in todo then before[k] else now[k]
  }

  /** The exchange finish makes for one key. */
  function Exchange(f: Digest, before: Option<Digest>, after: Option<Digest>): Digest {
    if before == after then f
    else
      var out := if before.Some? then Xor(f, before.value) else f;
      if after.Some? then Xor(out, after.value) else out
  }

  function Digested(d: Option<Digest>): Digest {
    if d.Some? then d.value else ZERO
  }

  lemma ExchangeIsXor(rest: Digest, fold: Digest, before: Option<Digest>, after: Option<Digest>)
    ensures Exchange(Xor(rest, fold), before, after) == Xor(rest, Xor(Xor(fold, Digested(before)), Digested(after)))
  {
  }

  lemma BetweenStep<V(!new)>(hash: Entry<V>, tracked: Tracked, before: map<string, V>, now: map<string, V>, todo: set<string>, key: string)
    requires Tracks(hash, tracked, before, now) && key in tracked && key in todo
    ensures DifferAt(Between(before, now, todo), Between(before, now, todo - {key}), key)
    ensures EntryOf(hash, Between(before, now, todo), key) == Digested(tracked[key])
    ensures EntryOf(hash, Between(before, now, todo - {key}), key) == Digested(Captured(hash, now, key))
  {
  }

  lemma BetweenEnds<V(!new)>(hash: Entry<V>, tracked: Tracked, before: map<string, V>, now: map<string, V>)
    requires Tracks(hash, tracked, before, now)
    ensures Between(before, now, tracked.Keys) == before && Between(before, now, {}) == now
  {
  }

  /** The loop of finish over one category: exchange the entry of every captured key that changed. */
  method FinishCategory<V(!new)>(hash: Entry<V>, tracked: Tracked, now: map<string, V>, start: Digest,
      ghost before: map<string, V>, ghost rest: Digest, ghost was: Digest) returns (f: Digest, changed: bool, ghost fold: Digest)
    requires Tracks(hash, tracked, before, now)
    requires IsFold(hash, before, was) && start == Xor(rest, was)
    ensures IsFold(hash, now, fold) && f == Xor(rest, fold)
    ensures changed <==> exists k :: k in tracked && tracked[k] != Captured(hash, now, k)
  {
    f, changed, fold := start, false, was;
    var todo := tracked.Keys;
    BetweenEnds(hash, tracked, before, now);
    while todo != {}
      invariant todo <= tracked.Keys
      invariant IsFold(hash, Between(before, now, todo), fold) && f == Xor(rest, fold)
      invariant changed <==> exists k :: k in tracked && k !in todo && tracked[k] != Captured(hash, now, k)
      decreases todo
    {
      var k :| k in todo;
      var after := Captured(hash, now, k);
      BetweenStep(hash, tracked, before, now, todo, k);
      FoldStep(hash, Between(before, now, todo), Between(before, now, todo - {k}), k, fold);
      ExchangeIsXor(rest, fold, tracked[k], after);
      fold := Xor(Xor(fold, Digested(tracked[k])), Digested(after));
      if tracked[k] != after {
        changed := true;
      }
      f := Exchange(f, tracked[k], after);
      todo := todo - {k};
    }
    BetweenEnds(hash, tracked, before, now);
  }

  // ---------- entries the tracker missed ----------

  lemma {:induction false} FoldOf<V(!new)>(hash: Entry<V>, values: map<string, V>) returns (f: Digest)
    ensures IsFold(hash, values, f)
    decreases |values|
  {
    if values == map[] {
      EmptyFold(hash);
      f := ZERO;
    } else {
      var k :| k in values;
      var g := FoldOf(hash, values - {k});
      FoldStep(hash, values - {k}, values, k, g);
      f := Xor(Xor(g, EntryOf(hash, values - {k}, k)), EntryOf(hash, values, k));
    }
  }

  /** The fold over two maps of different keys. */
  lemma {:induction false} UnionFold<V(!new)>(hash: Entry<V>, a: map<string, V>, b: map<string, V>, f: Digest, g: Digest)
    requires a.Keys !! b.Keys && IsFold(hash, a, f) && IsFold(hash, b, g)
    ensures IsFold(hash, a + b, Xor(f, g))
    decreases |b|
  {
    if b == map[] {
      EmptyFold(hash);
      FoldIsUnique(hash, b, g, ZERO);
      assert a + b == a;
    } else {
      var k :| k in b;
      var rest := b - {k};
      var h := FoldOf(hash, rest);
      UnionAt(hash, a, b, k);
      hide Xor, IsFold, DifferAt, EntryOf;
      UnionFold(hash, a, rest, f, h);
      FoldStep(hash, rest, b, k, h);
      FoldIsUnique(hash, b, g, Xor(Xor(h, EntryOf(hash, rest, k)), EntryOf(hash, b, k)));
      FoldStep(hash, a + rest, a + b, k, Xor(f, h));
      XorThird(f, h, EntryOf(hash, b, k));
    }
  }

  lemma UnionAt<V>(hash: Entry<V>, a: map<string, V>, b: map<string, V>, k: string)
    requires a.Keys !! b.Keys && k in b
    ensures DifferAt(b - {k}, b, k) && DifferAt(a + (b - {k}), a + b, k)
    ensures EntryOf(hash, b - {k}, k) == ZERO && EntryOf(hash, a + (b - {k}), k) == ZERO && EntryOf(hash, a + b, k) == EntryOf(hash, b, k)
    ensures a.Keys !! (b - {k}).Keys
  {
  }

  lemma XorThird(f: Digest, h: Digest, e: Digest)
    ensures Xor(Xor(Xor(f, h), ZERO), e) == Xor(f, Xor(Xor(h, ZERO), e))
  {
  }
}
