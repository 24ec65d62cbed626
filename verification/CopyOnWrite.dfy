/** Index buckets that a private copy of a graph shares with the published graph it was made from, and the
    ownership sets that decide when a bucket is copied before it is written
    (internal/graph/copy_on_write.go, index_entity_coverage.go). */
module CopyOnWrites {

  type Postings<K> = map<K, set<string>>

  function At<K>(index: Postings<K>, key: K): set<string> {
    if key in index then index[key] else {}
  }

  /** Add to a bucket, creating it when needed. */
  function Posted<K>(index: Postings<K>, key: K, id: string): Postings<K> {
    index[key := At(index, key) + {id}]
  }

  /** Remove from a bucket, dropping it when it empties. */
  function Unposted<K>(index: Postings<K>, key: K, id: string): Postings<K> {
    var rest := At(index, key) - {id};
    if rest == {} then index - {key} else index[key := rest]
  }

  // ---------- buckets on a heap ----------

  /** An index of a graph whose buckets another graph may also reach. `cells` are the buckets in order of
      allocation, `mine` says which bucket each key has here and `theirs` which it has in the published
      graph. Until the directory is a map of its own, `apart`, what is written to it is written to both. A
      graph that shares with none is not `copying`; one that does copies a bucket before it writes it the
      first time and then owns it. */
  datatype Shared<K, V> = Shared(cells: seq<V>, mine: map<K, nat>, theirs: map<K, nat>, apart: bool, copying: bool, owned: set<K>)

  function Unshared<K, V>(): Shared<K, V> {
    Shared([], map[], map[], true, false, {})
  }

  /** A storage copy reaches every bucket of its source and owns none. */
  function Fork<K, V>(x: Shared<K, V>, apart: bool): Shared<K, V> {
    Shared(x.cells, x.mine, x.mine, apart, true, {})
  }

  ghost predicate InRange<K, V>(x: Shared<K, V>) {
    && (forall k :: k in x.mine ==> x.mine[k] < |x.cells|)
    && (forall k :: k in x.theirs ==> x.theirs[k] < |x.cells|)
  }

  /** No other key here, and no key there, has the bucket of `key`. */
  ghost predicate Exclusive<K, V>(x: Shared<K, V>, key: K)
    requires key in x.mine
  {
    && (forall k :: k in x.mine && k != key ==> x.mine[k] != x.mine[key])
    && (forall k :: k in x.theirs ==> x.theirs[k] != x.mine[key])
  }

  predicate MayWrite<K, V>(x: Shared<K, V>, key: K) {
    key in x.mine && (x.copying ==> key in x.owned)
  }

  /** Every bucket that may be written is reached from nowhere else. */
  ghost predicate Sound<K, V>(x: Shared<K, V>) {
    InRange(x) && forall k :: k in x.mine && MayWrite(x, k) ==> Exclusive(x, k)
  }

  /** What the graph itself reads. */
  function View<K, V>(x: Shared<K, V>): map<K, V> {
    map k | k in x.mine && x.mine[k] < |x.cells| :: x.cells[x.mine[k]]
  }

  /** What readers of the published graph read. */
  function Seen<K, V>(x: Shared<K, V>): map<K, V> {
    map k | k in x.theirs && x.theirs[k] < |x.cells| :: x.cells[x.theirs[k]]
  }

  lemma ForkIsSound<K, V>(x: Shared<K, V>, apart: bool)
    requires Sound(x)
    ensures Sound(Fork(x, apart)) && View(Fork(x, apart)) == View(x) && Seen(Fork(x, apart)) == View(x)
  {
  }

  // ---------- writing ----------

  /** A directory entry is written. */
  function Entered<K, V>(x: Shared<K, V>, key: K, cell: nat): Shared<K, V> {
    x.(mine := x.mine[key := cell], theirs := if x.apart then x.theirs else x.theirs[key := cell])
  }

  /** A directory entry is deleted. */
  function Left<K, V>(x: Shared<K, V>, key: K): Shared<K, V> {
    x.(mine := x.mine - {key}, theirs := if x.apart then x.theirs else x.theirs - {key})
  }

  /** The writable functions: afterwards the graph has a bucket under the key and may write it. */
  function Writable<K, V>(x: Shared<K, V>, key: K, empty: V): Shared<K, V> {
    if MayWrite(x, key) then x
    else
      var content := if key in x.mine && x.mine[key] < |x.cells| then x.cells[x.mine[key]] else empty;
      Entered(x, key, |x.cells|).(cells := x.cells + [content], owned := if x.copying then x.owned + {key} else x.owned)
  }

  function Written<K, V>(x: Shared<K, V>, key: K, content: V): Shared<K, V> {
    if key in x.mine && x.mine[key] < |x.cells| then x.(cells := x.cells[x.mine[key] := content]) else x
  }

  lemma WritableSound<K, V>(x: Shared<K, V>, key: K, empty: V)
    requires Sound(x) && x.apart
    ensures Sound(Writable(x, key, empty)) && MayWrite(Writable(x, key, empty), key) && Writable(x, key, empty).apart
  {
    var y := Writable(x, key, empty);
    if !MayWrite(x, key) {
      assert y.mine[key] == |x.cells| && y.theirs == x.theirs;
      forall k | k in y.mine && MayWrite(y, k) ensures Exclusive(y, k) {
        if k != key {
          assert MayWrite(x, k) && y.mine[k] == x.mine[k] && Exclusive(x, k);
        }
      }
    }
  }

  lemma WritableView<K, V>(x: Shared<K, V>, key: K, empty: V)
    requires InRange(x)
    ensures View(Writable(x, key, empty)) == if key in View(x) then View(x) else View(x)[key := empty]
  {
    var y := Writable(x, key, empty);
    if !MayWrite(x, key) {
      assert forall i :: 0 <= i < |x.cells| ==> y.cells[i] == x.cells[i];
      assert forall k :: k != key ==> (k in View(y) <==> k in View(x));
    }
  }

  lemma WritableSeen<K, V>(x: Shared<K, V>, key: K, empty: V)
    requires InRange(x) && x.apart
    ensures Seen(Writable(x, key, empty)) == Seen(x)
  {
    var y := Writable(x, key, empty);
    assert forall i :: 0 <= i < |x.cells| ==> y.cells[i] == x.cells[i];
  }

  lemma WritableIs<K, V>(x: Shared<K, V>, key: K, empty: V)
    requires Sound(x) && x.apart
    ensures var y := Writable(x, key, empty);
      && Sound(y) && y.apart && MayWrite(y, key)
      && View(y) == (if key in View(x) then View(x) else View(x)[key := empty])
      && Seen(y) == Seen(x)
  {
    WritableSound(x, key, empty);
    WritableView(x, key, empty);
    WritableSeen(x, key, empty);
  }

  lemma WrittenIs<K, V>(x: Shared<K, V>, key: K, content: V)
    requires Sound(x) && MayWrite(x, key)
    ensures var y := Written(x, key, content);
      Sound(y) && y.apart == x.apart && View(y) == View(x)[key := content] && Seen(y) == Seen(x)
  {
    var y := Written(x, key, content);
    assert Exclusive(x, key);
    forall k | k in y.mine && MayWrite(y, k) ensures Exclusive(y, k) {
      assert MayWrite(x, k) && Exclusive(x, k);
    }
  }

  lemma LeftIs<K, V>(x: Shared<K, V>, key: K)
    requires Sound(x) && x.apart
    ensures var y := Left(x, key);
      Sound(y) && y.apart && View(y) == View(x) - {key} && Seen(y) == Seen(x)
  {
    var y := Left(x, key);
    forall k | k in y.mine && MayWrite(y, k) ensures Exclusive(y, k) {
      assert MayWrite(x, k) && Exclusive(x, k);
    }
  }

  // ---------- buckets of identities ----------

  type Buckets<K> = Shared<K, set<string>>

  /** The directory becomes a map of its own, unless it was one. */
  function Separated<K, V>(x: Shared<K, V>): Shared<K, V> {
    x.(apart := true)
  }

  function Post<K>(x: Buckets<K>, key: K, id: string): Buckets<K> {
    var y := Writable(x, key, {});
    Written(y, key, At(View(y), key) + {id})
  }

  function Unpost<K>(x: Buckets<K>, key: K, id: string): Buckets<K> {
    if key !in View(x) then x
    else
      var y := Writable(x, key, {});
      var rest := At(View(y), key) - {id};
      if rest == {} then Left(y, key) else Written(y, key, rest)
  }

  lemma SeparatedIsSound<K, V>(x: Shared<K, V>)
    requires Sound(x)
    ensures Sound(Separated(x)) && View(Separated(x)) == View(x) && Seen(Separated(x)) == Seen(x)
  {
    forall k | k in Separated(x).mine && MayWrite(Separated(x), k) ensures Exclusive(Separated(x), k) {
      assert MayWrite(x, k) && Exclusive(x, k);
    }
  }

  /** Posting through an owned bucket changes what the copy reads and nothing that others read. */
  lemma PostIs<K>(x: Buckets<K>, key: K, id: string)
    requires Sound(x) && x.apart
    ensures var y := Post(x, key, id); Sound(y) && y.apart && View(y) == Posted(View(x), key, id) && Seen(y) == Seen(x)
  {
    WritableIs<K, set<string>>(x, key, {});
    var y := Writable<K, set<string>>(x, key, {});
    WrittenIs(y, key, At(View(y), key) + {id});
  }

  lemma UnpostIs<K>(x: Buckets<K>, key: K, id: string)
    requires Sound(x) && x.apart
    ensures var y := Unpost(x, key, id); Sound(y) && y.apart && View(y) == Unposted(View(x), key, id) && Seen(y) == Seen(x)
  {
    if key in View(x) {
      WritableIs<K, set<string>>(x, key, {});
      var y := Writable<K, set<string>>(x, key, {});
      var rest := At(View(y), key) - {id};
      if rest == {} {
        LeftIs(y, key);
      } else {
        WrittenIs(y, key, rest);
      }
    } else {
      assert View(x) - {key} == View(x);
    }
  }

  // ---------- field postings ----------

  /** fieldIndex: maps by kind, field and value. The map of a kind is the graph's own once owned, if the
      outer map is; the map of a field is once owned, if that of its kind is. */
  datatype FieldBuckets = FieldBuckets(values: Buckets<(string, string, string)>, apart: bool, ownKinds: set<string>, ownNames: set<(string, string)>)

  function UnsharedFields(): FieldBuckets {
    FieldBuckets(Unshared(), true, {}, {})
  }

  function ForkFields(x: FieldBuckets, apart: bool): FieldBuckets {
    FieldBuckets(Fork(x.values, apart), apart, {}, {})
  }

  /** writableFieldKind and writableFieldName. */
  function WritableName(x: FieldBuckets, kind: string, field: string): FieldBuckets {
    if x.values.copying then x.(ownKinds := x.ownKinds + {kind}, ownNames := x.ownNames + {(kind, field)}) else x
  }

  /** Whether writing the map of a field leaves the published one alone. */
  predicate OwnName(x: FieldBuckets, kind: string, field: string) {
    x.apart && (x.values.copying ==> kind in x.ownKinds && (kind, field) in x.ownNames)
  }

  function PostField(x: FieldBuckets, kind: string, field: string, value: string, id: string): FieldBuckets {
    var y := WritableName(x, kind, field);
    y.(values := Post(y.values.(apart := OwnName(y, kind, field)), (kind, field, value), id))
  }

  function UnpostField(x: FieldBuckets, kind: string, field: string, value: string, id: string): FieldBuckets {
    if (kind, field, value) !in View(x.values) then x
    else
      var y := WritableName(x, kind, field);
      y.(values := Unpost(y.values.(apart := OwnName(y, kind, field)), (kind, field, value), id))
  }

  lemma ApartAgain<K, V>(x: Shared<K, V>, apart: bool)
    requires Sound(x)
    ensures Sound(x.(apart := apart)) && View(x.(apart := apart)) == View(x) && Seen(x.(apart := apart)) == Seen(x)
  {
    var y := x.(apart := apart);
    forall k | k in y.mine && MayWrite(y, k) ensures Exclusive(y, k) {
      assert MayWrite(x, k) && Exclusive(x, k);
    }
  }

  lemma PostFieldIs(x: FieldBuckets, kind: string, field: string, value: string, id: string)
    requires Sound(x.values) && x.apart
    ensures var y := PostField(x, kind, field, value, id);
      Sound(y.values) && y.apart && View(y.values) == Posted(View(x.values), (kind, field, value), id) && Seen(y.values) == Seen(x.values)
  {
    ApartAgain(x.values, true);
    PostIs(x.values.(apart := true), (kind, field, value), id);
  }

  lemma UnpostFieldIs(x: FieldBuckets, kind: string, field: string, value: string, id: string)
    requires Sound(x.values) && x.apart
    ensures var y := UnpostField(x, kind, field, value, id);
      Sound(y.values) && y.apart && View(y.values) == Unposted(View(x.values), (kind, field, value), id) && Seen(y.values) == Seen(x.values)
  {
    var key := (kind, field, value);
    if key in View(x.values) {
      ApartAgain(x.values, true);
      UnpostIs(x.values.(apart := true), key, id);
    } else {
      assert View(x.values) - {key} == View(x.values);
    }
  }

  // ---------- identities ----------

  /** identityIndex: per kind the owner of each signature. */
  type OwnerBuckets = Shared<string, map<string, string>>

  function Flat(owners: map<string, map<string, string>>): map<(string, string), string> {
    map k, s | k in owners && s in owners[k] :: (k, s) := owners[k][s]
  }

  function OfKind(owners: map<string, map<string, string>>, kind: string): map<string, string> {
    if kind in owners then owners[kind] else map[]
  }

  /** The entries by which an entity owns its signatures. */
  function Claims(kind: string, signatures: set<string>, id: string): map<(string, string), string> {
    map s | s in signatures :: (kind, s) := id
  }

  /** Those of its signatures that it owns. */
  function Claimed(identities: map<(string, string), string>, kind: string, signatures: set<string>, id: string): set<(string, string)> {
    set s | s in signatures && (kind, s) in identities && identities[(kind, s)] == id :: (kind, s)
  }

  /** An entity claims its signatures. */
  function Claim(x: OwnerBuckets, kind: string, signatures: set<string>, id: string): OwnerBuckets {
    if signatures == {} then x
    else
      var y := Writable(x, kind, map[]);
      Written(y, kind, OfKind(View(y), kind) + map s | s in signatures :: id)
  }

  /** It gives up those that are its own. */
  function Unclaim(x: OwnerBuckets, kind: string, signatures: set<string>, id: string): OwnerBuckets {
    var own := set s | s in signatures && s in OfKind(View(x), kind) && OfKind(View(x), kind)[s] == id;
    if own == {} then x
    else
      var y := Writable(x, kind, map[]);
      Written(y, kind, OfKind(View(y), kind) - own)
  }

  /** The identities of one kind made anew, in a map of their own. */
  function Renewed(x: OwnerBuckets, kind: string, content: map<string, string>): OwnerBuckets {
    Entered(x, kind, |x.cells|).(cells := x.cells + [content], owned := if x.copying then x.owned + {kind} else x.owned)
  }

  lemma FlatAt(owners: map<string, map<string, string>>)
    ensures forall k: (string, string) :: k in Flat(owners) <==> k.1 in OfKind(owners, k.0)
    ensures forall k: (string, string) :: k in Flat(owners) ==> Flat(owners)[k] == OfKind(owners, k.0)[k.1]
  {
  }

  lemma ClaimIs(x: OwnerBuckets, kind: string, signatures: set<string>, id: string)
    requires Sound(x) && x.apart
    ensures var y := Claim(x, kind, signatures, id);
      Sound(y) && y.apart && Flat(View(y)) == Flat(View(x)) + Claims(kind, signatures, id) && Seen(y) == Seen(x)
  {
    hide Flat, Sound, View, Seen, Writable, Written, MayWrite;
    var added := map s | s in signatures :: id;
    if signatures != {} {
      WritableIs<string, map<string, string>>(x, kind, map[]);
      var z := Writable<string, map<string, string>>(x, kind, map[]);
      assert OfKind(View(z), kind) == OfKind(View(x), kind);
      WrittenIs(z, kind, OfKind(View(x), kind) + added);
      var y := Written(z, kind, OfKind(View(x), kind) + added);
      assert View(y) == View(x)[kind := OfKind(View(x), kind) + added];
      ClaimedFlat(View(x), View(y), kind, signatures, id);
    } else {
      assert Flat(View(x)) + Claims(kind, signatures, id) == Flat(View(x));
    }
  }

  lemma ClaimedFlat(before: map<string, map<string, string>>, after: map<string, map<string, string>>, kind: string, signatures: set<string>, id: string)
    requires after == before[kind := OfKind(before, kind) + map s | s in signatures :: id]
    ensures Flat(after) == Flat(before) + Claims(kind, signatures, id)
  {
    hide Flat;
    FlatAt(before);
    FlatAt(after);
    var expected := Flat(before) + Claims(kind, signatures, id);
    forall k: (string, string) ensures (k in Flat(after) <==> k in expected) && (k in expected ==> Flat(after)[k] == expected[k]) {
      assert k.0 != kind ==> OfKind(after, k.0) == OfKind(before, k.0);
    }
  }

  lemma UnclaimIs(x: OwnerBuckets, kind: string, signatures: set<string>, id: string)
    requires Sound(x) && x.apart
    ensures var y := Unclaim(x, kind, signatures, id);
      && Sound(y) && y.apart && Seen(y) == Seen(x)
      && Flat(View(y)) == Flat(View(x)) - Claimed(Flat(View(x)), kind, signatures, id)
  {
    hide Flat, Sound, View, Seen, Writable, Written, MayWrite;
    var y := Unclaim(x, kind, signatures, id);
    var own := set s | s in signatures && s in OfKind(View(x), kind) && OfKind(View(x), kind)[s] == id;
    if own != {} {
      WritableIs<string, map<string, string>>(x, kind, map[]);
      var z := Writable<string, map<string, string>>(x, kind, map[]);
      assert kind in View(x);
      WrittenIs(z, kind, OfKind(View(z), kind) - own);
    }
    UnclaimedFlat(View(x), View(y), kind, signatures, id, own);
  }

  lemma UnclaimedFlat(before: map<string, map<string, string>>, after: map<string, map<string, string>>, kind: string, signatures: set<string>, id: string, own: set<string>)
    requires own == set s | s in signatures && s in OfKind(before, kind) && OfKind(before, kind)[s] == id
    requires if own == {} then after == before else after == before[kind := OfKind(before, kind) - own]
    ensures Flat(after) == Flat(before) - Claimed(Flat(before), kind, signatures, id)
  {
    hide Flat;
    FlatAt(before);
    FlatAt(after);
    forall k: (string, string) ensures k in Flat(after) <==> k in Flat(before) && !(k.0 == kind && k.1 in own) {
      assert k.0 != kind ==> OfKind(after, k.0) == OfKind(before, k.0);
    }
  }

  lemma RenewedIs(x: OwnerBuckets, kind: string, content: map<string, string>)
    requires Sound(x) && x.apart
    ensures var y := Renewed(x, kind, content); Sound(y) && y.apart && View(y) == View(x)[kind := content] && Seen(y) == Seen(x)
  {
    RenewedSound(x, kind, content);
    RenewedViews(x, kind, content);
  }

  lemma RenewedViews(x: OwnerBuckets, kind: string, content: map<string, string>)
    requires InRange(x) && x.apart
    ensures View(Renewed(x, kind, content)) == View(x)[kind := content] && Seen(Renewed(x, kind, content)) == Seen(x)
  {
    var y := Renewed(x, kind, content);
    assert forall i :: 0 <= i < |x.cells| ==> y.cells[i] == x.cells[i];
    assert y.mine[kind] == |x.cells| && y.cells[|x.cells|] == content;
    assert forall k :: k != kind ==> (k in View(y) <==> k in View(x));
  }

  lemma RenewedSound(x: OwnerBuckets, kind: string, content: map<string, string>)
    requires Sound(x) && x.apart
    ensures Sound(Renewed(x, kind, content)) && InRange(x)
  {
    var y := Renewed(x, kind, content);
    assert y.mine[kind] == |x.cells| && y.theirs == x.theirs;
    forall k | k in y.mine && MayWrite(y, k) ensures Exclusive(y, k) {
      if k != kind {
        assert MayWrite(x, k) && y.mine[k] == x.mine[k] && Exclusive(x, k);
      }
    }
  }

  // ---------- maps copied before a commit or not at all ----------

  /** A map that is copied with the graph if the commit may write it, and is the published one otherwise. */
  datatype Gated<V> = Gated(mine: V, theirs: V, apart: bool)

  function Put<V>(g: Gated<V>, value: V): Gated<V> {
    if g.apart then g.(mine := value) else Gated(value, value, false)
  }
}
