/** Maps that share their buckets after a clone until one side writes (internal/graph/sharded_map.go). */
module ShardedMaps {
  import opened GraphModel

  const SHARDS: nat := 256
  const SMALL_LIMIT: nat := 32

  type Shard = x: nat | x < SHARDS

  class Bucket<V> {
    var values: map<string, V>
    var shared: bool

    constructor (values: map<string, V>)
      ensures this.values == values && !shared
    {
      this.values, shared := values, false;
    }
  }

  /** The entries of one shard. */
  function Part<V>(shardOf: string -> Shard, contents: map<string, V>, i: int): map<string, V> {
    map k | k in contents && shardOf(k) == i :: contents[k]
  }

  lemma PartSet<V>(shardOf: string -> Shard, contents: map<string, V>, key: string, value: V, i: int)
    ensures Part(shardOf, contents[key := value], i) == if shardOf(key) == i then Part(shardOf, contents, i)[key := value] else Part(shardOf, contents, i)
  {
  }

  lemma PartDeleted<V>(shardOf: string -> Shard, contents: map<string, V>, key: string, i: int)
    ensures Part(shardOf, contents - {key}, i) == if shardOf(key) == i then Part(shardOf, contents, i) - {key} else Part(shardOf, contents, i)
  {
  }

  class ShardedMap<V> {
    const shardOf: string -> Shard
    var small: Bucket?<V>
    var buckets: array?<Bucket?<V>>
    var size: nat
    // The map this object stands for.
    ghost var contents: map<string, V>

    constructor (shardOf: string -> Shard)
      ensures this.shardOf == shardOf && contents == map[] && Valid() && small == null && buckets == null
    {
      this.shardOf := shardOf;
      small, buckets, size, contents := null, null, 0, map[];
    }

    ghost function Reach(): set<Bucket<V>>
      reads this, buckets
    {
      if buckets != null then set i | 0 <= i < buckets.Length && buckets[i] != null :: buckets[i]
      else if small != null then {small}
      else {}
    }

    /** One small bucket, or a directory of distinct ones. */
    ghost predicate Shaped()
      reads this, buckets
    {
      && (small == null || buckets == null)
      && (buckets != null ==>
            && buckets.Length == SHARDS
            && forall i, j :: 0 <= i < j < SHARDS && buckets[i] != null ==> buckets[i] != buckets[j])
    }

    ghost predicate Filled()
      requires Shaped()
      reads this, buckets, Reach()
    {
      if buckets == null then contents == (if small == null then map[] else small.values)
      else forall i :: 0 <= i < SHARDS ==> Part(shardOf, contents, i) == if buckets[i] == null then map[] else buckets[i].values
    }

    ghost predicate Valid()
      reads this, buckets, Reach()
    {
      Shaped() && Filled() && size == |contents|
    }

    /** What a write to this map may change: its directory and the buckets only it reaches. */
    ghost function Own(): set<object>
      reads this, buckets, Reach()
    {
      (set b | b in Reach() && !b.shared) + (if buckets != null then {buckets} else {})
    }

    /** The map reaches nothing but new buckets and buckets it reached before, as shared as they were. */
    twostate predicate Kept()
      reads this, buckets, Reach()
    {
      && (buckets == old(buckets) || (buckets != null && fresh(buckets)))
      && forall b :: b in Reach() ==> fresh(b) || (b in old(Reach()) && b.shared == old(b.shared))
    }

    function Get(key: string): (value: Option<V>)
      requires Valid()
      reads this, buckets, Reach()
      ensures value == if key in contents then Some(contents[key]) else None
    {
      if buckets == null then
        if small != null && key in small.values then Some(small.values[key]) else None
      else
        var i := shardOf(key);
        assert key in contents <==> key in Part(shardOf, contents, i);
        if buckets[i] != null && key in buckets[i].values then Some(buckets[i].values[key]) else None
    }

    twostate lemma Rejoins(others: set<ShardedMap<V>>)
      requires old(ApartFrom(this, others)) && Kept() && this !in others
      requires forall n :: n in others ==> n.Reach() == old(n.Reach()) && n.buckets == old(n.buckets)
      ensures ApartFrom(this, others)
    {
      forall n | n in others ensures Apart(this, n) && Apart(n, this) {
        assert old(Apart(this, n)) && old(Apart(n, this));
      }
    }

    /** writable, for a small map. */
    method WritableSmall() returns (b: Bucket<V>)
      requires Valid() && buckets == null
      modifies this`small
      ensures Valid() && Kept() && small == b && !b.shared
    {
      if small == null {
        small := new Bucket<V>(map[]);
      } else if small.shared {
        small := new Bucket<V>(small.values);
      }
      b := small;
    }

    /** writable, for a sharded one. */
    method WritableShard(i: Shard) returns (b: Bucket<V>)
      requires Valid() && buckets != null
      modifies buckets
      ensures Valid() && Kept() && buckets[i] == b && !b.shared
    {
      hide Part;
      var found := buckets[i];
      if found == null {
        b := new Bucket<V>(map[]);
        buckets[i] := b;
      } else if found.shared {
        b := new Bucket<V>(found.values);
        buckets[i] := b;
      } else {
        b := found;
      }
    }

    /** Give one shard new values. */
    method WriteShard(i: Shard, values: map<string, V>, count: nat, ghost next: map<string, V>)
      requires Valid() && buckets != null && count == |next|
      requires forall j :: 0 <= j < SHARDS ==> Part(shardOf, next, j) == if j == i then values else Part(shardOf, contents, j)
      modifies this`size, this`contents, Own()
      ensures Valid() && Kept() && contents == next
    {
      hide Part;
      var b := WritableShard(i);
      b.values := values;
      contents, size := next, count;
    }

    function InShard(i: Shard): (values: map<string, V>)
      requires Valid() && buckets != null
      reads this, buckets, Reach()
      ensures values == Part(shardOf, contents, i)
    {
      if buckets[i] == null then map[] else buckets[i].values
    }

    method SetShard(key: string, value: V)
      requires Valid() && buckets != null
      modifies this`size, this`contents, Own()
      ensures Valid() && Kept() && contents == old(contents)[key := value]
    {
      var i := shardOf(key);
      var values := InShard(i);
      assert key in contents <==> key in values;
      forall j | 0 <= j < SHARDS ensures Part(shardOf, contents[key := value], j) == if j == i then values[key := value] else Part(shardOf, contents, j) {
        PartSet(shardOf, contents, key, value, j);
      }
      hide ShardedMap.Valid;
      WriteShard(i, values[key := value], if key in values then size else size + 1, contents[key := value]);
    }

    method SetSmall(key: string, value: V)
      requires Valid() && buckets == null
      modifies this, Own()
      ensures Valid() && Kept() && contents == old(contents)[key := value]
    {
      var b := WritableSmall();
      if key !in b.values {
        size := size + 1;
      }
      b.values := b.values[key := value];
      contents := contents[key := value];
      if size > SMALL_LIMIT {
        var dir := Spread(shardOf, b.values);
        buckets, small := dir, null;
      }
    }

    /** Set: a map that outgrows its one bucket moves to a directory of them. */
    method Set(key: string, value: V, ghost family: set<ShardedMap<V>>)
      requires this in family && Isolated(family)
      modifies this, Own()
      ensures Isolated(family) && contents == old(contents)[key := value]
      ensures forall n :: n in family && n != this ==> n.contents == old(n.contents)
    {
      hide ShardedMap.Valid, ShardedMap.Filled, ShardedMap.Shaped, Part, Isolated;
      Leaves(family, this);
      ghost var others := family - {this};
      forall n: ShardedMap<V> | n in others ensures n != this && (forall b :: b in n.Reach() ==> b !in Own()) && (n.buckets != null ==> n.buckets !in Own()) {
        assert Apart(this, n) && Apart(n, this);
      }
      hide Apart;
      if buckets == null {
        SetSmall(key, value);
      } else {
        SetShard(key, value);
      }
      assert Isolated(others);
      Rejoins(others);
      Joins(family, this);
      assert family + {this} == family;
    }

    method DeleteShard(key: string)
      requires Valid() && buckets != null && key in contents
      modifies this`size, this`contents, Own()
      ensures Valid() && Kept() && contents == old(contents) - {key}
    {
      var i := shardOf(key);
      var values := InShard(i);
      forall j | 0 <= j < SHARDS ensures Part(shardOf, contents - {key}, j) == if j == i then values - {key} else Part(shardOf, contents, j) {
        PartDeleted(shardOf, contents, key, j);
      }
      hide ShardedMap.Valid;
      WriteShard(i, values - {key}, size - 1, contents - {key});
    }

    method DeleteSmall(key: string)
      requires Valid() && buckets == null && key in contents
      modifies this`size, this`contents, this`small, Own()
      ensures Valid() && Kept() && contents == old(contents) - {key}
    {
      var b := WritableSmall();
      b.values := b.values - {key};
      contents := contents - {key};
      size := size - 1;
    }

    method Delete(key: string, ghost family: set<ShardedMap<V>>)
      requires this in family && Isolated(family)
      modifies this, Own()
      ensures Isolated(family) && contents == old(contents) - {key}
      ensures forall n :: n in family && n != this ==> n.contents == old(n.contents)
    {
      if Get(key).Some? {
        Remove(key, family);
      } else {
        assert contents == contents - {key};
      }
    }

    method Remove(key: string, ghost family: set<ShardedMap<V>>)
      requires this in family && Isolated(family) && key in contents
      modifies this, Own()
      ensures Isolated(family) && contents == old(contents) - {key}
    {
      hide ShardedMap.Valid, ShardedMap.Filled, ShardedMap.Shaped, Part, Isolated;
      Leaves(family, this);
      ghost var others := family - {this};
      forall n: ShardedMap<V> | n in others ensures n != this && (forall b :: b in n.Reach() ==> b !in Own()) && (n.buckets != null ==> n.buckets !in Own()) {
        assert Apart(this, n) && Apart(n, this);
      }
      hide Apart;
      if buckets == null {
        DeleteSmall(key);
      } else {
        DeleteShard(key);
      }
      assert Isolated(others);
      Rejoins(others);
      Joins(family, this);
      assert family + {this} == family;
    }

    /** Mark every bucket shared. */
    method Share()
      requires Valid()
      modifies Reach()
      ensures Valid() && Reach() == old(Reach()) && forall b :: b in Reach() ==> b.shared && b.values == old(b.values)
    {
      hide Part;
      if small != null {
        small.shared := true;
      } else if buckets != null {
        for i := 0 to SHARDS
          invariant forall j :: 0 <= j < i && buckets[j] != null ==> buckets[j].shared
          invariant forall j :: 0 <= j < SHARDS && buckets[j] != null ==> buckets[j].values == old(buckets[j].values)
        {
          if buckets[i] != null {
            buckets[i].shared := true;
          }
        }
      }
    }

    /** A second map over the same buckets. */
    method Twin() returns (twin: ShardedMap<V>)
      requires Valid()
      ensures fresh(twin) && twin.Valid() && twin.contents == contents && twin.Reach() == Reach()
      ensures twin.buckets != null ==> fresh(twin.buckets)
    {
      hide Part;
      if buckets == null {
        twin := new ShardedMap(shardOf);
        twin.small, twin.size, twin.contents := small, size, contents;
        return;
      }
      var dir := new Bucket?<V>[SHARDS](_ => null);
      for i := 0 to SHARDS
        invariant forall j :: 0 <= j < SHARDS ==> dir[j] == if j < i then buckets[j] else null
      {
        dir[i] := buckets[i];
      }
      twin := new ShardedMap(shardOf);
      twin.buckets, twin.size, twin.contents := dir, size, contents;
    }

    method ShareIn(ghost family: set<ShardedMap<V>>)
      requires this in family && Isolated(family)
      modifies Reach()
      ensures Isolated(family) && Reach() == old(Reach()) && forall b :: b in Reach() ==> b.shared
    {
      hide ShardedMap.Shaped, ShardedMap.Filled;
      label before:
      Share();
      forall n | n in family ensures n.Valid() && n.Reach() == old(n.Reach()) {
        StaysValid@before(n);
      }
      forall m, n | m in family && n in family && m != n ensures Apart(m, n) {
        assert old(Apart(m, n));
      }
    }

    /** Clone: both sides keep every bucket, marked shared. */
    method Clone(ghost family: set<ShardedMap<V>>) returns (clone: ShardedMap<V>)
      requires this in family && Isolated(family)
      modifies Reach()
      ensures fresh(clone) && clone.contents == contents && Isolated(family + {clone})
      ensures forall n :: n in family ==> n.contents == old(n.contents)
    {
      hide ShardedMap.Filled, ShardedMap.Shaped;
      ShareIn(family);
      assert Valid();
      clone := TwinIn(family);
      hide ShardedMap.Valid, Isolated, ApartFrom;
      assert family - {clone} == family;
      Joins(family, clone);
    }

    method TwinIn(ghost family: set<ShardedMap<V>>) returns (twin: ShardedMap<V>)
      requires this in family && Isolated(family) && forall b :: b in Reach() ==> b.shared
      ensures fresh(twin) && twin.Valid() && twin.contents == contents
      ensures Isolated(family) && ApartFrom(twin, family)
    {
      hide ShardedMap.Filled, ShardedMap.Shaped;
      assert Valid();
      hide ShardedMap.Valid, Isolated;
      twin := Twin();
      forall n | n in family ensures Apart(twin, n) && Apart(n, twin) {
      }
    }

    static twostate lemma StaysValid(n: ShardedMap<V>)
      requires old(n.Valid()) && n.small == old(n.small) && n.buckets == old(n.buckets) && n.size == old(n.size) && n.contents == old(n.contents)
      requires n.buckets != null ==> n.buckets[..] == old(n.buckets[..])
      requires forall b :: b in old(n.Reach()) ==> b.values == old(b.values)
      ensures n.Valid() && n.Reach() == old(n.Reach())
    {
    }

    /** All, collected. */
    method Collect() returns (all: map<string, V>)
      requires Valid()
      ensures all == contents
    {
      all := map[];
      if small != null {
        return small.values;
      }
      if buckets == null {
        return;
      }
      for i := 0 to SHARDS
        invariant forall k :: k in all <==> k in contents && shardOf(k) < i
        invariant forall k :: k in all ==> all[k] == contents[k]
      {
        assert forall k :: k in Part(shardOf, contents, i) <==> k in contents && shardOf(k) == i;
        if buckets[i] != null {
          all := all + buckets[i].values;
        }
      }
    }
  }

  /** The directory a small map moves to. */
  method Spread<V>(shardOf: string -> Shard, values: map<string, V>) returns (dir: array<Bucket?<V>>)
    ensures fresh(dir) && dir.Length == SHARDS
    ensures forall i :: 0 <= i < SHARDS && dir[i] != null ==> fresh(dir[i]) && !dir[i].shared
    ensures forall i, j :: 0 <= i < j < SHARDS && dir[i] != null ==> dir[i] != dir[j]
    ensures forall i :: 0 <= i < SHARDS ==> Part(shardOf, values, i) == if dir[i] == null then map[] else dir[i].values
  {
    dir := new Bucket?<V>[SHARDS](_ => null);
    ghost var done: map<string, V> := map[];
    var todo := values.Keys;
    while todo != {}
      invariant todo <= values.Keys && done == values - todo
      invariant forall i :: 0 <= i < SHARDS && dir[i] != null ==> fresh(dir[i]) && !dir[i].shared
      invariant forall i, j :: 0 <= i < j < SHARDS && dir[i] != null ==> dir[i] != dir[j]
      invariant forall i :: 0 <= i < SHARDS ==> Part(shardOf, done, i) == if dir[i] == null then map[] else dir[i].values
      decreases todo
    {
      var key :| key in todo;
      var i := shardOf(key);
      forall j | 0 <= j < SHARDS ensures Part(shardOf, done[key := values[key]], j) == if j == i then Part(shardOf, done, j)[key := values[key]] else Part(shardOf, done, j) {
        PartSet(shardOf, done, key, values[key], j);
      }
      hide Part;
      if dir[i] == null {
        dir[i] := new Bucket<V>(map[]);
      }
      dir[i].values := dir[i].values[key := values[key]];
      todo, done := todo - {key}, done[key := values[key]];
    }
    assert done == values;
  }

  /** Nothing a write to one map may change is reachable from the other. */
  ghost predicate Apart<V>(m: ShardedMap<V>, n: ShardedMap<V>)
    reads m, m.buckets, m.Reach(), n, n.buckets, n.Reach()
  {
    && (m.buckets != null ==> m.buckets != n.buckets)
    && forall b :: b in m.Reach() && b in n.Reach() ==> b.shared
  }

  ghost predicate Isolated<V>(family: set<ShardedMap<V>>)
    reads family, set m | m in family && m.buckets != null :: m.buckets, set m, b | m in family && b in m.Reach() :: b
  {
    && (forall m :: m in family ==> m.Valid())
    && (forall m, n :: m in family && n in family && m != n ==> Apart(m, n))
  }

  /** A map stands apart from a family it is about to join or has just left. */
  ghost predicate ApartFrom<V>(m: ShardedMap<V>, family: set<ShardedMap<V>>)
    reads m, m.buckets, m.Reach(), family, set n | n in family && n.buckets != null :: n.buckets, set n, b | n in family && b in n.Reach() :: b
  {
    forall n :: n in family ==> Apart(m, n) && Apart(n, m)
  }

  lemma Joins<V>(family: set<ShardedMap<V>>, m: ShardedMap<V>)
    requires Isolated(family - {m}) && m.Valid() && ApartFrom(m, family - {m})
    ensures Isolated(family + {m})
  {
    var rest := family - {m};
    forall a, b | a in family + {m} && b in family + {m} && a != b ensures Apart(a, b) {
      assert a == m || a in rest;
      assert b == m || b in rest;
    }
  }

  lemma Leaves<V>(family: set<ShardedMap<V>>, m: ShardedMap<V>)
    requires Isolated(family) && m in family
    ensures Isolated(family - {m}) && m.Valid() && ApartFrom(m, family - {m})
  {
  }
}
