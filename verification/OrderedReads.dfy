/** Reads in identity order: the merge of sorted postings, range-pruned field lookups and the cached
    orders behind them (internal/graph/read_ids.go, read_range.go, index.go). */
module OrderedReads {
  import opened GraphModel
  import opened CopyOnWrites
  import opened GraphIndexes
  import opened StringOrder

  // ---------- order lemmas ----------

  lemma AtMostThenLess(a: string, b: string, c: string)
    requires AtMost(a, b) && Less(b, c)
    ensures Less(a, c)
  {
    LessTotal(a, b);
    if Less(a, b) {
      LessTransitive(a, b, c);
    }
  }

  lemma {:induction false} PrefixAtMost(p: string, t: string)
    requires p <= t
    ensures AtMost(p, t)
    decreases |p|
  {
    if p != "" {
      PrefixAtMost(p[1..], t[1..]);
    }
  }

  /** Strings with a prefix are contiguous in the order. */
  lemma {:induction false} PrefixBetween(p: string, y: string, z: string)
    requires AtMost(p, y) && AtMost(y, z) && p <= z
    ensures p <= y
    decreases |p|
  {
    if p != "" {
      assert y != "" && z != "" && p[0] == z[0];
      assert y[0] == p[0];
      PrefixBetween(p[1..], y[1..], z[1..]);
    }
  }

  // ---------- the sort package ----------

  /** sort.Search: the least index from which on `f` holds, by binary search. */
  method Search(n: nat, f: int -> bool) returns (r: nat)
    requires forall i, j :: 0 <= i <= j < n && f(i) ==> f(j)
    ensures r <= n && (forall i :: 0 <= i < r ==> !f(i)) && forall i :: r <= i < n ==> f(i)
  {
    var i, j := 0, n;
    while i < j
      invariant 0 <= i <= j <= n
      invariant (forall k :: 0 <= k < i ==> !f(k)) && forall k :: j <= k < n ==> f(k)
    {
      var h := (i + j) / 2;
      if !f(h) {
        assert forall k :: 0 <= k <= h && f(k) ==> f(h);
        i := h + 1;
      } else {
        j := h;
      }
    }
    r := i;
  }

  // ---------- merging postings ----------

  datatype Cursor = Cursor(ids: seq<string>, offset: nat)

  ghost predicate Live(c: Cursor) {
    c.offset < |c.ids| && Increasing(c.ids)
  }

  ghost predicate Ahead(c: Cursor, x: string) {
    exists i :: c.offset <= i < |c.ids| && c.ids[i] == x
  }

  /** Some cursor still has to pass `x`. */
  ghost predicate Waiting(queue: seq<Cursor>, x: string) {
    exists c :: c in queue && Ahead(c, x)
  }

  /** `out` is what a visitor saw of `ids` when it went on while `more` held. */
  predicate Visited(ids: seq<string>, more: string -> bool, out: seq<string>) {
    && out <= ids
    && (forall i :: 0 <= i < |out| - 1 ==> more(out[i]))
    && (out == ids || (out != [] && !more(out[|out| - 1])))
  }

  /** The identities of some postings from a start on. */
  ghost function From(buckets: seq<seq<string>>, start: string): set<string> {
    set b, x | b in buckets && x in b && x != "" && AtMost(start, x) :: x
  }

  function LeftOf(c: Cursor): nat {
    if c.offset < |c.ids| then |c.ids| - c.offset else 0
  }

  /** Identities the cursors still have to pass. */
  function Left(queue: seq<Cursor>): nat {
    if queue == [] then 0 else LeftOf(queue[0]) + Left(queue[1..])
  }

  lemma {:induction false} LeftJoins(a: seq<Cursor>, b: seq<Cursor>)
    ensures Left(a + b) == Left(a) + Left(b)
    decreases |a|
  {
    if a == [] {
      assert a + b == b;
    } else {
      assert (a + b)[1..] == a[1..] + b;
      LeftJoins(a[1..], b);
    }
  }

  lemma LeftOne(c: Cursor)
    ensures Left([c]) == LeftOf(c)
  {
    assert [c][1..] == [];
  }

  lemma LeftMiddle(before: seq<Cursor>, c: Cursor, after: seq<Cursor>)
    ensures Left(before + ([c] + after)) == Left(before + after) + LeftOf(c)
  {
    hide Left, LeftOf;
    LeftOne(c);
    LeftJoins(before, [c] + after);
    LeftJoins([c], after);
    LeftJoins(before, after);
  }

  lemma LeftWithout(queue: seq<Cursor>, k: nat)
    requires k < |queue|
    ensures Left(queue) == Left(queue[..k] + queue[k + 1..]) + LeftOf(queue[k])
  {
    hide Left, LeftOf;
    assert queue == queue[..k] + ([queue[k]] + queue[k + 1..]);
    LeftMiddle(queue[..k], queue[k], queue[k + 1..]);
  }

  /** heap.Pop: a cursor with the least next identity, and the others. */
  method PopLeast(queue: seq<Cursor>) returns (c: Cursor, rest: seq<Cursor>)
    requires queue != [] && forall d :: d in queue ==> Live(d)
    ensures Live(c) && (forall d :: d in queue <==> d == c || d in rest)
    ensures forall d :: d in queue ==> Live(d) && AtMost(c.ids[c.offset], d.ids[d.offset])
    ensures Left(queue) == Left(rest) + |c.ids| - c.offset
  {
    var k := 0;
    assert queue[0] in queue;
    LessIrreflexive(queue[0].ids[queue[0].offset]);
    for i := 1 to |queue|
      invariant 0 <= k < i && Live(queue[k])
      invariant forall j :: 0 <= j < i ==> Live(queue[j]) && AtMost(queue[k].ids[queue[k].offset], queue[j].ids[queue[j].offset])
    {
      assert queue[i] in queue;
      var best, next := queue[k].ids[queue[k].offset], queue[i].ids[queue[i].offset];
      if Less(next, best) {
        LessIrreflexive(next);
        forall j | 0 <= j < i ensures AtMost(next, queue[j].ids[queue[j].offset]) {
          LessAsymmetric(next, best);
          AtMostTransitive(next, best, queue[j].ids[queue[j].offset]);
        }
        k := i;
      }
    }
    c, rest := queue[k], queue[..k] + queue[k + 1..];
    LeftWithout(queue, k);
    forall d ensures d in queue <==> d == c || d in rest {
      assert queue == queue[..k] + [c] + queue[k + 1..];
    }
  }

  /** Nothing still waiting comes before the least next identity. */
  lemma LeastWaits(queue: seq<Cursor>, c: Cursor, x: string)
    requires Live(c) && (forall d :: d in queue ==> Live(d) && AtMost(c.ids[c.offset], d.ids[d.offset])) && Waiting(queue, x)
    ensures AtMost(c.ids[c.offset], x)
  {
    var d :| d in queue && Ahead(d, x);
    var i :| d.offset <= i < |d.ids| && d.ids[i] == x;
    if i > d.offset {
      AtMostThenLess(c.ids[c.offset], d.ids[d.offset], x);
      LessAsymmetric(c.ids[c.offset], x);
    }
  }

  function Advanced(rest: seq<Cursor>, c: Cursor): seq<Cursor> {
    if c.offset + 1 < |c.ids| then rest + [c.(offset := c.offset + 1)] else rest
  }

  /** Popping a cursor and pushing it back one further passes exactly its next identity. */
  lemma AdvancePasses(queue: seq<Cursor>, c: Cursor, rest: seq<Cursor>, x: string)
    requires Live(c) && forall d :: d in queue <==> d == c || d in rest
    ensures Waiting(queue, x) <==> Waiting(Advanced(rest, c), x) || x == c.ids[c.offset]
  {
    var next := c.(offset := c.offset + 1);
    assert Ahead(c, x) <==> Ahead(next, x) || x == c.ids[c.offset];
    if d :| d in queue && Ahead(d, x) {
      assert d == c || d in Advanced(rest, c);
      assert Ahead(next, x) ==> next in Advanced(rest, c);
    }
    if d :| d in Advanced(rest, c) && Ahead(d, x) {
      assert d == next || d in rest;
      assert d == next ==> Ahead(c, x) && c in queue;
      assert d in rest ==> d in queue;
    }
    if x == c.ids[c.offset] {
      assert c in queue && Ahead(c, x);
    }
  }

  lemma AdvanceLives(queue: seq<Cursor>, c: Cursor, rest: seq<Cursor>)
    requires (forall d :: d in queue <==> d == c || d in rest) && forall d :: d in queue ==> Live(d)
    ensures forall d :: d in Advanced(rest, c) ==> Live(d)
    ensures Left(Advanced(rest, c)) == Left(rest) + |c.ids| - c.offset - 1
  {
    assert c in queue;
    var next := c.(offset := c.offset + 1);
    LeftJoins(rest, [next]);
    LeftOne(next);
  }

  /** Seek every posting to the start. */
  method Seek(buckets: seq<seq<string>>, start: string) returns (queue: seq<Cursor>)
    requires forall b :: b in buckets ==> Increasing(b)
    ensures forall c :: c in queue ==> Live(c)
    ensures forall x :: Waiting(queue, x) <==> exists b :: b in buckets && x in b && AtMost(start, x)
  {
    queue := [];
    for n := 0 to |buckets|
      invariant forall c :: c in queue ==> Live(c)
      invariant forall x :: Waiting(queue, x) <==> exists b :: b in buckets[..n] && x in b && AtMost(start, x)
    {
      var ids := buckets[n];
      assert ids in buckets;
      forall i, j | 0 <= i <= j < |ids| && AtMost(start, ids[i]) ensures AtMost(start, ids[j]) {
        SeekMonotone(ids, start, i, j);
      }
      var reached := i => 0 <= i < |ids| && AtMost(start, ids[i]);
      var offset := Search(|ids|, reached);
      var c := Cursor(ids, offset);
      forall x ensures Ahead(c, x) <==> x in ids && AtMost(start, x) {
        if Ahead(c, x) {
          var k :| offset <= k < |ids| && ids[k] == x;
          assert reached(k);
        }
        if x in ids && AtMost(start, x) {
          var k :| 0 <= k < |ids| && ids[k] == x;
          assert reached(k);
        }
      }
      ghost var before := queue;
      if offset < |ids| {
        queue := queue + [c];
      }
      assert buckets[..n + 1] == buckets[..n] + [ids];
      forall x ensures Waiting(queue, x) <==> exists b :: b in buckets[..n + 1] && x in b && AtMost(start, x) {
        SeekGrows(before, queue, c, buckets[..n], start, x);
      }
    }
    assert buckets[..|buckets|] == buckets;
  }

  lemma SeekMonotone(ids: seq<string>, start: string, i: nat, j: nat)
    requires Increasing(ids) && i <= j < |ids| && AtMost(start, ids[i])
    ensures AtMost(start, ids[j])
  {
    if i < j {
      AtMostThenLess(start, ids[i], ids[j]);
      LessAsymmetric(start, ids[j]);
    }
  }

  lemma SeekGrows(before: seq<Cursor>, after: seq<Cursor>, c: Cursor, buckets: seq<seq<string>>, start: string, x: string)
    requires after == if c.offset < |c.ids| then before + [c] else before
    requires Ahead(c, x) <==> x in c.ids && AtMost(start, x)
    requires Waiting(before, x) <==> exists b :: b in buckets && x in b && AtMost(start, x)
    ensures Waiting(after, x) <==> exists b :: b in buckets + [c.ids] && x in b && AtMost(start, x)
  {
    assert Waiting(after, x) <==> Waiting(before, x) || Ahead(c, x) by {
      if d :| d in after && Ahead(d, x) {
        assert d in before || d == c;
      }
      if d :| d in before && Ahead(d, x) {
        assert d in after;
      }
      if Ahead(c, x) {
        assert c in after;
      }
    }
    if b :| b in buckets + [c.ids] && x in b && AtMost(start, x) {
      assert b in buckets || b == c.ids;
    }
    if b :| b in buckets && x in b && AtMost(start, x) {
      assert b in buckets + [c.ids];
    }
    if Ahead(c, x) {
      assert c.ids in buckets + [c.ids];
    }
  }

  /** An increasing run of a set that leaves out only later elements is how the sorted set begins. */
  lemma BeginsSorted(out: seq<string>, target: set<string>)
    requires Increasing(out) && (forall x :: x in out ==> x in target)
    requires forall x, y :: x in target && x !in out && y in out ==> Less(y, x)
    ensures out <= Sorted(target)
    ensures (forall x :: x in target ==> x in out) ==> out == Sorted(target)
  {
    var rest := set x | x in target && x !in out;
    var whole := out + Sorted(rest);
    forall i, j | 0 <= i < j < |whole| ensures Less(whole[i], whole[j]) {
      if i < |out| <= j {
        assert whole[j] in Sorted(rest) && whole[i] in out;
      }
    }
    forall x ensures x in whole <==> x in target {
      assert x in whole <==> x in out || x in Sorted(rest);
    }
    SortedIsUnique(whole, Sorted(target), target);
    if forall x :: x in target ==> x in out {
      assert rest == {};
      assert Sorted(rest) == [];
    }
  }

  /** What the merge has done when its last visited identity is `last`. */
  ghost predicate Merging(queue: seq<Cursor>, target: set<string>, last: string, out: seq<string>) {
    && (forall c :: c in queue ==> Live(c))
    && Increasing(out) && last == (if out == [] then "" else out[|out| - 1])
    && "" !in target && (forall x :: x in out ==> x in target)
    && (forall x :: x in target ==> x in out || Waiting(queue, x))
    && (forall x :: Waiting(queue, x) ==> AtMost(last, x) && (x == "" || x in target))
  }

  lemma MergeStep(queue: seq<Cursor>, target: set<string>, last: string, out: seq<string>, c: Cursor, rest: seq<Cursor>)
    requires Merging(queue, target, last, out) && Live(c) && forall d :: d in queue <==> d == c || d in rest
    requires forall d :: d in queue ==> Live(d) && AtMost(c.ids[c.offset], d.ids[d.offset])
    ensures var id := c.ids[c.offset];
      if id == last then Merging(Advanced(rest, c), target, last, out) else Merging(Advanced(rest, c), target, id, out + [id])
  {
    var id := c.ids[c.offset];
    var next := Advanced(rest, c);
    AdvanceLives(queue, c, rest);
    forall x ensures Waiting(queue, x) <==> Waiting(next, x) || x == id {
      AdvancePasses(queue, c, rest, x);
    }
    assert Waiting(queue, id);
    if id != last {
      LessTotal(last, id);
      assert Less(last, id) && id != "" && id in target;
      forall x | Waiting(next, x) ensures AtMost(id, x) {
        LeastWaits(queue, c, x);
      }
      var longer := out + [id];
      forall i | 0 <= i < |out| ensures Less(out[i], id) {
        if i < |out| - 1 {
          LessTransitive(out[i], last, id);
        }
      }
    } else {
      assert id == "" || id in out;
    }
  }

  lemma MergeVisited(queue: seq<Cursor>, target: set<string>, last: string, out: seq<string>)
    requires Merging(queue, target, last, out)
    ensures out <= Sorted(target) && (queue == [] ==> out == Sorted(target))
  {
    forall x, y | x in target && x !in out && y in out ensures Less(y, x) {
      assert Waiting(queue, x) && AtMost(last, x) && last in out;
      LessTotal(last, x);
      if y != last {
        var i :| 0 <= i < |out| && out[i] == y;
        LessTransitive(y, last, x);
      }
    }
    BeginsSorted(out, target);
  }

  /** VisitSortedIDs: the k-way merge visits the non-empty identities of the postings from the start
      on, once each and in increasing order, until the visitor has enough. */
  method VisitSortedIDs(buckets: seq<seq<string>>, start: string, more: string -> bool) returns (out: seq<string>)
    requires forall b :: b in buckets ==> Increasing(b)
    ensures Visited(Sorted(From(buckets, start)), more, out)
  {
    hide Merging, Waiting, From, Less, AtMost, Increasing, SortedAs, Left, Advanced, Live;
    ghost var target := From(buckets, start);
    var queue := Seek(buckets, start);
    MergeStarts(buckets, start, queue);
    var last := "";
    out := [];
    while queue != []
      invariant Merging(queue, target, last, out)
      invariant forall i :: 0 <= i < |out| ==> more(out[i])
      decreases Left(queue)
    {
      MergingLives(queue, target, last, out);
      var c, rest := PopLeast(queue);
      LiveNext(c);
      MergeStep(queue, target, last, out, c, rest);
      AdvanceLives(queue, c, rest);
      queue := Advanced(rest, c);
      var id := c.ids[c.offset];
      if id != last {
        last := id;
        out := out + [id];
        if !more(id) {
          MergeVisited(queue, target, last, out);
          return;
        }
      }
    }
    MergeVisited(queue, target, last, out);
  }

  lemma LiveNext(c: Cursor)
    requires Live(c)
    ensures c.offset < |c.ids|
  {
  }

  lemma MergeStarts(buckets: seq<seq<string>>, start: string, queue: seq<Cursor>)
    requires forall c :: c in queue ==> Live(c)
    requires forall x :: Waiting(queue, x) <==> exists b :: b in buckets && x in b && AtMost(start, x)
    ensures Merging(queue, From(buckets, start), "", [])
  {
    hide Waiting, Live;
  }

  lemma MergingLives(queue: seq<Cursor>, target: set<string>, last: string, out: seq<string>)
    requires Merging(queue, target, last, out)
    ensures forall c :: c in queue ==> Live(c)
  {
  }

  // ---------- ranges over field values ----------

  datatype Op = Gt | Gte | Lt | Lte | Prefix | OtherOp

  /** A bound on the values of a field; its number is missing when it is not a number. */
  datatype Bound = Bound(op: Op, text: string, number: Option<real>, numeric: bool)

  /** What an index key says: nothing a range can use, a text, or a number with its text. A number may
      parse to no number at all. */
  datatype Reading = Skipped | Text(text: string) | Number(text: string, number: Option<real>)

  datatype FieldValue = FieldValue(key: string, text: string, number: real)

  predicate TextIn(b: Bound, text: string) {
    match b.op
    case Gt => Less(b.text, text)
    case Gte => AtMost(b.text, text)
    case Lt => Less(text, b.text)
    case Lte => AtMost(text, b.text)
    case Prefix => b.text <= text
    case OtherOp => true
  }

  predicate NumberIn(b: Bound, number: real) {
    b.number.Some? &&
    match b.op
    case Gt => b.number.value < number
    case Gte => b.number.value <= number
    case Lt => number < b.number.value
    case Lte => number <= b.number.value
    case _ => true
  }

  predicate Within(b: Bound, numeric: bool, v: FieldValue) {
    if numeric then NumberIn(b, v.number) else TextIn(b, v.text)
  }

  predicate NotAfter(numeric: bool, v: FieldValue, w: FieldValue) {
    if numeric then v.number <= w.number else AtMost(v.text, w.text)
  }

  predicate InOrder(numeric: bool, values: seq<FieldValue>) {
    forall i, j :: 0 <= i < j < |values| ==> NotAfter(numeric, values[i], values[j])
  }

  lemma NotAfterTransitive(numeric: bool, a: FieldValue, b: FieldValue, c: FieldValue)
    requires NotAfter(numeric, a, b) && NotAfter(numeric, b, c)
    ensures NotAfter(numeric, a, c)
  {
    if !numeric {
      AtMostTransitive(a.text, b.text, c.text);
    }
  }

  lemma NotAfterTotal(numeric: bool, a: FieldValue, b: FieldValue)
    ensures NotAfter(numeric, a, b) || NotAfter(numeric, b, a)
  {
    if !numeric && Less(b.text, a.text) {
      LessAsymmetric(b.text, a.text);
    }
  }

  /** sort.Slice by number or by text. */
  method SortValues(numeric: bool, values: seq<FieldValue>) returns (sorted: seq<FieldValue>)
    ensures InOrder(numeric, sorted) && forall v :: v in sorted <==> v in values
  {
    sorted := [];
    for n := 0 to |values|
      invariant InOrder(numeric, sorted) && forall v :: v in sorted <==> v in values[..n]
    {
      sorted := InsertValue(numeric, values[n], sorted);
      assert values[..n + 1] == values[..n] + [values[n]];
    }
    assert values[..|values|] == values;
  }

  method InsertValue(numeric: bool, v: FieldValue, values: seq<FieldValue>) returns (longer: seq<FieldValue>)
    requires InOrder(numeric, values)
    ensures InOrder(numeric, longer) && forall w :: w in longer <==> w == v || w in values
  {
    var k := 0;
    while k < |values| && NotAfter(numeric, values[k], v)
      invariant 0 <= k <= |values| && forall i :: 0 <= i < k ==> NotAfter(numeric, values[i], v)
    {
      k := k + 1;
    }
    longer := values[..k] + [v] + values[k..];
    assert values == values[..k] + values[k..];
    forall i, j | 0 <= i < j < |longer| ensures NotAfter(numeric, longer[i], longer[j]) {
      if i == k {
        NotAfterTotal(numeric, v, values[k]);
        if j > k + 1 {
          NotAfterTransitive(numeric, v, values[k], values[j - 1]);
        }
      }
    }
  }

  /** Where the search of fieldValuesInRange starts to answer yes. */
  predicate Reaches(b: Bound, numeric: bool, v: FieldValue) {
    var strict := b.op.Gt? || b.op.Lte?;
    if numeric then b.number.Some? && (v.number > b.number.value || (!strict && v.number == b.number.value))
    else Less(b.text, v.text) || (!strict && v.text == b.text)
  }

  lemma ReachesOn(b: Bound, numeric: bool, v: FieldValue, w: FieldValue)
    requires Reaches(b, numeric, v) && NotAfter(numeric, v, w)
    ensures Reaches(b, numeric, w)
  {
    if !numeric {
      LessTotal(v.text, w.text);
      if v.text != w.text && Less(b.text, v.text) {
        LessTransitive(b.text, v.text, w.text);
      }
    }
  }

  /** What the search position means for each operator. */
  predicate Placed(b: Bound, numeric: bool, v: FieldValue) {
    && (b.op.Gt? || b.op.Gte? ==> (Within(b, numeric, v) <==> Reaches(b, numeric, v)))
    && (b.op.Lt? || b.op.Lte? ==> (Within(b, numeric, v) <==> !Reaches(b, numeric, v)))
    && (!numeric && b.op.Prefix? && Within(b, numeric, v) ==> Reaches(b, numeric, v))
    && (!numeric && b.op.Prefix? && Reaches(b, numeric, v) ==> AtMost(b.text, v.text))
  }

  lemma ReachesMeans(b: Bound, numeric: bool, v: FieldValue)
    requires numeric ==> b.number.Some?
    ensures Placed(b, numeric, v)
  {
    if !numeric {
      LessTotal(b.text, v.text);
      LessIrreflexive(b.text);
      if Less(b.text, v.text) {
        LessAsymmetric(b.text, v.text);
      }
      if Less(v.text, b.text) {
        LessAsymmetric(v.text, b.text);
      }
      if b.text <= v.text {
        PrefixAtMost(b.text, v.text);
      }
    }
  }

  /** The first value the search answers yes at. */
  method Position(values: seq<FieldValue>, b: Bound, numeric: bool) returns (position: nat)
    requires InOrder(numeric, values)
    ensures position <= |values| && forall i :: 0 <= i < |values| ==> (position <= i <==> Reaches(b, numeric, values[i]))
  {
    var reached := i => 0 <= i < |values| && Reaches(b, numeric, values[i]);
    forall i, j | 0 <= i <= j < |values| && reached(i) ensures reached(j) {
      if i < j {
        ReachesOn(b, numeric, values[i], values[j]);
      }
    }
    position := Search(|values|, reached);
    forall i | 0 <= i < |values| ensures position <= i <==> Reaches(b, numeric, values[i]) {
      assert reached(i) <==> Reaches(b, numeric, values[i]);
    }
  }

  /** The end of the values with a prefix, searched from the first value not before it. */
  method PrefixEnd(values: seq<FieldValue>, prefix: string, position: nat) returns (last: nat)
    requires InOrder(false, values) && position <= |values|
    requires forall i :: position <= i < |values| ==> AtMost(prefix, values[i].text)
    ensures position <= last <= |values| && forall i :: position <= i < |values| ==> (i < last <==> prefix <= values[i].text)
  {
    var outside := i => 0 <= i < |values| - position && !(prefix <= values[position + i].text);
    forall i, j | 0 <= i <= j < |values| - position && outside(i) ensures outside(j) {
      if prefix <= values[position + j].text && i < j {
        assert NotAfter(false, values[position + i], values[position + j]);
        PrefixBetween(prefix, values[position + i].text, values[position + j].text);
      }
    }
    var length := Search(|values| - position, outside);
    last := position + length;
    forall i | position <= i < |values| ensures i < last <==> prefix <= values[i].text {
      assert outside(i - position) <==> !(prefix <= values[i].text);
    }
  }

  lemma SliceKeeps(values: seq<FieldValue>, b: Bound, numeric: bool, first: nat, last: nat)
    requires InOrder(numeric, values) && first <= last <= |values|
    requires forall i :: 0 <= i < |values| ==> (first <= i < last <==> Within(b, numeric, values[i]))
    ensures InOrder(numeric, values[first..last]) && forall v :: v in values[first..last] <==> v in values && Within(b, numeric, v)
  {
    var kept := values[first..last];
    forall v ensures v in kept <==> v in values && Within(b, numeric, v) {
      if v in values && Within(b, numeric, v) {
        var i :| 0 <= i < |values| && values[i] == v;
        assert kept[i - first] == v;
      }
    }
  }

  /** fieldValuesInRange: binary search keeps exactly the values within the bound. */
  method FieldValuesInRange(values: seq<FieldValue>, b: Bound, numeric: bool) returns (kept: seq<FieldValue>)
    requires InOrder(numeric, values) && (numeric ==> !b.op.Prefix?)
    ensures InOrder(numeric, kept) && forall v :: v in kept <==> v in values && Within(b, numeric, v)
  {
    if numeric && b.number.None? {
      return [];
    }
    var position := Position(values, b, numeric);
    forall i | 0 <= i < |values| ensures Placed(b, numeric, values[i]) {
      ReachesMeans(b, numeric, values[i]);
    }
    hide Reaches, InOrder, AtMost;
    var first, last := 0, |values|;
    match b.op {
      case Gt => first := position;
      case Gte => first := position;
      case Lt => last := position;
      case Lte => last := position;
      case Prefix =>
        first := position;
        last := PrefixEnd(values, b.text, position);
      case OtherOp =>
    }
    SliceKeeps(values, b, numeric, first, last);
    kept := values[first..last];
  }

  // ---------- one field of one kind ----------

  const MIN_CACHED_ORDER: nat := 32

  /** fieldValueOrder: the values by text, those that are numbers by number, the others by text. */
  datatype ValueOrder = ValueOrder(text: seq<FieldValue>, numeric: seq<FieldValue>, nonNumeric: seq<FieldValue>)

  function TextOf(r: Reading): string
    requires !r.Skipped?
  {
    r.text
  }

  function NumberOf(r: Reading): real {
    if r.Number? && r.number.Some? then r.number.value else 0.0
  }

  function ValueOf(read: string -> Reading, key: string): FieldValue
    requires !read(key).Skipped?
  {
    FieldValue(key, TextOf(read(key)), NumberOf(read(key)))
  }

  predicate Readable(read: string -> Reading, v: FieldValue) {
    !read(v.key).Skipped? && v == ValueOf(read, v.key)
  }

  predicate ReadsNumber(read: string -> Reading, v: FieldValue) {
    Readable(read, v) && read(v.key).Number? && read(v.key).number.Some?
  }

  predicate ReadsText(read: string -> Reading, v: FieldValue) {
    Readable(read, v) && read(v.key).Text?
  }

  /** Each list holds the values of the keys that belong in it. */
  ghost predicate Collects(read: string -> Reading, keys: set<string>, order: ValueOrder) {
    && (forall v :: v in order.text <==> v.key in keys && Readable(read, v))
    && (forall v :: v in order.numeric <==> v.key in keys && ReadsNumber(read, v))
    && (forall v :: v in order.nonNumeric <==> v.key in keys && ReadsText(read, v))
  }

  ghost predicate Orders(read: string -> Reading, keys: set<string>, order: ValueOrder) {
    Collects(read, keys, order) && InOrder(false, order.text) && InOrder(true, order.numeric) && InOrder(false, order.nonNumeric)
  }

  /** One more key. */
  function Collected(read: string -> Reading, order: ValueOrder, key: string): ValueOrder {
    match read(key)
    case Skipped => order
    case Number(_, number) =>
      var v := ValueOf(read, key);
      order.(text := order.text + [v], numeric := if number.Some? then order.numeric + [v] else order.numeric)
    case Text(_) =>
      var v := ValueOf(read, key);
      order.(text := order.text + [v], nonNumeric := order.nonNumeric + [v])
  }

  lemma CollectsOneMore(read: string -> Reading, keys: set<string>, order: ValueOrder, key: string)
    requires Collects(read, keys, order)
    ensures Collects(read, keys + {key}, Collected(read, order, key))
  {
  }

  predicate ComparesNumbers(bounds: seq<Bound>) {
    exists b :: b in bounds && b.numeric && !b.op.Prefix?
  }

  /** What the bounds let through. As soon as one of them compares numbers, numbers answer to those
      bounds alone and other values to all bounds by their text. */
  predicate Allowed(bounds: seq<Bound>, r: Reading) {
    && !r.Skipped?
    && if ComparesNumbers(bounds) && r.Number?
       then r.number.Some? && forall b :: b in bounds && b.numeric && !b.op.Prefix? ==> NumberIn(b, r.number.value)
       else forall b :: b in bounds ==> TextIn(b, r.text)
  }

  /** The identities under the keys the bounds and the filter let through. */
  ghost function Chosen(index: Postings<string>, read: string -> Reading, bounds: seq<Bound>, filter: string -> bool, start: string): set<string> {
    set key, id | key in index && id in index[key] && Allowed(bounds, read(key)) && filter(key) && id != "" && AtMost(start, id) :: id
  }

  /** The identities under every key that the filter lets through. */
  ghost function Scanned(index: Postings<string>, filter: string -> bool, start: string): set<string> {
    set key, id | key in index && id in index[key] && filter(key) && id != "" && AtMost(start, id) :: id
  }

  ghost predicate NoneEmpty(index: Postings<string>) {
    forall key :: key in index ==> index[key] != {}
  }

  /** Every cached order is that of the postings as they are now. */
  ghost predicate OrdersCurrent(index: Postings<string>, idOrder: map<string, seq<string>>) {
    forall key :: key in idOrder ==> idOrder[key] == Sorted(At(index, key))
  }

  lemma PostedKeeps(index: Postings<string>, idOrder: map<string, seq<string>>, key: string, id: string)
    requires NoneEmpty(index) && OrdersCurrent(index, idOrder)
    ensures NoneEmpty(Posted(index, key, id)) && OrdersCurrent(Posted(index, key, id), idOrder - {key})
    ensures At(index, key) != {} ==> Posted(index, key, id).Keys == index.Keys
  {
    hide SortedAs;
    forall k | k in idOrder && k != key ensures At(Posted(index, key, id), k) == At(index, k) {
    }
  }

  lemma UnpostedKeeps(index: Postings<string>, idOrder: map<string, seq<string>>, key: string, id: string)
    requires NoneEmpty(index) && OrdersCurrent(index, idOrder) && key in index
    ensures NoneEmpty(Unposted(index, key, id)) && OrdersCurrent(Unposted(index, key, id), idOrder - {key})
    ensures index[key] - {id} != {} ==> Unposted(index, key, id).Keys == index.Keys
  {
    hide SortedAs;
    forall k | k in idOrder && k != key ensures At(Unposted(index, key, id), k) == At(index, k) {
    }
  }

  /** The postings of one field of one kind, with the orders cached over them. */
  class FieldReads {
    const read: string -> Reading
    var index: Postings<string>
    var idOrder: map<string, seq<string>>
    var valueOrder: Option<ValueOrder>

    constructor (read: string -> Reading)
      ensures Valid() && index == map[] && this.read == read
    {
      this.read := read;
      index, idOrder, valueOrder := map[], map[], None;
    }

    /** No empty postings, and every cached order is that of the postings as they are now. */
    ghost predicate Valid()
      reads this
    {
      && NoneEmpty(index)
      && OrdersCurrent(index, idOrder)
      && (valueOrder.Some? ==> Orders(read, index.Keys, valueOrder.value))
    }

    /** addEntityFieldIndex. */
    method Add(key: string, id: string)
      requires Valid()
      modifies this
      ensures Valid() && index == Posted(old(index), key, id)
    {
      PostedKeeps(index, idOrder, key, id);
      hide NoneEmpty, OrdersCurrent, Posted, Orders;
      idOrder := idOrder - {key};
      if At(index, key) == {} {
        valueOrder := None;
      }
      index := Posted(index, key, id);
    }

    /** removeEntityFieldIndex. */
    method Remove(key: string, id: string)
      requires Valid()
      modifies this
      ensures Valid() && index == (if key in old(index) then Unposted(old(index), key, id) else old(index))
    {
      if key !in index {
        return;
      }
      UnpostedKeeps(index, idOrder, key, id);
      hide NoneEmpty, OrdersCurrent, Unposted, Orders;
      idOrder := idOrder - {key};
      if index[key] - {id} == {} {
        valueOrder := None;
      }
      index := Unposted(index, key, id);
    }

    /** sortedFieldIndexIDs: short postings are sorted each time, long ones once. */
    method SortedIDs(key: string) returns (ids: seq<string>)
      requires Valid()
      modifies this`idOrder
      ensures Valid() && ids == Sorted(At(index, key))
    {
      var postings := At(index, key);
      if |postings| < MIN_CACHED_ORDER {
        ids := SortSet(postings);
        return;
      }
      if key in idOrder {
        return idOrder[key];
      }
      ids := SortSet(postings);
      idOrder := idOrder[key := ids];
    }

    /** sortedFieldValues. */
    method SortedValues() returns (order: ValueOrder)
      requires Valid()
      modifies this`valueOrder
      ensures Valid() && Orders(read, index.Keys, order)
    {
      if valueOrder.Some? {
        return valueOrder.value;
      }
      order := ValueOrder([], [], []);
      var todo := index.Keys;
      while todo != {}
        invariant todo <= index.Keys && Collects(read, index.Keys - todo, order)
        decreases todo
      {
        var key :| key in todo;
        CollectsOneMore(read, index.Keys - todo, order, key);
        assert index.Keys - (todo - {key}) == index.Keys - todo + {key};
        todo, order := todo - {key}, Collected(read, order, key);
      }
      assert index.Keys - {} == index.Keys;
      var text := SortValues(false, order.text);
      var nonNumeric := SortValues(false, order.nonNumeric);
      var numeric := SortValues(true, order.numeric);
      order := ValueOrder(text, numeric, nonNumeric);
      valueOrder := Some(order);
    }

    /** The postings of the values that pass the filter, each in identity order. */
    method Match(values: seq<FieldValue>, filter: string -> bool, before: seq<seq<string>>, ghost seen: set<string>) returns (buckets: seq<seq<string>>)
      requires Valid() && Gathered(index, seen, filter, before)
      modifies this`idOrder
      ensures Valid() && Gathered(index, seen + KeysOf(values), filter, buckets)
    {
      buckets := before;
      ghost var keys := seen;
      hide FieldReads.Valid, Gathered;
      for i := 0 to |values|
        invariant Valid() && keys == seen + KeysOf(values[..i]) && Gathered(index, keys, filter, buckets)
      {
        var key := values[i].key;
        assert KeysOf(values[..i + 1]) == KeysOf(values[..i]) + {key};
        if filter(key) {
          var ids := SortedIDs(key);
          MorePostings(index, keys, filter, buckets, key);
          buckets := buckets + [ids];
        } else {
          MorePostings(index, keys, filter, buckets, key);
        }
        keys := keys + {key};
      }
      assert values[..|values|] == values;
    }

    /** VisitFilteredFieldIDs: narrow by binary search, then merge. With a filter that implies the bounds
        nothing is lost against a scan of every key. */
    method VisitFiltered(bounds: seq<Bound>, start: string, filter: string -> bool, more: string -> bool) returns (out: seq<string>)
      requires Valid()
      modifies this`idOrder, this`valueOrder
      ensures Valid()
      ensures Visited(Sorted(Chosen(index, read, bounds, filter, start)), more, out)
      ensures (forall key :: key in index && filter(key) ==> Allowed(bounds, read(key))) ==> Visited(Sorted(Scanned(index, filter, start)), more, out)
    {
      var order := SortedValues();
      hide FieldReads.Valid, InOrder, Allowed, Visited, SortedAs;
      assert Gathered(index, {}, filter, []);
      var buckets: seq<seq<string>>;
      if ComparesNumbers(bounds) {
        var numeric := NarrowNumbers(order.numeric, bounds);
        var other := NarrowText(order.nonNumeric, bounds);
        NumbersAllowed(read, index.Keys, order, bounds, numeric, other);
        hide KeysOf, Gathered;
        buckets := Match(numeric, filter, [], {});
        buckets := Match(other, filter, buckets, {} + KeysOf(numeric));
      } else {
        var values := NarrowText(order.text, bounds);
        TextsAllowed(read, index.Keys, order, bounds, values);
        hide KeysOf, Gathered;
        buckets := Match(values, filter, [], {});
      }
      assert Gathered(index, AllowedKeys(read, index.Keys, bounds), filter, buckets);
      GatheredAre(index, read, bounds, filter, buckets, start);
      out := VisitSortedIDs(buckets, start, more);
      FilterImplies(index, read, bounds, filter, start);
    }
  }

  ghost function KeysOf(values: seq<FieldValue>): set<string> {
    set v | v in values :: v.key
  }

  /** `buckets` are the sorted postings of the keys in `seen` that pass the filter. */
  ghost predicate Gathered(index: Postings<string>, seen: set<string>, filter: string -> bool, buckets: seq<seq<string>>) {
    && (forall b :: b in buckets ==> exists key :: SortedUnder(index, seen, filter, key, b))
    && (forall key :: key in seen && filter(key) ==> Sorted(At(index, key)) in buckets)
  }

  ghost predicate SortedUnder(index: Postings<string>, seen: set<string>, filter: string -> bool, key: string, b: seq<string>) {
    key in seen && filter(key) && b == Sorted(At(index, key))
  }

  lemma MorePostings(index: Postings<string>, seen: set<string>, filter: string -> bool, buckets: seq<seq<string>>, key: string)
    requires Gathered(index, seen, filter, buckets)
    ensures Gathered(index, seen + {key}, filter, if filter(key) then buckets + [Sorted(At(index, key))] else buckets)
  {
    var after := if filter(key) then buckets + [Sorted(At(index, key))] else buckets;
    forall b | b in after ensures exists k :: SortedUnder(index, seen + {key}, filter, k, b) {
      if b in buckets {
        var k :| SortedUnder(index, seen, filter, k, b);
        assert SortedUnder(index, seen + {key}, filter, k, b);
      } else {
        assert SortedUnder(index, seen + {key}, filter, key, b);
      }
    }
    forall k | k in seen + {key} && filter(k) ensures Sorted(At(index, k)) in after {
      assert k in seen ==> Sorted(At(index, k)) in buckets;
    }
  }

  /** Every bound in turn, by text. */
  method NarrowText(values: seq<FieldValue>, bounds: seq<Bound>) returns (kept: seq<FieldValue>)
    requires InOrder(false, values)
    ensures forall v :: v in kept <==> v in values && forall b :: b in bounds ==> TextIn(b, v.text)
  {
    kept := values;
    hide InOrder, TextIn;
    for i := 0 to |bounds|
      invariant InOrder(false, kept) && forall v :: v in kept <==> v in values && forall j :: 0 <= j < i ==> TextIn(bounds[j], v.text)
    {
      kept := FieldValuesInRange(kept, bounds[i], false);
    }
  }

  /** The bounds that compare numbers, in turn. */
  method NarrowNumbers(values: seq<FieldValue>, bounds: seq<Bound>) returns (kept: seq<FieldValue>)
    requires InOrder(true, values)
    ensures forall v :: v in kept <==> v in values && forall b :: b in bounds && b.numeric && !b.op.Prefix? ==> NumberIn(b, v.number)
  {
    kept := values;
    hide InOrder, NumberIn;
    for i := 0 to |bounds|
      invariant InOrder(true, kept)
      invariant forall v :: v in kept <==> v in values && forall j :: 0 <= j < i && bounds[j].numeric && !bounds[j].op.Prefix? ==> NumberIn(bounds[j], v.number)
    {
      if bounds[i].numeric && !bounds[i].op.Prefix? {
        kept := FieldValuesInRange(kept, bounds[i], true);
      }
    }
  }

  ghost function AllowedKeys(read: string -> Reading, keys: set<string>, bounds: seq<Bound>): set<string> {
    set key | key in keys && Allowed(bounds, read(key))
  }

  lemma TextsAllowed(read: string -> Reading, keys: set<string>, order: ValueOrder, bounds: seq<Bound>, values: seq<FieldValue>)
    requires Collects(read, keys, order) && !ComparesNumbers(bounds)
    requires forall v :: v in values <==> v in order.text && forall b :: b in bounds ==> TextIn(b, v.text)
    ensures {} + KeysOf(values) == AllowedKeys(read, keys, bounds)
  {
    forall key ensures key in KeysOf(values) <==> key in AllowedKeys(read, keys, bounds) {
      if key in KeysOf(values) {
        var v :| v in values && v.key == key;
        assert v in order.text;
      }
      if key in AllowedKeys(read, keys, bounds) {
        assert ValueOf(read, key) in order.text && ValueOf(read, key) in values;
      }
    }
  }

  lemma NumbersAllowed(read: string -> Reading, keys: set<string>, order: ValueOrder, bounds: seq<Bound>, numeric: seq<FieldValue>, other: seq<FieldValue>)
    requires Collects(read, keys, order) && ComparesNumbers(bounds)
    requires forall v :: v in numeric <==> v in order.numeric && forall b :: b in bounds && b.numeric && !b.op.Prefix? ==> NumberIn(b, v.number)
    requires forall v :: v in other <==> v in order.nonNumeric && forall b :: b in bounds ==> TextIn(b, v.text)
    ensures {} + KeysOf(numeric) + KeysOf(other) == AllowedKeys(read, keys, bounds)
  {
    forall key ensures key in KeysOf(numeric) || key in KeysOf(other) <==> key in AllowedKeys(read, keys, bounds) {
      if key in KeysOf(numeric) {
        var v :| v in numeric && v.key == key;
        assert v in order.numeric;
      }
      if key in KeysOf(other) {
        var v :| v in other && v.key == key;
        assert v in order.nonNumeric;
      }
      if key in AllowedKeys(read, keys, bounds) {
        var v := ValueOf(read, key);
        assert if read(key).Number? then v in order.numeric && v in numeric else v in order.nonNumeric && v in other;
      }
    }
  }

  /** Merging the postings of the allowed keys gives the chosen identities. */
  lemma GatheredAre(index: Postings<string>, read: string -> Reading, bounds: seq<Bound>, filter: string -> bool, buckets: seq<seq<string>>, start: string)
    requires Gathered(index, AllowedKeys(read, index.Keys, bounds), filter, buckets)
    ensures From(buckets, start) == Chosen(index, read, bounds, filter, start)
    ensures forall b :: b in buckets ==> Increasing(b)
  {
    var seen := AllowedKeys(read, index.Keys, bounds);
    forall x ensures x in From(buckets, start) <==> x in Chosen(index, read, bounds, filter, start) {
      if x in From(buckets, start) {
        var b :| b in buckets && x in b;
        var key :| SortedUnder(index, seen, filter, key, b);
        assert key in index && x in index[key];
      }
      if x in Chosen(index, read, bounds, filter, start) {
        var key :| key in index && x in index[key] && Allowed(bounds, read(key)) && filter(key);
        assert key in seen && Sorted(At(index, key)) in buckets && x in Sorted(At(index, key));
      }
    }
  }

  lemma FilterImplies(index: Postings<string>, read: string -> Reading, bounds: seq<Bound>, filter: string -> bool, start: string)
    ensures Chosen(index, read, bounds, filter, start) <= Scanned(index, filter, start)
    ensures (forall key :: key in index && filter(key) ==> Allowed(bounds, read(key))) ==> Chosen(index, read, bounds, filter, start) == Scanned(index, filter, start)
  {
    hide Allowed;
  }

  /** What a visit is: identities of the set in order and without a gap, until the visitor has had enough or none is left. */
  lemma VisitMeans(all: set<string>, more: string -> bool, out: seq<string>)
    requires Visited(Sorted(all), more, out)
    ensures Increasing(out) && forall x :: x in out ==> x in all
    ensures forall i :: 0 <= i < |out| - 1 ==> more(out[i])
    ensures forall x :: x in all && x !in out ==> out != [] && Less(out[|out| - 1], x) && !more(out[|out| - 1])
  {
    hide Less;
    var ids := Sorted(all);
    forall x | x in all && x !in out ensures out != [] && Less(out[|out| - 1], x) && !more(out[|out| - 1]) {
      assert x in ids && out != ids;
      var i :| 0 <= i < |ids| && ids[i] == x;
      assert forall j :: 0 <= j < |out| ==> out[j] == ids[j] && out[j] in out;
    }
  }
}
