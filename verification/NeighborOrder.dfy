/** Pages over an entity's neighbors, and the bounded cache of adjacency orders behind them
    (internal/graph/read_neighbors_page.go, read.go). */
module NeighborOrders {
  import opened GraphModel
  import opened CopyOnWrites
  import opened GraphIndexes
  import opened StringOrder
  import opened OrderedReads

  datatype Direction = In | Out | Both

  datatype Ref = Ref(edgeId: string, entityId: string, direction: Direction)

  datatype Key = Key(id: string, direction: Direction)

  const REF_BYTES: nat := 48
  const MAX_BYTES: nat := 0x200_0000
  const MAX_ORDERS: nat := 256

  // ---------- the order of references ----------

  predicate RefLess(a: Ref, b: Ref) {
    if a.edgeId != b.edgeId then Less(a.edgeId, b.edgeId)
    else if a.entityId != b.entityId then Less(a.entityId, b.entityId)
    else a.direction.In? && b.direction.Out?
  }

  lemma RefLessTransitive(a: Ref, b: Ref, c: Ref)
    requires RefLess(a, b) && RefLess(b, c)
    ensures RefLess(a, c)
  {
    if a.edgeId != b.edgeId && b.edgeId != c.edgeId {
      LessTransitive(a.edgeId, b.edgeId, c.edgeId);
      LessIrreflexive(a.edgeId);
      LessAsymmetric(a.edgeId, b.edgeId);
    } else if a.edgeId == b.edgeId == c.edgeId && a.entityId != b.entityId && b.entityId != c.entityId {
      LessTransitive(a.entityId, b.entityId, c.entityId);
      LessAsymmetric(a.entityId, b.entityId);
    }
  }

  lemma RefLessTotal(a: Ref, b: Ref)
    requires !a.direction.Both? && !b.direction.Both?
    ensures a == b || RefLess(a, b) || RefLess(b, a)
  {
    LessTotal(a.edgeId, b.edgeId);
    LessTotal(a.entityId, b.entityId);
  }

  lemma RefLessAsymmetric(a: Ref, b: Ref)
    requires RefLess(a, b)
    ensures !RefLess(b, a) && a != b
  {
    if a.edgeId != b.edgeId {
      LessAsymmetric(a.edgeId, b.edgeId);
    } else if a.entityId != b.entityId {
      LessAsymmetric(a.entityId, b.entityId);
    }
  }

  ghost predicate Rising(refs: seq<Ref>) {
    forall i, j :: 0 <= i < j < |refs| ==> RefLess(refs[i], refs[j])
  }

  /** The elements of a set in order. */
  ghost predicate IsOrder(refs: seq<Ref>, all: set<Ref>) {
    Rising(refs) && forall r :: r in refs <==> r in all
  }

  lemma {:induction false} OrderIsUnique(a: seq<Ref>, b: seq<Ref>, all: set<Ref>)
    requires IsOrder(a, all) && IsOrder(b, all)
    ensures a == b
    decreases |a|
  {
    if a == [] {
      var first := if b == [] then Ref("", "", In) else b[0];
      assert b != [] ==> first in b;
    } else {
      assert a[0] in a && a[0] in b;
      assert b[0] in b && b[0] in a;
      var i :| 0 <= i < |b| && b[i] == a[0];
      var j :| 0 <= j < |a| && a[j] == b[0];
      if i > 0 {
        RefLessAsymmetric(b[0], b[i]);
      }
      TailOrder(a, all);
      TailOrder(b, all);
      OrderIsUnique(a[1..], b[1..], all - {a[0]});
    }
  }

  lemma TailOrder(a: seq<Ref>, all: set<Ref>)
    requires IsOrder(a, all) && a != []
    ensures IsOrder(a[1..], all - {a[0]})
  {
    forall r ensures r in a[1..] <==> r in all - {a[0]} {
      if r in a[1..] {
        var k :| 1 <= k < |a| && a[k] == r;
        RefLessAsymmetric(a[0], a[k]);
      }
      if r in all - {a[0]} {
        var k :| 0 <= k < |a| && a[k] == r;
        assert a[1..][k - 1] == r;
      }
    }
  }

  /** sort.Slice over distinct references. */
  method SortRefs(refs: seq<Ref>) returns (sorted: seq<Ref>)
    requires forall r :: r in refs ==> !r.direction.Both?
    requires forall i, j :: 0 <= i < j < |refs| ==> refs[i] != refs[j]
    ensures Rising(sorted) && forall r :: r in sorted <==> r in refs
  {
    sorted := [];
    for n := 0 to |refs|
      invariant Rising(sorted) && forall r :: r in sorted <==> r in refs[..n]
    {
      sorted := InsertRef(refs[n], sorted);
      assert refs[..n + 1] == refs[..n] + [refs[n]];
    }
    assert refs[..|refs|] == refs;
  }

  method InsertRef(r: Ref, refs: seq<Ref>) returns (longer: seq<Ref>)
    requires Rising(refs) && r !in refs && !r.direction.Both? && forall x :: x in refs ==> !x.direction.Both?
    ensures Rising(longer) && forall x :: x in longer <==> x == r || x in refs
  {
    var k := 0;
    while k < |refs| && RefLess(refs[k], r)
      invariant 0 <= k <= |refs| && forall i :: 0 <= i < k ==> RefLess(refs[i], r)
    {
      k := k + 1;
    }
    longer := refs[..k] + [r] + refs[k..];
    assert refs == refs[..k] + refs[k..];
    if k < |refs| {
      RefLessTotal(r, refs[k]);
      assert refs[k] in refs;
    }
    RisesAround(refs, r, k);
  }

  lemma RisesAround(refs: seq<Ref>, r: Ref, k: nat)
    requires Rising(refs) && k <= |refs| && (forall i :: 0 <= i < k ==> RefLess(refs[i], r)) && (k < |refs| ==> RefLess(r, refs[k]))
    ensures Rising(refs[..k] + [r] + refs[k..])
  {
    hide RefLess;
    forall j | k <= j < |refs| ensures RefLess(r, refs[j]) {
      if k < j {
        RefLessTransitive(r, refs[k], refs[j]);
      }
    }
  }

  // ---------- neighbors ----------

  predicate Selects(direction: Direction, d: Direction) {
    direction.Both? || d == direction
  }

  /** The references of an entity in a direction. */
  ghost function RefsOf(edges: Edges, key: Key): set<Ref> {
    (set e | e in edges && edges[e].source == key.id && Selects(key.direction, Out) :: Ref(e, edges[e].target, Out)) +
    (set e | e in edges && edges[e].target == key.id && Selects(key.direction, In) :: Ref(e, edges[e].source, In))
  }

  lemma RefsBothWays(edges: Edges, key: Key)
    ensures RefsOf(edges, key) ==
      (if Selects(key.direction, Out) then RefsOf(edges, Key(key.id, Out)) else {}) +
      (if Selects(key.direction, In) then RefsOf(edges, Key(key.id, In)) else {})
  {
  }

  /** Edges at other entities do not matter. */
  lemma OtherRefs(edges: Edges, after: Edges, id: string, key: Key)
    requires forall e :: e != id ==> (e in edges <==> e in after) && (e in edges ==> edges[e] == after[e])
    requires id in edges ==> edges[id].source != key.id && edges[id].target != key.id
    requires id in after ==> after[id].source != key.id && after[id].target != key.id
    ensures RefsOf(edges, key) == RefsOf(after, key)
  {
    forall r ensures r in RefsOf(edges, key) <==> r in RefsOf(after, key) {
      assert r in RefsOf(edges, key) ==> r.edgeId in edges && r.edgeId != id;
      assert r in RefsOf(after, key) ==> r.edgeId in after && r.edgeId != id;
    }
  }

  /** Every cached order is that of the edges. */
  ghost predicate AllCurrent(orders: Orders, edges: Edges) {
    forall key :: key in orders ==> IsOrder(orders[key], RefsOf(edges, key))
  }

  /** Forgetting both ends of an edge is enough, whether the edge comes or goes. */
  lemma StayCurrent(orders: Orders, kept: Orders, edges: Edges, after: Edges, e: Edge)
    requires AllCurrent(orders, edges) && (edges == after - {e.id} || after == edges - {e.id})
    requires (e.id in edges ==> edges[e.id] == e) && (e.id in after ==> after[e.id] == e)
    requires forall key :: key in kept ==> key in orders && kept[key] == orders[key] && key.id != e.source && key.id != e.target
    ensures AllCurrent(kept, after)
  {
    forall key | key in kept ensures IsOrder(kept[key], RefsOf(after, key)) {
      OtherRefs(edges, after, e.id, key);
    }
  }

  // ---------- the byte counter ----------

  type Orders = map<Key, seq<Ref>>

  function Bytes(refs: seq<Ref>): nat {
    |refs| * REF_BYTES
  }

  ghost function Total(orders: Orders): nat
    decreases |orders|
  {
    if orders == map[] then 0
    else
      var key :| key in orders;
      Total(orders - {key}) + Bytes(orders[key])
  }

  lemma {:induction false} TotalWithout(orders: Orders, key: Key)
    requires key in orders
    ensures Total(orders) == Total(orders - {key}) + Bytes(orders[key])
    decreases |orders|
  {
    var k :| k in orders && Total(orders) == Total(orders - {k}) + Bytes(orders[k]);
    if k != key {
      TotalWithout(orders - {k}, key);
      TotalWithout(orders - {key}, k);
      assert orders - {k} - {key} == orders - {key} - {k};
    }
  }

  lemma TotalWith(orders: Orders, key: Key, refs: seq<Ref>)
    requires key !in orders
    ensures Total(orders[key := refs]) == Total(orders) + Bytes(refs)
  {
    TotalWithout(orders[key := refs], key);
    assert orders[key := refs] - {key} == orders;
  }

  class NeighborOrder {
    const index: EdgeIndex
    var edges: Edges
    var orders: Orders
    var bytes: int

    constructor ()
      ensures Valid() && edges == map[] && fresh(index)
    {
      edges, orders, bytes := map[], map[], 0;
      index := new EdgeIndex();
    }

    /** The counter is exact and within budget, and every cached order is current. */
    ghost predicate Counted()
      reads this`orders, this`bytes
    {
      bytes == Total(orders) <= MAX_BYTES && |orders| <= MAX_ORDERS
    }

    ghost predicate Current()
      reads this
    {
      AllCurrent(orders, edges)
    }

    ghost predicate Valid()
      reads this, index
    {
      index.Agrees(edges) && Counted() && Current()
    }

    method Forget(key: Key)
      requires Counted()
      modifies this`orders, this`bytes
      ensures Counted() && orders == old(orders) - {key}
    {
      if key in orders {
        TotalWithout(orders, key);
        bytes := bytes - Bytes(orders[key]);
        orders := orders - {key};
      } else {
        assert orders - {key} == orders;
      }
    }

    /** invalidateNeighborOrder. */
    method Invalidate(id: string)
      requires Counted()
      modifies this`orders, this`bytes
      ensures Counted() && forall key :: key in orders ==> key in old(orders) && orders[key] == old(orders)[key] && key.id != id
    {
      Forget(Key(id, Out));
      Forget(Key(id, In));
      Forget(Key(id, Both));
      forall key | key in orders ensures key.id != id {
        assert key.direction.In? || key.direction.Out? || key.direction.Both?;
        assert key.id == id ==> key == Key(id, Out) || key == Key(id, In) || key == Key(id, Both);
      }
    }

    /** addEdgeToIndexes, as far as neighbors are concerned. */
    method AddEdge(e: Edge)
      requires Valid() && e.id !in edges
      modifies this`edges, this`orders, this`bytes, index
      ensures Valid() && edges == old(edges)[e.id := e]
    {
      hide EdgeIndex.Agrees, AllCurrent, Counted;
      Invalidate(e.source);
      Invalidate(e.target);
      assert edges[e.id := e] - {e.id} == edges;
      StayCurrent(old(orders), orders, edges, edges[e.id := e], e);
      index.Add(e.id, e, edges);
      edges := edges[e.id := e];
    }

    method RemoveEdge(id: string)
      requires Valid() && id in edges && edges[id].id == id
      modifies this`edges, this`orders, this`bytes, index
      ensures Valid() && edges == old(edges) - {id}
    {
      hide EdgeIndex.Agrees, AllCurrent, Counted;
      var e := edges[id];
      Invalidate(e.source);
      Invalidate(e.target);
      StayCurrent(old(orders), orders, edges, edges - {id}, e);
      index.Remove(id, e, edges);
      edges := edges - {id};
    }

    /** The references of one direction, from the adjacency index. */
    method Collect(id: string, d: Direction) returns (refs: seq<Ref>)
      requires index.Agrees(edges) && !d.Both?
      ensures forall r :: r in refs <==> r in RefsOf(edges, Key(id, d))
      ensures forall r :: r in refs ==> r.direction == d
      ensures forall i, j :: 0 <= i < j < |refs| ==> refs[i] != refs[j]
    {
      var ids := if d.Out? then At(View(index.out), id) else At(View(index.into), id);
      forall e ensures e in ids <==> e in edges && (if d.Out? then edges[e].source else edges[e].target) == id {
        assert e in At(View(index.out), id) <==> BySource(edges)(id, e);
        assert e in At(View(index.into), id) <==> ByTarget(edges)(id, e);
      }
      hide EdgeIndex.Agrees;
      refs := [];
      var todo := ids;
      while todo != {}
        invariant todo <= ids
        invariant forall r :: r in refs <==> r.edgeId in ids - todo && r == Ref(r.edgeId, if d.Out? then edges[r.edgeId].target else edges[r.edgeId].source, d)
        invariant forall i, j :: 0 <= i < j < |refs| ==> refs[i] != refs[j]
        decreases todo
      {
        var e :| e in todo;
        todo := todo - {e};
        refs := refs + [Ref(e, if d.Out? then edges[e].target else edges[e].source, d)];
      }
    }

    method CollectAll(key: Key) returns (refs: seq<Ref>)
      requires index.Agrees(edges)
      ensures forall r :: r in refs <==> r in RefsOf(edges, key)
      ensures forall r :: r in refs ==> !r.direction.Both?
      ensures forall i, j :: 0 <= i < j < |refs| ==> refs[i] != refs[j]
    {
      RefsBothWays(edges, key);
      hide EdgeIndex.Agrees, RefsOf;
      refs := [];
      if Selects(key.direction, Out) {
        refs := Collect(key.id, Out);
      }
      if Selects(key.direction, In) {
        var incoming := Collect(key.id, In);
        refs := refs + incoming;
      }
    }

    /** Drop orders until the new one fits. That the counter is exact is what makes this end: with no
        orders left it is zero. */
    method Evict(size: nat)
      requires Counted() && size <= MAX_BYTES
      modifies this`orders, this`bytes
      ensures Counted() && |orders| < MAX_ORDERS && bytes + size <= MAX_BYTES
      ensures forall key :: key in orders ==> key in old(orders) && orders[key] == old(orders)[key]
    {
      while |orders| >= MAX_ORDERS || bytes + size > MAX_BYTES
        invariant Counted()
        invariant forall key :: key in orders ==> key in old(orders) && orders[key] == old(orders)[key]
        decreases |orders|
      {
        var key :| key in orders;
        Forget(key);
      }
    }

    /** sortedNeighborRefs. */
    method SortedNeighbors(key: Key) returns (refs: seq<Ref>)
      requires Valid()
      modifies this`orders, this`bytes
      ensures Valid() && IsOrder(refs, RefsOf(edges, key))
    {
      if key in orders {
        return orders[key];
      }
      refs := CollectAll(key);
      refs := SortRefs(refs);
      Remember(key, refs);
    }

    /** Keep an order for later pages, if it is not too big to keep at all. */
    method Remember(key: Key, refs: seq<Ref>)
      requires Valid() && key !in orders && IsOrder(refs, RefsOf(edges, key))
      modifies this`orders, this`bytes
      ensures Valid()
    {
      hide RefsOf, EdgeIndex.Agrees, Total, IsOrder;
      if Bytes(refs) <= MAX_BYTES {
        Evict(Bytes(refs));
        TotalWith(orders, key, refs);
        bytes := bytes + Bytes(refs);
        orders := orders[key := refs];
      }
    }

    /** FilteredNeighbors: collect, filter, sort. */
    method FilteredNeighbors(key: Key, keep: Ref -> bool) returns (all: seq<Ref>)
      requires index.Agrees(edges)
      ensures IsOrder(all, Kept(edges, key, keep))
    {
      var refs := CollectAll(key);
      var kept: seq<Ref> := [];
      for i := 0 to |refs|
        invariant forall r :: r in kept <==> r in refs[..i] && keep(r)
        invariant forall j, k :: 0 <= j < k < |kept| ==> kept[j] != kept[k]
      {
        assert refs[..i + 1] == refs[..i] + [refs[i]];
        if keep(refs[i]) {
          kept := kept + [refs[i]];
        }
      }
      assert refs[..|refs|] == refs;
      all := SortRefs(kept);
    }

    /** VisitNeighborsByEdgeID: from the start on, in order, until the visitor has enough. */
    method VisitNeighbors(key: Key, keep: Ref -> bool, start: string, more: Ref -> bool) returns (out: seq<Ref>)
      requires Valid()
      modifies this`orders, this`bytes
      ensures Valid()
      ensures forall all :: IsOrder(all, Kept(edges, key, keep)) ==> Paged(PageFrom(all, start), more, out)
    {
      hide NeighborOrder.Valid, Paged, Kept, PageFrom, Filtered, RefsOf;
      var refs := SortedNeighbors(key);
      var reached := i => 0 <= i < |refs| && AtMost(start, refs[i].edgeId);
      forall i, j | 0 <= i <= j < |refs| && reached(i) ensures reached(j) {
        LaterEdges(refs, start, i, j);
      }
      var first := Search(|refs|, reached);
      PageIsRest(refs, first, edges, key, keep, start, reached);
      out := VisitKept(refs[first..], keep, more);
    }
  }

  /** The loop of VisitNeighborsByEdgeID. */
  method VisitKept(refs: seq<Ref>, keep: Ref -> bool, more: Ref -> bool) returns (out: seq<Ref>)
    ensures Paged(Filtered(refs, keep), more, out)
  {
    out := [];
    assert refs[..0] == [] && refs[..|refs|] == refs;
    for i := 0 to |refs|
      invariant out == Filtered(refs[..i], keep)
      invariant forall j :: 0 <= j < |out| ==> more(out[j])
    {
      FilteredNext(refs, keep, i);
      if keep(refs[i]) {
        out := out + [refs[i]];
        if !more(refs[i]) {
          FilteredPrefix(refs, keep, i + 1);
          return;
        }
      }
    }
  }

  /** The references that pass the filters on type, impact and kind. */
  ghost function Kept(edges: Edges, key: Key, keep: Ref -> bool): set<Ref> {
    set r | r in RefsOf(edges, key) && keep(r)
  }

  /** The suffix of an order that starts at an edge. */
  function PageFrom(all: seq<Ref>, start: string): seq<Ref> {
    if all == [] then []
    else if AtMost(start, all[0].edgeId) then all
    else PageFrom(all[1..], start)
  }

  /** What a visitor saw of `page` when it went on while `more` held. */
  predicate Paged(page: seq<Ref>, more: Ref -> bool, out: seq<Ref>) {
    && out <= page
    && (forall i :: 0 <= i < |out| - 1 ==> more(out[i]))
    && (out == page || (out != [] && !more(out[|out| - 1])))
  }

  function Filtered(refs: seq<Ref>, keep: Ref -> bool): seq<Ref>
    decreases |refs|
  {
    if refs == [] then []
    else
      var last := refs[|refs| - 1];
      Filtered(refs[..|refs| - 1], keep) + if keep(last) then [last] else []
  }

  lemma FilteredNext(refs: seq<Ref>, keep: Ref -> bool, i: nat)
    requires i < |refs|
    ensures Filtered(refs[..i + 1], keep) == Filtered(refs[..i], keep) + if keep(refs[i]) then [refs[i]] else []
  {
    assert refs[..i + 1][..i] == refs[..i];
  }

  lemma {:induction false} FilteredPrefix(refs: seq<Ref>, keep: Ref -> bool, n: nat)
    requires n <= |refs|
    ensures Filtered(refs[..n], keep) <= Filtered(refs, keep)
    decreases |refs|
  {
    if n == |refs| {
      assert refs[..n] == refs;
    } else {
      assert refs[..|refs| - 1][..n] == refs[..n];
      FilteredPrefix(refs[..|refs| - 1], keep, n);
    }
  }

  lemma {:induction false} FilteredRises(refs: seq<Ref>, keep: Ref -> bool)
    requires Rising(refs)
    ensures Rising(Filtered(refs, keep)) && forall r :: r in Filtered(refs, keep) <==> r in refs && keep(r)
    decreases |refs|
  {
    if refs != [] {
      var n := |refs| - 1;
      FilteredRises(refs[..n], keep);
      assert refs == refs[..n] + [refs[n]];
      forall r | r in Filtered(refs[..n], keep) ensures RefLess(r, refs[n]) {
        var i :| 0 <= i < n && refs[i] == r;
      }
    }
  }

  lemma LaterEdges(refs: seq<Ref>, start: string, i: nat, j: nat)
    requires Rising(refs) && i <= j < |refs| && AtMost(start, refs[i].edgeId)
    ensures AtMost(start, refs[j].edgeId)
  {
    if i < j && refs[i].edgeId != refs[j].edgeId {
      AtMostThenLess(start, refs[i].edgeId, refs[j].edgeId);
      LessAsymmetric(start, refs[j].edgeId);
    }
  }

  lemma {:induction false} PageHolds(all: seq<Ref>, start: string)
    requires Rising(all)
    ensures Rising(PageFrom(all, start)) && forall r :: r in PageFrom(all, start) <==> r in all && AtMost(start, r.edgeId)
    decreases |all|
  {
    if all != [] {
      if AtMost(start, all[0].edgeId) {
        forall r | r in all ensures AtMost(start, r.edgeId) {
          var j :| 0 <= j < |all| && all[j] == r;
          LaterEdges(all, start, 0, j);
        }
      } else {
        PageHolds(all[1..], start);
        assert all == [all[0]] + all[1..];
      }
    }
  }

  /** Seeking then filtering is filtering then seeking. */
  lemma PageIsRest(refs: seq<Ref>, first: nat, edges: Edges, key: Key, keep: Ref -> bool, start: string, reached: int -> bool)
    requires IsOrder(refs, RefsOf(edges, key)) && first <= |refs|
    requires forall i :: 0 <= i < |refs| ==> (reached(i) <==> AtMost(start, refs[i].edgeId))
    requires (forall i :: 0 <= i < first ==> !reached(i)) && forall i :: first <= i < |refs| ==> reached(i)
    ensures forall all :: IsOrder(all, Kept(edges, key, keep)) ==> PageFrom(all, start) == Filtered(refs[first..], keep)
  {
    var rest := refs[first..];
    FilteredRises(rest, keep);
    forall r ensures r in rest <==> r in refs && AtMost(start, r.edgeId) {
      if r in refs && AtMost(start, r.edgeId) {
        var i :| 0 <= i < |refs| && refs[i] == r;
        assert reached(i) && rest[i - first] == r;
      }
      if r in rest {
        var i :| 0 <= i < |rest| && rest[i] == r;
        assert reached(first + i);
      }
    }
    var page := set r | r in Kept(edges, key, keep) && AtMost(start, r.edgeId);
    forall all | IsOrder(all, Kept(edges, key, keep)) ensures PageFrom(all, start) == Filtered(rest, keep) {
      PageHolds(all, start);
      OrderIsUnique(PageFrom(all, start), Filtered(rest, keep), page);
    }
  }

  lemma {:induction false} PageIsSuffix(all: seq<Ref>, start: string)
    requires Rising(all)
    ensures |PageFrom(all, start)| <= |all| && PageFrom(all, start) == all[|all| - |PageFrom(all, start)|..]
    ensures forall r :: r in PageFrom(all, start) <==> r in all && AtMost(start, r.edgeId)
    decreases |all|
  {
    if all != [] {
      if AtMost(start, all[0].edgeId) {
        forall r | r in all ensures AtMost(start, r.edgeId) {
          var i :| 0 <= i < |all| && all[i] == r;
          LaterEdges(all, start, 0, i);
        }
      } else {
        PageIsSuffix(all[1..], start);
        assert all == [all[0]] + all[1..];
      }
    }
  }

  /** What a page is: references to neighbors at or after the start edge that pass the filters, in order and without a gap,
      until the visitor has had enough or none is left. */
  lemma PageMeans(edges: Edges, key: Key, keep: Ref -> bool, start: string, more: Ref -> bool, all: seq<Ref>, out: seq<Ref>)
    requires IsOrder(all, Kept(edges, key, keep)) && Paged(PageFrom(all, start), more, out)
    ensures Rising(out)
    ensures forall r :: r in out ==> r in RefsOf(edges, key) && keep(r) && AtMost(start, r.edgeId)
    ensures forall i :: 0 <= i < |out| - 1 ==> more(out[i])
    ensures forall r :: r in RefsOf(edges, key) && keep(r) && AtMost(start, r.edgeId) && r !in out ==>
      out != [] && RefLess(out[|out| - 1], r) && !more(out[|out| - 1])
  {
    hide RefsOf, RefLess;
    PageIsSuffix(all, start);
    var page := PageFrom(all, start);
    forall r | r in Kept(edges, key, keep) && AtMost(start, r.edgeId) && r !in out ensures out != [] && RefLess(out[|out| - 1], r) && !more(out[|out| - 1]) {
      assert r in page && out != page;
      var i :| 0 <= i < |page| && page[i] == r;
      assert forall j :: 0 <= j < |out| ==> out[j] == page[j] && out[j] in out;
    }
  }
}
