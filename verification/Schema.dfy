/** Inheritance between entity kinds: what validateCITypes accepts, and the fields a kind ends up with
    (internal/graph/schema.go). */
module Schemas {
  import opened GraphModel

  type Fields = map<string, string>

  /** A kind: what it extends, its own field specifications by name, and its identity keys. Keys are not
      inherited. */
  datatype CIType = CIType(parents: seq<string>, fields: Fields, keys: string)

  type Types = map<string, CIType>

  // ---------- what a good schema is ----------

  predicate ParentsExist(types: Types) {
    forall k, p :: k in types && p in types[k].parents ==> p in types
  }

  /** Each kind of the path extends the next. */
  ghost predicate Chain(types: Types, path: seq<string>)
    decreases |path|
  {
    && path != []
    && path[0] in types
    && (|path| > 1 ==> path[1] in types[path[0]].parents && Chain(types, path[1..]))
  }

  ghost predicate Cycle(types: Types, path: seq<string>) {
    |path| > 1 && Chain(types, path) && path[0] == path[|path| - 1]
  }

  ghost predicate Acyclic(types: Types) {
    forall path :: !Cycle(types, path)
  }

  /** Parents rank below their children. */
  ghost predicate Ranked(types: Types, rank: map<string, nat>) {
    && (forall k :: k in types ==> k in rank)
    && (forall k, p :: k in types && p in types[k].parents ==> p in types && rank[p] < rank[k])
  }

  lemma {:induction false} RankFalls(types: Types, rank: map<string, nat>, path: seq<string>)
    requires Ranked(types, rank) && Chain(types, path) && |path| > 1
    ensures path[|path| - 1] in rank && rank[path[|path| - 1]] < rank[path[0]]
    decreases |path|
  {
    assert path[1] in types[path[0]].parents;
    if |path| > 2 {
      RankFalls(types, rank, path[1..]);
    }
  }

  lemma RankedIsAcyclic(types: Types, rank: map<string, nat>)
    requires Ranked(types, rank)
    ensures ParentsExist(types) && Acyclic(types)
  {
    forall path ensures !Cycle(types, path) {
      if Cycle(types, path) {
        RankFalls(types, rank, path);
      }
    }
  }

  /** Every kind of `stuck` has a parent in it. */
  ghost predicate Stuck(types: Types, stuck: set<string>) {
    stuck <= types.Keys && forall k {:trigger HasParentIn(types, stuck, k)} :: k in stuck ==> HasParentIn(types, stuck, k)
  }

  predicate HasParentIn(types: Types, stuck: set<string>, k: string) {
    k in types && exists p :: p in stuck && p in types[k].parents
  }

  /** A walk from parent to parent that stays in `stuck`. */
  lemma {:induction false} Walk(types: Types, stuck: set<string>, k: string, n: nat) returns (path: seq<string>)
    requires Stuck(types, stuck) && k in stuck
    ensures |path| == n + 1 && path[0] == k && Chain(types, path) && forall x :: x in path ==> x in stuck
    decreases n
  {
    path := [k];
    if n > 0 {
      assert HasParentIn(types, stuck, k);
      var p :| p in stuck && p in types[k].parents;
      var rest := Walk(types, stuck, p, n - 1);
      path := [k] + rest;
    }
  }

  lemma {:induction false} Repeats(path: seq<string>, s: set<string>) returns (i: nat, j: nat)
    requires |path| > |s| && forall x :: x in path ==> x in s
    ensures i < j < |path| && path[i] == path[j]
    decreases |path|
  {
    var n := |path| - 1;
    var last, before := path[n], path[..n];
    if last in before {
      i :| 0 <= i < n && path[i] == last;
      j := n;
    } else {
      assert last in path && |s - {last}| == |s| - 1;
      assert forall x :: x in before ==> x in path;
      i, j := Repeats(before, s - {last});
    }
  }

  lemma {:induction false} ChainDrops(types: Types, path: seq<string>, i: nat)
    requires Chain(types, path) && i < |path|
    ensures Chain(types, path[i..])
    decreases i
  {
    if i == 0 {
      assert path[0..] == path;
    } else {
      ChainDrops(types, path[1..], i - 1);
      assert path[1..][i - 1..] == path[i..];
    }
  }

  lemma {:induction false} ChainTakes(types: Types, path: seq<string>, j: nat)
    requires Chain(types, path) && 0 < j <= |path|
    ensures Chain(types, path[..j])
    decreases j
  {
    if j > 1 {
      ChainTakes(types, path[1..], j - 1);
      assert path[..j][1..] == path[1..][..j - 1];
    }
  }

  /** Going from parent to parent without end comes round. */
  lemma StuckHasCycle(types: Types, stuck: set<string>, k: string)
    requires Stuck(types, stuck) && k in stuck
    ensures !Acyclic(types)
  {
    var path := Walk(types, stuck, k, |stuck|);
    var i, j := Repeats(path, stuck);
    ChainTakes(types, path, j + 1);
    ChainDrops(types, path[..j + 1], i);
    assert Cycle(types, path[..j + 1][i..]);
  }

  /** A ranking of some kinds and all their ancestors. */
  ghost predicate RankedSome(types: Types, rank: map<string, nat>) {
    && rank.Keys <= types.Keys
    && (forall k :: k in rank ==> rank[k] < |rank|)
    && (forall k, p :: k in rank && p in types[k].parents ==> p in rank && rank[p] < rank[k])
  }

  predicate Ready(types: Types, rank: map<string, nat>, k: string) {
    k in types && k !in rank && forall p :: p in types[k].parents ==> p in rank
  }

  lemma RankNext(types: Types, rank: map<string, nat>, k: string)
    requires RankedSome(types, rank) && Ready(types, rank, k)
    ensures RankedSome(types, rank[k := |rank|])
  {
    var next := rank[k := |rank|];
    assert |next| == |rank| + 1;
    forall x, p | x in next && p in types[x].parents ensures p in next && next[p] < next[x] {
      assert p in rank && rank[p] < |rank|;
    }
  }

  lemma NotReady(types: Types, rank: map<string, nat>, k: string)
    requires ParentsExist(types) && k in types && k !in rank && !Ready(types, rank, k)
    ensures HasParentIn(types, types.Keys - rank.Keys, k)
  {
    var p :| p in types[k].parents && p !in rank;
    assert p in types;
  }

  lemma AllRanked(types: Types, rank: map<string, nat>)
    requires RankedSome(types, rank) && ParentsExist(types) && types.Keys <= rank.Keys
    ensures Ranked(types, rank)
  {
  }

  /** A schema without cycles can be ranked, one kind after its parents. */
  lemma {:induction false} RankRest(types: Types, rank: map<string, nat>) returns (full: map<string, nat>)
    requires ParentsExist(types) && Acyclic(types) && RankedSome(types, rank)
    ensures Ranked(types, full)
    decreases types.Keys - rank.Keys
  {
    hide Acyclic, Ready, ParentsExist, HasParentIn, Ranked;
    full := rank;
    var todo := types.Keys - rank.Keys;
    if k :| k in todo && Ready(types, rank, k) {
      RankNext(types, rank, k);
      full := RankRest(types, rank[k := |rank|]);
    } else if k :| k in todo {
      forall x | x in todo ensures HasParentIn(types, todo, x) {
        NotReady(types, rank, x);
      }
      StuckHasCycle(types, todo, k);
    } else {
      assert types.Keys <= rank.Keys + todo;
      AllRanked(types, rank);
    }
  }

  // ---------- validateCITypes ----------

  type ParentCounts = map<string, nat>

  function Children(children: map<string, seq<string>>, parent: string): seq<string> {
    if parent in children then children[parent] else []
  }

  /** Parents of a kind, with repetition, that are not done. */
  function Pending(parents: seq<string>, done: set<string>): nat {
    if parents == [] then 0
    else Pending(parents[..|parents| - 1], done) + if parents[|parents| - 1] in done then 0 else 1
  }

  lemma {:induction false} PendingNone(parents: seq<string>)
    ensures Pending(parents, {}) == |parents|
    decreases |parents|
  {
    if parents != [] {
      PendingNone(parents[..|parents| - 1]);
    }
  }

  lemma {:induction false} PendingZero(parents: seq<string>, done: set<string>)
    ensures Pending(parents, done) == 0 <==> forall p :: p in parents ==> p in done
    decreases |parents|
  {
    if parents != [] {
      var n := |parents| - 1;
      PendingZero(parents[..n], done);
      assert parents == parents[..n] + [parents[n]];
    }
  }

  lemma {:induction false} PendingDone(parents: seq<string>, done: set<string>, p: string)
    requires p !in done
    ensures Pending(parents, done) == Pending(parents, done + {p}) + multiset(parents)[p]
    decreases |parents|
  {
    if parents != [] {
      var n := |parents| - 1;
      PendingDone(parents[..n], done, p);
      assert parents == parents[..n] + [parents[n]];
    }
  }

  /** The child lists of the kinds in `seen`. */
  ghost predicate ListsChildren(types: Types, seen: set<string>, children: map<string, seq<string>>) {
    forall k, p :: multiset(Children(children, p))[k] == if k in seen && k in types then multiset(types[k].parents)[p] else 0
  }

  lemma ListedStep(children: map<string, seq<string>>, p: string, kind: string, k: string, q: string)
    ensures multiset(Children(children[p := Children(children, p) + [kind]], q))[k]
         == multiset(Children(children, q))[k] + if q == p && k == kind then 1 else 0
  {
  }

  lemma MultisetStep(s: seq<string>, i: nat, q: string)
    requires i < |s|
    ensures multiset(s[..i + 1])[q] == multiset(s[..i])[q] + if s[i] == q then 1 else 0
  {
    assert s[..i + 1] == s[..i] + [s[i]];
  }

  /** `children` lists `kind` once more under each of `parents`. */
  ghost predicate AlsoUnder(before: map<string, seq<string>>, children: map<string, seq<string>>, kind: string, parents: seq<string>) {
    forall k, p :: multiset(Children(children, p))[k] == multiset(Children(before, p))[k] + if k == kind then multiset(parents)[p] else 0
  }

  lemma AlsoUnderNext(before: map<string, seq<string>>, children: map<string, seq<string>>, kind: string, parents: seq<string>, i: nat)
    requires i < |parents| && AlsoUnder(before, children, kind, parents[..i])
    ensures AlsoUnder(before, children[parents[i] := Children(children, parents[i]) + [kind]], kind, parents[..i + 1])
  {
    var next := children[parents[i] := Children(children, parents[i]) + [kind]];
    forall k, p ensures multiset(Children(next, p))[k] == multiset(Children(before, p))[k] + if k == kind then multiset(parents[..i + 1])[p] else 0 {
      ListedStep(children, parents[i], kind, k, p);
      MultisetStep(parents, i, p);
    }
  }

  lemma NoneUnder(before: map<string, seq<string>>, kind: string, parents: seq<string>)
    ensures AlsoUnder(before, before, kind, parents[..0]) && parents[..|parents|] == parents
  {
    assert parents[..0] == [];
  }

  lemma ListsOneMore(types: Types, seen: set<string>, before: map<string, seq<string>>, children: map<string, seq<string>>, kind: string)
    requires kind in types && kind !in seen && ListsChildren(types, seen, before) && AlsoUnder(before, children, kind, types[kind].parents)
    ensures ListsChildren(types, seen + {kind}, children)
  {
  }

  /** The inner part of the first loop: list one kind under each of its parents. */
  method ListUnder(types: Types, kind: string, before: map<string, seq<string>>, ghost seen: set<string>) returns (ok: bool, children: map<string, seq<string>>)
    requires kind in types && kind !in seen && ListsChildren(types, seen, before)
    ensures ok <==> forall p :: p in types[kind].parents ==> p in types
    ensures ok ==> ListsChildren(types, seen + {kind}, children)
  {
    hide AlsoUnder, ListsChildren, Children;
    var parents := types[kind].parents;
    children := before;
    NoneUnder(before, kind, parents);
    for i := 0 to |parents|
      invariant forall j :: 0 <= j < i ==> parents[j] in types
      invariant AlsoUnder(before, children, kind, parents[..i])
    {
      if parents[i] !in types {
        return false, children;
      }
      AlsoUnderNext(before, children, kind, parents, i);
      children := children[parents[i] := Children(children, parents[i]) + [kind]];
    }
    ListsOneMore(types, seen, before, children, kind);
    ok := true;
  }

  lemma NoLists(types: Types)
    ensures ListsChildren(types, types.Keys - types.Keys, map[])
  {
  }

  /** The first loop: parent counts, child lists and the kinds without parents. */
  method Prepare(types: Types) returns (ok: bool, counts: ParentCounts, children: map<string, seq<string>>, queue: seq<string>)
    ensures ok <==> ParentsExist(types)
    ensures ok ==> ListsChildren(types, types.Keys, children)
    ensures ok ==> counts.Keys == types.Keys && forall k :: k in types ==> counts[k] == Pending(types[k].parents, {})
    ensures ok ==> (forall k :: k in queue <==> k in types && counts[k] == 0) && forall i, j :: 0 <= i < j < |queue| ==> queue[i] != queue[j]
  {
    counts, children, queue := map[], map[], [];
    var todo := types.Keys;
    NoLists(types);
    hide ListsChildren, Children, Pending;
    while todo != {}
      invariant todo <= types.Keys && counts.Keys == types.Keys - todo
      invariant forall k, p :: k in counts && p in types[k].parents ==> p in types
      invariant ListsChildren(types, types.Keys - todo, children)
      invariant forall k :: k in counts ==> counts[k] == Pending(types[k].parents, {})
      invariant forall k :: k in queue <==> k in counts && counts[k] == 0
      invariant forall i, j :: 0 <= i < j < |queue| ==> queue[i] != queue[j]
      decreases todo
    {
      var kind :| kind in todo;
      PendingNone(types[kind].parents);
      ok, children := ListUnder(types, kind, children, types.Keys - todo);
      if !ok {
        return;
      }
      assert types.Keys - (todo - {kind}) == types.Keys - todo + {kind};
      todo := todo - {kind};
      counts := counts[kind := |types[kind].parents|];
      if |types[kind].parents| == 0 {
        queue := queue + [kind];
      }
    }
    assert types.Keys - {} == types.Keys;
    ok := true;
  }

  ghost function Taken(queue: seq<string>, n: nat): set<string>
    requires n <= |queue|
  {
    set i | 0 <= i < n :: queue[i]
  }

  ghost predicate Counted(types: Types, counts: ParentCounts, done: set<string>) {
    counts.Keys == types.Keys && forall k :: k in types ==> counts[k] == Pending(types[k].parents, done)
  }

  /** The queue holds the kinds whose count is zero, once each, and each after its parents. */
  ghost predicate Queued(types: Types, counts: ParentCounts, queue: seq<string>) {
    && counts.Keys == types.Keys
    && (forall k :: k in queue <==> k in types && counts[k] == 0)
    && (forall i, j :: 0 <= i < j < |queue| ==> queue[i] != queue[j])
    && (forall j :: 0 <= j < |queue| ==> Behind(types, queue, j))
  }

  ghost predicate Behind(types: Types, queue: seq<string>, j: nat)
    requires j < |queue|
  {
    queue[j] in types && forall p :: p in types[queue[j]].parents ==> p in queue[..j]
  }

  /** ParentCounts while the children in `list` of the kind just visited are being told. */
  ghost predicate Telling(types: Types, counts: ParentCounts, done: set<string>, list: seq<string>) {
    counts.Keys == types.Keys && forall k :: k in types ==> counts[k] + multiset(list)[k] == Pending(types[k].parents, done)
  }

  /** What is left to count down when child `i` of `list` is told. */
  lemma CountLeft(types: Types, counts: ParentCounts, done: set<string>, parent: string, list: seq<string>, i: nat)
    requires i < |list| && list[i] in types && parent !in done && Telling(types, counts, done, list[..i])
    requires multiset(list)[list[i]] == multiset(types[list[i]].parents)[parent]
    ensures counts[list[i]] > 0
    ensures counts[list[i]] == 1 ==> forall p :: p in types[list[i]].parents ==> p in done + {parent}
  {
    var k := list[i];
    PendingDone(types[k].parents, done, parent);
    PendingZero(types[k].parents, done + {parent});
    assert list == list[..i] + [k] + list[i + 1..];
  }

  lemma TellNext(types: Types, counts: ParentCounts, done: set<string>, list: seq<string>, i: nat)
    requires i < |list| && list[i] in types && Telling(types, counts, done, list[..i]) && counts[list[i]] > 0
    ensures Telling(types, counts[list[i] := counts[list[i]] - 1], done, list[..i + 1])
  {
    forall k | k in types ensures counts[list[i] := counts[list[i]] - 1][k] + multiset(list[..i + 1])[k] == Pending(types[k].parents, done) {
      MultisetStep(list, i, k);
    }
  }

  lemma QueueNext(types: Types, counts: ParentCounts, queue: seq<string>, k: string)
    requires Queued(types, counts, queue) && k in types && counts[k] > 0
    ensures counts[k] > 1 ==> Queued(types, counts[k := counts[k] - 1], queue)
    ensures counts[k] == 1 && (forall p :: p in types[k].parents ==> p in queue) ==> Queued(types, counts[k := 0], queue + [k])
  {
    if counts[k] == 1 && forall p :: p in types[k].parents ==> p in queue {
      var next := queue + [k];
      forall j | 0 <= j < |next| ensures Behind(types, next, j) {
        if j < |queue| {
          assert Behind(types, queue, j) && next[..j] == queue[..j];
        } else {
          assert next[..j] == queue;
        }
      }
    }
  }

  lemma ToldAll(types: Types, counts: ParentCounts, done: set<string>, parent: string, list: seq<string>)
    requires parent !in done && Telling(types, counts, done, list)
    requires forall k :: k in types ==> multiset(list)[k] == multiset(types[k].parents)[parent]
    ensures Counted(types, counts, done + {parent})
  {
    forall k | k in types ensures counts[k] == Pending(types[k].parents, done + {parent}) {
      PendingDone(types[k].parents, done, parent);
    }
  }

  lemma TellStep(types: Types, counts: ParentCounts, done: set<string>, parent: string, list: seq<string>, i: nat, queue: seq<string>)
    requires i < |list| && list[i] in types && parent !in done && Telling(types, counts, done, list[..i]) && Queued(types, counts, queue)
    requires multiset(list)[list[i]] == multiset(types[list[i]].parents)[parent]
    requires forall p :: p in done + {parent} ==> p in queue
    ensures list[i] in counts && counts[list[i]] > 0
    ensures var next := counts[list[i] := counts[list[i]] - 1];
      && Telling(types, next, done, list[..i + 1])
      && Queued(types, next, if next[list[i]] == 0 then queue + [list[i]] else queue)
  {
    CountLeft(types, counts, done, parent, list, i);
    TellNext(types, counts, done, list, i);
    QueueNext(types, counts, queue, list[i]);
  }

  /** One kind off the queue: its children count down, those that reach zero are queued. */
  method Visit(types: Types, parent: string, list: seq<string>, before: ParentCounts, waiting: seq<string>, ghost done: set<string>) returns (counts: ParentCounts, queue: seq<string>)
    requires parent !in done && Counted(types, before, done) && Queued(types, before, waiting)
    requires forall k :: multiset(list)[k] == if k in types then multiset(types[k].parents)[parent] else 0
    requires forall p :: p in done + {parent} ==> p in waiting
    ensures Counted(types, counts, done + {parent}) && Queued(types, counts, queue) && waiting <= queue
  {
    counts, queue := before, waiting;
    assert list[..0] == [] && list[..|list|] == list;
    assert Telling(types, counts, done, list[..0]);
    hide Telling, Counted, Behind, Queued;
    for i := 0 to |list|
      invariant Telling(types, counts, done, list[..i]) && Queued(types, counts, queue) && waiting <= queue
    {
      var child := list[i];
      assert child in multiset(list);
      TellStep(types, counts, done, parent, list, i, queue);
      counts := counts[child := counts[child] - 1];
      if counts[child] == 0 {
        queue := queue + [child];
      }
    }
    ToldAll(types, counts, done, parent, list);
  }

  lemma TakenAll(queue: seq<string>)
    ensures forall p :: p in queue <==> p in Taken(queue, |queue|)
  {
  }

  /** When the queue runs dry early, what is left has no way up that ends. */
  lemma LeftIsStuck(types: Types, counts: ParentCounts, queue: seq<string>, k: string)
    requires ParentsExist(types) && Queued(types, counts, queue) && Counted(types, counts, Taken(queue, |queue|))
    requires k in types && k !in queue
    ensures !Acyclic(types)
  {
    var left := set x | x in types && x !in queue;
    forall x | x in left ensures HasParentIn(types, left, x) {
      PendingZero(types[x].parents, Taken(queue, |queue|));
      TakenAll(queue);
      var p :| p in types[x].parents && p !in Taken(queue, |queue|);
    }
    StuckHasCycle(types, left, k);
  }

  /** When everything was queued, positions in the queue rank the schema. */
  lemma QueueRanks(types: Types, counts: ParentCounts, queue: seq<string>)
    requires Queued(types, counts, queue) && forall k :: k in types ==> k in queue
    ensures ParentsExist(types) && Acyclic(types)
  {
    var rank := map k | k in types :: Position(queue, k);
    forall k, p | k in types && p in types[k].parents ensures p in types && rank[p] < rank[k] {
      var j := Position(queue, k);
      assert Behind(types, queue, j);
      var i :| 0 <= i < j && queue[i] == p;
      assert p in queue && Position(queue, p) == i;
    }
    RankedIsAcyclic(types, rank);
  }

  function Position(queue: seq<string>, k: string): (i: nat)
    ensures k in queue ==> i < |queue| && queue[i] == k
  {
    if queue == [] || queue[0] == k then 0 else 1 + Position(queue[1..], k)
  }

  lemma DistinctSize(queue: seq<string>, keys: set<string>)
    requires (forall i, j :: 0 <= i < j < |queue| ==> queue[i] != queue[j]) && forall k :: k in queue ==> k in keys
    ensures |queue| <= |keys|
    ensures |queue| == |keys| <==> forall k :: k in keys ==> k in queue
    decreases |queue|
  {
    if queue != [] {
      var n := |queue| - 1;
      var last := queue[n];
      assert last in queue && |keys - {last}| == |keys| - 1;
      assert forall k :: k in queue <==> k in queue[..n] || k == last;
      DistinctSize(queue[..n], keys - {last});
    } else if |keys| == 0 {
      assert keys == {};
    } else {
      var k :| k in keys;
    }
  }

  /** The second loop: visit the queue to its end. */
  method Drain(types: Types, children: map<string, seq<string>>, before: ParentCounts, waiting: seq<string>) returns (counts: ParentCounts, queue: seq<string>, visited: nat)
    requires ListsChildren(types, types.Keys, children) && Counted(types, before, {}) && Queued(types, before, waiting)
    ensures Queued(types, counts, queue) && Counted(types, counts, Taken(queue, |queue|)) && visited == |queue|
  {
    counts, queue := before, waiting;
    var index := 0;
    visited := 0;
    assert Taken(queue, 0) == {};
    hide Counted, Queued, Taken, ListsChildren;
    while index < |queue|
      invariant index <= |queue| && visited == index
      invariant Queued(types, counts, queue) && Counted(types, counts, Taken(queue, index))
      decreases |types| - index
    {
      var parent := queue[index];
      TakenNext(types, counts, queue, index);
      var list := Children(children, parent);
      ListedAre(types, children, parent);
      ghost var shorter := queue;
      counts, queue := Visit(types, parent, list, counts, queue, Taken(queue, index));
      TakenGrows(shorter, queue, index);
      index, visited := index + 1, visited + 1;
    }
  }

  lemma ListedAre(types: Types, children: map<string, seq<string>>, parent: string)
    requires ListsChildren(types, types.Keys, children)
    ensures forall k :: multiset(Children(children, parent))[k] == if k in types then multiset(types[k].parents)[parent] else 0
  {
  }

  lemma TakenNext(types: Types, counts: ParentCounts, queue: seq<string>, i: nat)
    requires i < |queue| && Queued(types, counts, queue)
    ensures |queue| <= |types|
    ensures queue[i] !in Taken(queue, i) && forall p :: p in Taken(queue, i) + {queue[i]} ==> p in queue
  {
    DistinctSize(queue, types.Keys);
  }

  lemma TakenGrows(queue: seq<string>, longer: seq<string>, i: nat)
    requires i < |queue| && queue <= longer
    ensures Taken(longer, i + 1) == Taken(queue, i) + {queue[i]}
  {
    assert forall j :: 0 <= j <= i ==> longer[j] == queue[j];
  }

  /** validateCITypes: accepts exactly the schemas whose parents exist and that have no inheritance
      cycle. When not every kind was visited, some count is still positive, so the loop that reports
      the cycle always finds one. */
  method ValidateCITypes(types: Types) returns (ok: bool)
    ensures ok <==> ParentsExist(types) && Acyclic(types)
  {
    var counts, children, queue, visited;
    ok, counts, children, queue := Prepare(types);
    if !ok {
      return;
    }
    forall j | 0 <= j < |queue| ensures Behind(types, queue, j) {
      assert queue[j] in queue;
      PendingZero(types[queue[j]].parents, {});
    }
    hide ParentsExist, Acyclic, ListsChildren, Behind;
    counts, queue, visited := Drain(types, children, counts, queue);
    DistinctSize(queue, types.Keys);
    if visited != |types| {
      var todo := types.Keys;
      while todo != {}
        invariant todo <= types.Keys && forall k :: k in types && k !in todo ==> counts[k] == 0
        decreases todo
      {
        var kind :| kind in todo;
        todo := todo - {kind};
        if counts[kind] > 0 {
          LeftIsStuck(types, counts, queue, kind);
          return false;
        }
      }
      assert false;
    }
    QueueRanks(types, counts, queue);
    ok := true;
  }

  // ---------- effectiveFields ----------

  /** The fields of a kind without a memo: its parents' in order, then its own over them. */
  function Inherited(types: Types, kind: string, seen: set<string>): Option<Fields>
    decreases types.Keys - seen, 0
  {
    if kind !in types then Some(map[])
    else if kind in seen then None
    else
      var base :- FromParents(types, types[kind].parents, seen + {kind});
      Some(base + types[kind].fields)
  }

  function FromParents(types: Types, parents: seq<string>, seen: set<string>): Option<Fields>
    decreases types.Keys - seen, |parents|
  {
    if parents == [] then Some(map[])
    else
      var before :- FromParents(types, parents[..|parents| - 1], seen);
      var p := parents[|parents| - 1];
      if p !in types then None
      else
        var fields :- Inherited(types, p, seen);
        Some(before + fields)
  }

  /** On a ranked schema the kinds being expanded are never met again. */
  lemma {:induction false} SeenIrrelevant(types: Types, rank: map<string, nat>, kind: string, seen: set<string>)
    requires Ranked(types, rank) && kind in types && forall s :: s in seen ==> s in types && rank[s] > rank[kind]
    ensures Inherited(types, kind, seen).Some? && Inherited(types, kind, seen) == Inherited(types, kind, {})
    decreases rank[kind], 1, 0
  {
    ParentsIrrelevant(types, rank, types[kind].parents, rank[kind], seen + {kind});
    ParentsIrrelevant(types, rank, types[kind].parents, rank[kind], {kind});
    assert {} + {kind} == {kind};
  }

  lemma {:induction false} ParentsIrrelevant(types: Types, rank: map<string, nat>, parents: seq<string>, bound: nat, seen: set<string>)
    requires Ranked(types, rank) && forall s :: s in seen ==> s in types && rank[s] >= bound
    requires forall p :: p in parents ==> p in types && rank[p] < bound
    ensures FromParents(types, parents, seen).Some? && FromParents(types, parents, seen) == FromParents(types, parents, {})
    decreases bound, 0, |parents|
  {
    if parents != [] {
      var p := parents[|parents| - 1];
      assert p in parents;
      ParentsIrrelevant(types, rank, parents[..|parents| - 1], bound, seen);
      SeenIrrelevant(types, rank, p, seen);
      SeenIrrelevant(types, rank, p, {});
    }
  }

  ghost predicate Remembers(types: Types, cache: map<string, Fields>) {
    forall k :: k in cache ==> Inherited(types, k, {}) == Some(cache[k])
  }

  ghost function Height(types: Types, rank: map<string, nat>, kind: string): nat
    requires Ranked(types, rank)
  {
    if kind in types then rank[kind] + 1 else 0
  }

  /** effectiveFields with any correct cache: it never reports a cycle or a missing parent, and gives
      what the plain definition gives. */
  method EffectiveFields(types: Types, kind: string, seen: set<string>, cache: map<string, Fields>, ghost rank: map<string, nat>) returns (fields: Option<Fields>, after: map<string, Fields>)
    requires Ranked(types, rank) && Remembers(types, cache)
    requires forall s :: s in seen ==> s in types && Height(types, rank, s) > Height(types, rank, kind)
    ensures fields.Some? && fields == Inherited(types, kind, {}) && Remembers(types, after)
    decreases Height(types, rank, kind)
  {
    if kind in cache {
      return Some(cache[kind]), cache;
    }
    if kind !in types {
      return Some(map[]), cache[kind := map[]];
    }
    if kind in seen {
      assert false;
    }
    var parents := types[kind].parents;
    var collected: Fields := map[];
    after := cache;
    for i := 0 to |parents|
      invariant Remembers(types, after) && FromParents(types, parents[..i], {}) == Some(collected)
    {
      assert parents[i] in parents;
      if parents[i] !in types {
        assert false;
      }
      var inherited;
      inherited, after := EffectiveFields(types, parents[i], seen + {kind}, after, rank);
      assert parents[..i + 1][..i] == parents[..i];
      collected := collected + inherited.value;
    }
    assert parents[..|parents|] == parents;
    ParentsIrrelevant(types, rank, parents, rank[kind], {} + {kind});
    collected := collected + types[kind].fields;
    fields := Some(collected);
    after := after[kind := collected];
  }

  /** EffectiveFields of an accepted schema. */
  method FieldsOf(types: Types, kind: string) returns (fields: Option<Fields>)
    requires ParentsExist(types) && Acyclic(types)
    ensures fields.Some? && fields == Inherited(types, kind, {})
  {
    ghost var rank := RankRest(types, map[]);
    var cache;
    fields, cache := EffectiveFields(types, kind, {}, map[], rank);
  }

  /** A path from a kind to one of its ancestors, or to itself. */
  ghost predicate Ancestry(types: Types, kind: string, path: seq<string>) {
    Chain(types, path) && path[0] == kind
  }

  ghost predicate Defines(types: Types, kind: string, path: seq<string>, name: string) {
    Ancestry(types, kind, path) && path[|path| - 1] in types && name in types[path[|path| - 1]].fields
  }

  lemma {:induction false} ParentsGive(types: Types, rank: map<string, nat>, parents: seq<string>, bound: nat, name: string)
    requires Ranked(types, rank) && forall p :: p in parents ==> p in types && rank[p] < bound
    ensures FromParents(types, parents, {}).Some?
    ensures forall p :: p in parents ==> Inherited(types, p, {}).Some?
    ensures name in FromParents(types, parents, {}).value <==> exists p :: p in parents && name in Inherited(types, p, {}).value
    decreases |parents|
  {
    ParentsIrrelevant(types, rank, parents, bound, {});
    if parents != [] {
      var n := |parents| - 1;
      var p := parents[n];
      assert parents == parents[..n] + [p];
      ParentsGive(types, rank, parents[..n], bound, name);
      SeenIrrelevant(types, rank, p, {});
    }
  }

  lemma DefinedAbove(types: Types, kind: string, name: string)
    requires kind in types && name !in types[kind].fields
    ensures forall path :: Defines(types, kind, path, name) ==> |path| > 1 && path[1] in types[kind].parents && Defines(types, path[1], path[1..], name)
  {
  }

  lemma DefinedBelow(types: Types, kind: string, parent: string, path: seq<string>, name: string)
    requires Defines(types, parent, path, name) && kind in types && parent in types[kind].parents
    ensures Defines(types, kind, [kind] + path, name)
  {
    assert ([kind] + path)[1..] == path;
  }

  lemma InheritedUnfolds(types: Types, kind: string, base: Fields)
    requires kind in types && FromParents(types, types[kind].parents, {kind}) == Some(base)
    ensures Inherited(types, kind, {}) == Some(base + types[kind].fields)
  {
    hide FromParents;
    assert {} + {kind} == {kind};
  }

  lemma InheritedIs(types: Types, rank: map<string, nat>, kind: string)
    requires Ranked(types, rank) && kind in types
    ensures FromParents(types, types[kind].parents, {}).Some?
    ensures Inherited(types, kind, {}) == Some(FromParents(types, types[kind].parents, {}).value + types[kind].fields)
  {
    hide Inherited, FromParents;
    ParentsIrrelevant(types, rank, types[kind].parents, rank[kind], {kind});
    InheritedUnfolds(types, kind, FromParents(types, types[kind].parents, {}).value);
  }

  /** A kind has exactly the fields that it or an ancestor defines. */
  lemma {:induction false} FieldsFromAncestors(types: Types, rank: map<string, nat>, kind: string, name: string)
    requires Ranked(types, rank) && kind in types
    ensures Inherited(types, kind, {}).Some?
    ensures name in Inherited(types, kind, {}).value <==> exists path :: Defines(types, kind, path, name)
    decreases rank[kind]
  {
    hide Inherited, FromParents;
    var parents := types[kind].parents;
    InheritedIs(types, rank, kind);
    ParentsGive(types, rank, parents, rank[kind], name);
    forall p | p in parents ensures name in Inherited(types, p, {}).value <==> exists path :: Defines(types, p, path, name) {
      FieldsFromAncestors(types, rank, p, name);
    }
    if name in types[kind].fields {
      assert Defines(types, kind, [kind], name);
      return;
    }
    DefinedAbove(types, kind, name);
    hide Defines;
    if p :| p in parents && name in Inherited(types, p, {}).value {
      var path :| Defines(types, p, path, name);
      DefinedBelow(types, kind, p, path, name);
    }
  }

  /** The last parent in order that has the field. */
  ghost predicate LastGiver(types: Types, parents: seq<string>, name: string, i: int) {
    && 0 <= i < |parents| && Has(types, parents[i], name)
    && forall j :: i < j < |parents| ==> !Has(types, parents[j], name)
  }

  ghost predicate Has(types: Types, kind: string, name: string) {
    Inherited(types, kind, {}).Some? && name in Inherited(types, kind, {}).value
  }

  lemma {:induction false} LastParentGives(types: Types, rank: map<string, nat>, parents: seq<string>, bound: nat, name: string, i: nat)
    requires Ranked(types, rank) && (forall p :: p in parents ==> p in types && rank[p] < bound) && LastGiver(types, parents, name, i)
    ensures FromParents(types, parents, {}).Some? && name in FromParents(types, parents, {}).value
    ensures FromParents(types, parents, {}).value[name] == Inherited(types, parents[i], {}).value[name]
    decreases |parents|
  {
    hide Inherited, Has;
    var n := |parents| - 1;
    var p := parents[n];
    assert p in parents && parents == parents[..n] + [p];
    GivesOneMore(types, rank, parents, bound);
    HasMeans(types, p, name);
    HasMeans(types, parents[i], name);
    if i < n {
      assert !Has(types, parents[n], name);
      assert LastGiver(types, parents[..n], name, i) by {
        forall j | i < j < n ensures !Has(types, parents[..n][j], name) {
          assert parents[..n][j] == parents[j];
        }
      }
      LastParentGives(types, rank, parents[..n], bound, name, i);
    }
  }

  lemma HasMeans(types: Types, kind: string, name: string)
    ensures Has(types, kind, name) <==> Inherited(types, kind, {}).Some? && name in Inherited(types, kind, {}).value
  {
  }

  lemma GivesOneMore(types: Types, rank: map<string, nat>, parents: seq<string>, bound: nat)
    requires Ranked(types, rank) && parents != [] && forall p :: p in parents ==> p in types && rank[p] < bound
    ensures var n := |parents| - 1;
      && FromParents(types, parents[..n], {}).Some? && Inherited(types, parents[n], {}).Some?
      && FromParents(types, parents, {}) == Some(FromParents(types, parents[..n], {}).value + Inherited(types, parents[n], {}).value)
  {
    var n := |parents| - 1;
    assert parents[n] in parents && forall p :: p in parents[..n] ==> p in parents;
    ParentsIrrelevant(types, rank, parents[..n], bound, {});
    SeenIrrelevant(types, rank, parents[n], {});
  }

  /** Where the definition of a field comes from: the kind's own, before any parent's; else that of the last parent that has one. */
  lemma NearestDefinitionWins(types: Types, rank: map<string, nat>, kind: string, name: string, i: nat)
    requires Ranked(types, rank) && kind in types
    ensures Inherited(types, kind, {}).Some?
    ensures name in types[kind].fields ==> name in Inherited(types, kind, {}).value && Inherited(types, kind, {}).value[name] == types[kind].fields[name]
    ensures name !in types[kind].fields && LastGiver(types, types[kind].parents, name, i) ==>
      && name in Inherited(types, kind, {}).value
      && Inherited(types, types[kind].parents[i], {}).Some? && name in Inherited(types, types[kind].parents[i], {}).value
      && Inherited(types, kind, {}).value[name] == Inherited(types, types[kind].parents[i], {}).value[name]
  {
    hide Inherited, FromParents, LastGiver, Has;
    InheritedIs(types, rank, kind);
    if name !in types[kind].fields && LastGiver(types, types[kind].parents, name, i) {
      LastParentGives(types, rank, types[kind].parents, rank[kind], name, i);
      GiverHas(types, types[kind].parents, name, i);
    }
  }

  lemma GiverHas(types: Types, parents: seq<string>, name: string, i: nat)
    requires LastGiver(types, parents, name, i)
    ensures i < |parents| && Inherited(types, parents[i], {}).Some? && name in Inherited(types, parents[i], {}).value
  {
  }
}
