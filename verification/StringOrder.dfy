/** The byte order of strings, and the two facts the Go sort package gives its callers. */
module StringOrder {

  predicate Less(a: string, b: string) {
    if b == "" then false
    else if a == "" then true
    else a[0] < b[0] || (a[0] == b[0] && Less(a[1..], b[1..]))
  }

  predicate AtMost(a: string, b: string) {
    !Less(b, a)
  }

  lemma {:induction false} LessIrreflexive(a: string)
    ensures !Less(a, a)
    decreases |a|
  {
    if a != "" {
      LessIrreflexive(a[1..]);
    }
  }

  lemma {:induction false} LessTransitive(a: string, b: string, c: string)
    requires Less(a, b) && Less(b, c)
    ensures Less(a, c)
    decreases |a|
  {
    if a != "" && a[0] == b[0] == c[0] {
      LessTransitive(a[1..], b[1..], c[1..]);
    }
  }

  lemma {:induction false} LessTotal(a: string, b: string)
    ensures Less(a, b) || a == b || Less(b, a)
    decreases |a|
  {
    if a != "" && b != "" && a[0] == b[0] {
      LessTotal(a[1..], b[1..]);
      assert a == [a[0]] + a[1..] && b == [b[0]] + b[1..];
    }
  }

  lemma LessAsymmetric(a: string, b: string)
    requires Less(a, b)
    ensures !Less(b, a) && a != b
  {
    LessIrreflexive(a);
    if Less(b, a) {
      LessTransitive(a, b, a);
    }
  }

  lemma AtMostTransitive(a: string, b: string, c: string)
    requires AtMost(a, b) && AtMost(b, c)
    ensures AtMost(a, c)
  {
    LessTotal(a, b);
    LessTotal(b, c);
    if Less(c, a) {
      if Less(a, b) {
        LessTransitive(c, a, b);
      }
    }
  }

  predicate Increasing(s: seq<string>) {
    forall i, j :: 0 <= i < j < |s| ==> Less(s[i], s[j])
  }

  predicate Ascending(s: seq<string>) {
    forall i, j :: 0 <= i < j < |s| ==> AtMost(s[i], s[j])
  }

  function Insert(x: string, s: seq<string>): (r: seq<string>)
    requires Ascending(s)
    ensures Ascending(r) && multiset(r) == multiset(s) + multiset{x}
  {
    if s == [] then [x]
    else if AtMost(x, s[0]) then
      assert forall i :: 0 < i < |s| ==> AtMost(x, s[i]) by {
        forall i | 0 < i < |s| ensures AtMost(x, s[i]) {
          AtMostTransitive(x, s[0], s[i]);
        }
      }
      [x] + s
    else
      assert s == [s[0]] + s[1..];
      var rest := Insert(x, s[1..]);
      assert forall i :: 0 <= i < |rest| ==> AtMost(s[0], rest[i]) by {
        LessTotal(s[0], x);
        LessAsymmetricAtMost(s[0], x);
        forall i | 0 <= i < |rest| ensures AtMost(s[0], rest[i]) {
          assert rest[i] in multiset(rest);
          assert rest[i] == x || rest[i] in s[1..];
        }
      }
      [s[0]] + rest
  }

  lemma LessAsymmetricAtMost(a: string, b: string)
    requires Less(a, b) || a == b
    ensures AtMost(a, b)
  {
    LessIrreflexive(a);
    if Less(b, a) {
      LessTransitive(a, b, a);
    }
  }

  /** sort.Strings. */
  function Sort(s: seq<string>): (r: seq<string>)
    ensures Ascending(r) && multiset(r) == multiset(s)
  {
    if s == [] then []
    else
      assert s == [s[0]] + s[1..];
      Insert(s[0], Sort(s[1..]))
  }

  /** Some enumeration of a finite set. */
  ghost function Enumerated(s: set<string>): (r: seq<string>)
    ensures forall x :: x in r <==> x in s
    ensures forall i, j :: 0 <= i < j < |r| ==> r[i] != r[j]
  {
    if s == {} then [] else
      var x :| x in s;
      Enumerated(s - {x}) + [x]
  }

  /** The elements of a set in increasing order. */
  ghost predicate SortedAs(r: seq<string>, s: set<string>) {
    Increasing(r) && forall x :: x in r <==> x in s
  }

  lemma {:induction false} SortedIsUnique(a: seq<string>, b: seq<string>, s: set<string>)
    requires SortedAs(a, s) && SortedAs(b, s)
    ensures a == b
    decreases |a|
  {
    if a == [] {
      var x := if b == [] then "" else b[0];
      assert b != [] ==> x in b;
    } else {
      assert a[0] in s && a[0] in b;
      assert b[0] in s && b[0] in a;
      var i :| 0 <= i < |b| && b[i] == a[0];
      var j :| 0 <= j < |a| && a[j] == b[0];
      if i > 0 {
        LessAsymmetric(b[0], b[i]);
      }
      assert a[0] == b[0];
      TailSorted(a, s);
      TailSorted(b, s);
      SortedIsUnique(a[1..], b[1..], s - {a[0]});
    }
  }

  lemma TailSorted(a: seq<string>, s: set<string>)
    requires SortedAs(a, s) && a != []
    ensures SortedAs(a[1..], s - {a[0]})
  {
    forall x | x in a[1..] ensures x in s - {a[0]} {
      var k :| 1 <= k < |a| && a[k] == x;
      LessAsymmetric(a[0], a[k]);
    }
    forall x | x in s - {a[0]} ensures x in a[1..] {
      assert x in a;
      var k :| 0 <= k < |a| && a[k] == x;
      assert a[1..][k - 1] == x;
    }
  }

  /** Sorting distinct names puts them in strictly increasing order. */
  lemma SortedNamesIncrease(ids: seq<string>)
    requires forall i, j :: 0 <= i < j < |ids| ==> ids[i] != ids[j]
    ensures Increasing(Sort(ids))
  {
    var r := Sort(ids);
    forall i, j | 0 <= i < j < |r| ensures Less(r[i], r[j]) {
      LessTotal(r[i], r[j]);
      assert AtMost(r[i], r[j]);
      if r[i] == r[j] {
        RepeatCountsTwice(r, i, j);
        DistinctCountsOnce(ids, r[i]);
      }
    }
  }

  lemma SortedNamesAgree(ids: seq<string>, s: string)
    ensures s in Sort(ids) <==> s in ids
  {
    assert s in Sort(ids) <==> s in multiset(Sort(ids));
    assert s in ids <==> s in multiset(ids);
  }

  lemma RepeatCountsTwice(r: seq<string>, i: nat, j: nat)
    requires i < j < |r| && r[i] == r[j]
    ensures multiset(r)[r[i]] >= 2
  {
    assert r == r[..j] + [r[j]] + r[j + 1..];
    assert r[i] in r[..j];
    assert multiset(r[..j])[r[i]] >= 1;
  }

  lemma {:induction false} DistinctCountsOnce(ids: seq<string>, x: string)
    requires forall i, j :: 0 <= i < j < |ids| ==> ids[i] != ids[j]
    ensures multiset(ids)[x] <= 1
    decreases |ids|
  {
    if ids != [] {
      assert ids == [ids[0]] + ids[1..];
      DistinctCountsOnce(ids[1..], x);
      if x == ids[0] {
        assert x !in ids[1..];
        assert x !in multiset(ids[1..]);
      }
    }
  }

  /** The elements of a set, sorted. */
  ghost function Sorted(s: set<string>): (r: seq<string>)
    ensures SortedAs(r, s)
  {
    var ids := Enumerated(s);
    SortedNamesIncrease(ids);
    assert forall x :: x in Sort(ids) <==> x in s by {
      forall x ensures x in Sort(ids) <==> x in s {
        SortedNamesAgree(ids, x);
      }
    }
    Sort(ids)
  }

  /** Collect the elements of a set and sort them. */
  method SortSet(s: set<string>) returns (r: seq<string>)
    ensures r == Sorted(s)
  {
    var ids: seq<string> := [];
    var todo := s;
    while todo != {}
      invariant todo <= s
      invariant forall x :: x in ids <==> x in s && x !in todo
      invariant forall i, j :: 0 <= i < j < |ids| ==> ids[i] != ids[j]
      decreases todo
    {
      var x :| x in todo;
      todo := todo - {x};
      ids := ids + [x];
    }
    r := Sort(ids);
    SortedNamesIncrease(ids);
    forall x ensures x in r <==> x in s {
      SortedNamesAgree(ids, x);
    }
    SortedIsUnique(r, Sorted(s), s);
  }
}
