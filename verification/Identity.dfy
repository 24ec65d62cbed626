/** Identity signatures: the length-prefixed tuple encoding, the older joined one, and the rebuild of the
    identity index when a commit changes encoding (internal/graph/identity.go). */
module Identities {
  import opened GraphModel
  import opened CopyOnWrites
  import opened GraphConsistency
  import opened GraphIndexes
  import opened GraphReference

  // ---------- decimal lengths ----------

  function Digit(n: nat): (c: char)
    requires n < 10
    ensures '0' <= c <= '9'
  {
    ('0' as int + n) as char
  }

  /** strconv.Itoa of a length. */
  function Itoa(n: nat): (s: string)
    ensures s != "" && forall i :: 0 <= i < |s| ==> '0' <= s[i] <= '9'
  {
    if n < 10 then [Digit(n)] else Itoa(n / 10) + [Digit(n % 10)]
  }

  function Value(s: string): int
    decreases |s|
  {
    if s == "" then 0 else Value(s[..|s| - 1]) * 10 + (s[|s| - 1] as int - '0' as int)
  }

  lemma {:induction false} ValueOfItoa(n: nat)
    ensures Value(Itoa(n)) == n
  {
    if n >= 10 {
      ValueOfItoa(n / 10);
      assert Itoa(n)[..|Itoa(n)| - 1] == Itoa(n / 10);
    } else {
      assert [Digit(n)][..0] == "";
    }
  }

  lemma ItoaInjective(m: nat, n: nat)
    requires Itoa(m) == Itoa(n)
    ensures m == n
  {
    ValueOfItoa(m);
    ValueOfItoa(n);
  }

  // ---------- the tuple encoding ----------

  /** identityTuple. */
  function Tuple(parts: seq<string>): string {
    if parts == [] then "" else Itoa(|parts[0]|) + ":" + parts[0] + Tuple(parts[1..])
  }

  /** Up to their first colon, equal strings are equal. */
  lemma {:induction false} FirstColon(x: string, u: string, y: string, v: string)
    requires x + [':'] + u == y + [':'] + v
    requires (forall i :: 0 <= i < |x| ==> x[i] != ':') && forall i :: 0 <= i < |y| ==> y[i] != ':'
    ensures x == y && u == v
    decreases |x|
  {
    var a, b := x + [':'] + u, y + [':'] + v;
    assert a[0] == (if x == "" then ':' else x[0]) && b[0] == (if y == "" then ':' else y[0]);
    if x != "" && y != "" {
      assert a[1..] == x[1..] + [':'] + u && b[1..] == y[1..] + [':'] + v;
      FirstColon(x[1..], u, y[1..], v);
      assert x == [x[0]] + x[1..] && y == [y[0]] + y[1..];
    } else {
      assert a[1..] == u || x != "";
      assert b[1..] == v || y != "";
    }
  }

  /** Strings of one length followed by something. */
  lemma SameLength(x: string, u: string, y: string, v: string)
    requires x + u == y + v && |x| == |y|
    ensures x == y && u == v
  {
    assert x == (x + u)[..|x|] && y == (y + v)[..|y|];
    assert u == (x + u)[|x|..] && v == (y + v)[|y|..];
  }

  lemma TupleHead(a: seq<string>)
    requires a != []
    ensures Tuple(a) == Itoa(|a[0]|) + [':'] + (a[0] + Tuple(a[1..]))
  {
  }

  lemma {:induction false} TupleInjective(a: seq<string>, b: seq<string>)
    requires Tuple(a) == Tuple(b)
    ensures a == b
    decreases |a|
  {
    if a != [] {
      TupleHead(a);
    }
    if b != [] {
      TupleHead(b);
    }
    if a != [] && b != [] {
      hide Itoa, Tuple;
      FirstColon(Itoa(|a[0]|), a[0] + Tuple(a[1..]), Itoa(|b[0]|), b[0] + Tuple(b[1..]));
      ItoaInjective(|a[0]|, |b[0]|);
      SameLength(a[0], Tuple(a[1..]), b[0], Tuple(b[1..]));
      TupleInjective(a[1..], b[1..]);
      assert a == [a[0]] + a[1..] && b == [b[0]] + b[1..];
    }
  }

  // ---------- signatures ----------

  /** What makes two entities one: an identity key with its field values, or a source with its external
      identity. */
  datatype Identity = Rule(name: string, fields: seq<(string, string)>) | Source(source: string, external: string)

  datatype Encoding = Legacy | Tuples

  function Flat(fields: seq<(string, string)>): seq<string> {
    if fields == [] then [] else [fields[0].0, fields[0].1] + Flat(fields[1..])
  }

  function Joined(fields: seq<(string, string)>): string {
    if fields == [] then ""
    else if |fields| == 1 then fields[0].0 + "=" + fields[0].1
    else fields[0].0 + "=" + fields[0].1 + "|" + Joined(fields[1..])
  }

  function Parts(identity: Identity): seq<string> {
    match identity
    case Rule(name, fields) => ["rule", name] + Flat(fields)
    case Source(source, external) => ["source", source, external]
  }

  /** ciIdentitySignature and sourceIdentitySignature. */
  function Encode(encoding: Encoding, identity: Identity): string {
    match encoding
    case Tuples => Tuple(Parts(identity))
    case Legacy =>
      match identity
      case Rule(name, fields) => "rule:" + name + "|" + Joined(fields)
      case Source(source, external) => "source:" + source + "|external_id=" + external
  }

  lemma {:induction false} FlatInjective(a: seq<(string, string)>, b: seq<(string, string)>)
    requires Flat(a) == Flat(b)
    ensures a == b
    decreases |a|
  {
    if a != [] && b != [] {
      assert Flat(a)[0] == a[0].0 && Flat(a)[1] == a[0].1 && Flat(a)[2..] == Flat(a[1..]);
      assert Flat(b)[0] == b[0].0 && Flat(b)[1] == b[0].1 && Flat(b)[2..] == Flat(b[1..]);
      FlatInjective(a[1..], b[1..]);
      assert a == [a[0]] + a[1..] && b == [b[0]] + b[1..];
    }
  }

  /** Tuples tell all identities apart. */
  lemma SignatureInjective(a: Identity, b: Identity)
    requires Encode(Tuples, a) == Encode(Tuples, b)
    ensures a == b
  {
    TupleInjective(Parts(a), Parts(b));
    assert Parts(a)[0] == Parts(b)[0] && Parts(a)[1] == Parts(b)[1];
    if a.Rule? && b.Rule? {
      assert Parts(a)[2..] == Flat(a.fields) && Parts(b)[2..] == Flat(b.fields);
      FlatInjective(a.fields, b.fields);
    } else if a.Source? && b.Source? {
      assert Parts(a)[2] == Parts(b)[2];
    }
  }

  /** Tuples never join what the older encoding keeps apart. */
  lemma TuplesRefineLegacy(a: Identity, b: Identity)
    requires Encode(Tuples, a) == Encode(Tuples, b)
    ensures Encode(Legacy, a) == Encode(Legacy, b)
  {
    SignatureInjective(a, b);
  }

  /** The older encoding does join some that tuples keep apart. */
  lemma LegacyJoins(x: string, y: string, z: string)
    ensures var a, b := Source(x, y + "|external_id=" + z), Source(x + "|external_id=" + y, z);
      Encode(Legacy, a) == Encode(Legacy, b) && Encode(Tuples, a) != Encode(Tuples, b)
  {
    var joint := "|external_id=";
    var a, b := Source(x, y + joint + z), Source(x + joint + y, z);
    assert "source:" + x + joint + (y + joint + z) == "source:" + (x + joint + y) + joint + z;
    assert |a.source| < |b.source|;
    if Encode(Tuples, a) == Encode(Tuples, b) {
      SignatureInjective(a, b);
    }
  }

  /** In either encoding an identity key never gives what a source gives. */
  lemma RulesApartFromSources(encoding: Encoding, a: Identity, b: Identity)
    requires a.Rule? && b.Source?
    ensures Encode(encoding, a) != Encode(encoding, b)
  {
    if encoding.Tuples? {
      if Encode(encoding, a) == Encode(encoding, b) {
        SignatureInjective(a, b);
      }
    } else {
      assert Encode(encoding, a)[0] == 'r' && Encode(encoding, b)[0] == 's';
    }
  }

  /** Every signature encodes an identity of one sort. */
  ghost predicate Encodes(encoding: Encoding, signatures: set<string>, rules: bool) {
    forall s :: s in signatures ==> exists i: Identity :: Encode(encoding, i) == s && i.Rule? == rules
  }

  /** So commits may rely on it. */
  lemma EncodedApart(base: Base, encoding: Encoding)
    requires forall keys, fields, identity :: Encodes(encoding, base.ruleSigns(keys, fields, identity), true)
    requires forall identity :: Encodes(encoding, base.sourceSigns(identity), false)
    ensures Apart(base)
  {
    forall keys, fields, identity, other ensures base.ruleSigns(keys, fields, identity) !! base.sourceSigns(other) {
      forall s | s in base.ruleSigns(keys, fields, identity) ensures s !in base.sourceSigns(other) {
        assert Encodes(encoding, base.ruleSigns(keys, fields, identity), true) && Encodes(encoding, base.sourceSigns(other), false);
        if s in base.sourceSigns(other) {
          var a: Identity :| Encode(encoding, a) == s && a.Rule?;
          var b: Identity :| Encode(encoding, b) == s && !b.Rule?;
          RulesApartFromSources(encoding, a, b);
        }
      }
    }
  }

  // ---------- changing the encoding ----------

  /** The identities that a kind, fields and identity values give. */
  type Identified = (string, map<string, Value>, string) -> set<Identity>

  /** Their signatures in an encoding. */
  function Signing(of: Identified, encoding: Encoding): Signer {
    (kind: string, fields: map<string, Value>, identity: string) => set i | i in of(kind, fields, identity) :: Encode(encoding, i)
  }

  /** useCommitIdentity: the index is rebuilt from the entities in any order, the last claim of a
      signature standing. It has one owner per signature exactly when no signature is claimed twice. */
  method UseEncoding(entities: Entities, of: Identified, encoding: Encoding) returns (index: map<(string, string), string>)
    ensures Identifies(Signing(of, encoding), index, entities) <==> SeparateIdentities(Signing(of, encoding), entities)
  {
    hide Signing, Signatures;
    var signs := Signing(of, encoding);
    index := map[];
    var todo := entities.Keys;
    ghost var done: Entities := map[];
    while todo != {}
      invariant todo <= entities.Keys && done == entities - todo
      invariant SeparateIdentities(signs, entities) ==> Identifies(signs, index, done)
      decreases todo
    {
      var id :| id in todo;
      var e := entities[id];
      if SeparateIdentities(signs, entities) {
        ClaimIdentifies(signs, index, entities, done, id);
      }
      index := index + Claims(e.kind, Signatures(signs, e), id);
      todo, done := todo - {id}, done[id := e];
    }
    assert done == entities;
    if Identifies(signs, index, entities) {
      IdentifiesSeparates(signs, index, entities);
    }
  }

  lemma ClaimIdentifies(signs: Signer, index: map<(string, string), string>, entities: Entities, done: Entities, id: string)
    requires SeparateIdentities(signs, entities) && id in entities && id !in done && Identifies(signs, index, done)
    requires forall x :: x in done ==> x in entities && done[x] == entities[x]
    ensures Identifies(signs, index + Claims(entities[id].kind, Signatures(signs, entities[id]), id), done[id := entities[id]])
  {
    hide Signatures;
    var e := entities[id];
    forall s | s in Signatures(signs, e) ensures (e.kind, s) !in index {
    }
    ClaimFree(signs, index, done, id, e);
  }

  lemma SignedBy(of: Identified, encoding: Encoding, e: Entity)
    ensures Signatures(Signing(of, encoding), e) == set i | i in of(e.kind, e.fields, e.identity) :: Encode(encoding, i)
  {
  }

  /** Going from the older encoding to tuples keeps one owner per signature. */
  lemma TuplesStaySeparate(entities: Entities, of: Identified)
    requires SeparateIdentities(Signing(of, Legacy), entities)
    ensures SeparateIdentities(Signing(of, Tuples), entities)
  {
    hide Signing, Signatures, Encode;
    var before, after := Signing(of, Legacy), Signing(of, Tuples);
    forall i, j, s | i in entities && j in entities && i != j && entities[i].kind == entities[j].kind && s in Signatures(after, entities[i])
      ensures s !in Signatures(after, entities[j])
    {
      var x, y := entities[i], entities[j];
      SignedBy(of, Legacy, x);
      SignedBy(of, Legacy, y);
      SignedBy(of, Tuples, x);
      SignedBy(of, Tuples, y);
      var a :| a in of(x.kind, x.fields, x.identity) && Encode(Tuples, a) == s;
      assert Encode(Legacy, a) in Signatures(before, x);
      if s in Signatures(after, y) {
        var b :| b in of(y.kind, y.fields, y.identity) && Encode(Tuples, b) == s;
        assert Encode(Legacy, b) in Signatures(before, y);
        TuplesRefineLegacy(a, b);
      }
    }
  }
}
