/** The validator of unique fields, with its commit-local index of composite values
    (internal/graph/unique_validation.go). */
module UniqueFields {
  import opened GraphModel
  import opened CopyOnWrites
  import opened GraphIndexes

  type FieldPostings = Postings<(string, string, string)>

  /** The scalar postings are right about every entity but possibly `self`. */
  ghost predicate PostsOthers(fields: FieldPostings, entities: Entities, self: string) {
    forall k, x :: x != self ==> (x in At(fields, k) <==> ByField(entities)(k, x))
  }

  /** Some other entity of the kind holds the value in the field. */
  predicate Taken(entities: Entities, e: Entity, field: string) {
    field in e.fields && exists id :: id in entities && id != e.id && entities[id].kind == e.kind && field in entities[id].fields && entities[id].fields[field] == e.fields[field]
  }

  /** Some other entity shares a unique field value with `e`. */
  predicate Clashes(unique: string -> set<string>, entities: Entities, e: Entity) {
    exists id :: id in entities && id != e.id && SharesUnique(unique, e, entities[id])
  }

  lemma ClashIsTaken(unique: string -> set<string>, entities: Entities, e: Entity)
    ensures Clashes(unique, entities, e) <==> exists f :: f in unique(e.kind) && Taken(entities, e, f)
  {
    if Clashes(unique, entities, e) {
      var id :| id in entities && id != e.id && SharesUnique(unique, e, entities[id]);
      var f :| f in unique(e.kind) && f in e.fields && f in entities[id].fields && e.fields[f] == entities[id].fields[f];
      assert Taken(entities, e, f);
    }
    if f :| f in unique(e.kind) && Taken(entities, e, f) {
      var id :| id in entities && id != e.id && entities[id].kind == e.kind && f in entities[id].fields && entities[id].fields[f] == e.fields[f];
      assert SharesUnique(unique, e, entities[id]);
    }
  }

  /** The composite value of one unique field, if it has a JSON form, is among the candidates. */
  predicate Listed(unique: string -> set<string>, complex: FieldPostings, e: Entity, id: string, f: string) {
    f in unique(e.kind) && f in e.fields && e.fields[f].Composite? && e.fields[f].json.Some? ==>
      id in At(complex, (e.kind, f, e.fields[f].json.value))
  }

  /** So is every composite value of an entity. */
  ghost predicate ListsAll(unique: string -> set<string>, complex: FieldPostings, e: Entity, id: string) {
    forall f :: f in unique(e.kind) ==> Listed(unique, complex, e, id, f)
  }

  lemma ListingGrows(unique: string -> set<string>, complex: FieldPostings, complex': FieldPostings, e: Entity, id: string)
    requires ListsAll(unique, complex, e, id)
    requires forall k :: At(complex, k) <= At(complex', k)
    ensures ListsAll(unique, complex', e, id)
  {
    forall f | f in unique(e.kind) ensures Listed(unique, complex', e, id, f) {
      assert Listed(unique, complex, e, id, f);
      if f in e.fields && e.fields[f].Composite? && e.fields[f].json.Some? {
        var k := (e.kind, f, e.fields[f].json.value);
        assert At(complex, k) <= At(complex', k);
      }
    }
  }

  /** uniqueEntityValidator. `complex` is filled for a kind when the kind is first needed, only ever
      grows, and may keep entries of entities that have changed or gone. */
  class Validator {
    const unique: string -> set<string>
    var prepared: set<string>
    var complex: FieldPostings

    constructor (unique: string -> set<string>)
      ensures this.unique == unique && prepared == {} && complex == map[]
    {
      this.unique := unique;
      prepared, complex := {}, map[];
    }

    /** Every composite unique value now in a prepared kind is listed. */
    ghost predicate Complete(entities: Entities)
      reads this
    {
      forall id :: id in entities && entities[id].kind in prepared ==> ListsAll(unique, complex, entities[id], id)
    }

    lemma UnpreparedIsComplete(entities: Entities)
      requires prepared == {}
      ensures Complete(entities)
    {
    }

    /** addComplexValues. */
    method AddValues(id: string, e: Entity)
      modifies this`complex
      ensures ListsAll(unique, complex, e, id)
      ensures forall k :: At(old(complex), k) <= At(complex, k)
    {
      var todo := unique(e.kind);
      while todo != {}
        invariant forall f :: f in unique(e.kind) && f !in todo ==> Listed(unique, complex, e, id, f)
        invariant forall k :: At(old(complex), k) <= At(complex, k)
        decreases todo
      {
        var f :| f in todo;
        todo := todo - {f};
        if f in e.fields && e.fields[f].Composite? && e.fields[f].json.Some? {
          complex := Posted(complex, (e.kind, f, e.fields[f].json.value), id);
        }
      }
    }

    lemma GrowthKeepsComplete(entities: Entities, before: FieldPostings)
      requires forall id :: id in entities && entities[id].kind in prepared ==> ListsAll(unique, before, entities[id], id)
      requires forall k :: At(before, k) <= At(complex, k)
      ensures Complete(entities)
    {
      forall id | id in entities && entities[id].kind in prepared ensures ListsAll(unique, complex, entities[id], id) {
        ListingGrows(unique, before, complex, entities[id], id);
      }
    }

    /** ensureKind. */
    method EnsureKind(kind: string, entities: Entities, ghost self: string)
      requires Complete(entities - {self})
      modifies this
      ensures Complete(entities - {self}) && prepared == old(prepared) + {kind}
      ensures old(Complete(entities)) ==> Complete(entities)
    {
      if kind in prepared {
        return;
      }
      var todo := entities.Keys;
      while todo != {}
        invariant todo <= entities.Keys && prepared == old(prepared)
        invariant Complete(entities - {self}) && (old(Complete(entities)) ==> Complete(entities))
        invariant forall id :: id in entities && id !in todo && entities[id].kind == kind ==> ListsAll(unique, complex, entities[id], id)
        decreases todo
      {
        var id :| id in todo;
        todo := todo - {id};
        if entities[id].kind == kind {
          ghost var before := complex;
          AddValues(id, entities[id]);
          GrowthKeepsComplete(entities - {self}, before);
          if old(Complete(entities)) {
            GrowthKeepsComplete(entities, before);
          }
          forall x | x in entities && x !in todo && x != id && entities[x].kind == kind ensures ListsAll(unique, complex, entities[x], x) {
            ListingGrows(unique, before, complex, entities[x], x);
          }
        }
      }
      prepared := prepared + {kind};
    }

    /** One field of validate: scalars by the postings, composites by the commit-local candidates
        checked against the stored values, values without a JSON form by a scan. */
    method FieldTaken(e: Entity, field: string, entities: Entities, fields: FieldPostings) returns (taken: bool)
      requires Complete(entities - {e.id}) && e.kind in prepared && field in unique(e.kind)
      requires PostsOthers(fields, entities, e.id)
      ensures taken <==> Taken(entities, e, field)
    {
      if field !in e.fields {
        return false;
      }
      var value := e.fields[field];
      if value.Scalar? {
        var key := (e.kind, field, value.key);
        taken := exists id :: id in At(fields, key) && id != e.id;
        forall id | id != e.id
          ensures id in At(fields, key) <==> id in entities && entities[id].kind == e.kind && field in entities[id].fields && entities[id].fields[field] == value
        {
          assert id in At(fields, key) <==> ByField(entities)(key, id);
        }
      } else if value.json.None? {
        taken := exists id :: id in entities && id != e.id && entities[id].kind == e.kind && field in entities[id].fields && entities[id].fields[field] == value;
      } else {
        var key := (e.kind, field, value.json.value);
        taken := exists id :: id in At(complex, key) && id != e.id && id in entities && entities[id].kind == e.kind && field in entities[id].fields && entities[id].fields[field] == value;
        forall id | id in entities - {e.id} && entities[id].kind == e.kind && field in entities[id].fields && entities[id].fields[field] == value
          ensures id in At(complex, key)
        {
          assert ListsAll(unique, complex, entities[id], id) && Listed(unique, complex, entities[id], id, field);
        }
      }
    }

    /** validate: exact for the entities stored now, whatever stale entries are kept; the entity being
        validated may itself be stored and not yet listed. */
    method Validate(e: Entity, entities: Entities, fields: FieldPostings) returns (ok: bool)
      requires Complete(entities - {e.id}) && PostsOthers(fields, entities, e.id)
      modifies this
      ensures Complete(entities - {e.id}) && e.kind in prepared
      ensures old(Complete(entities)) ==> Complete(entities)
      ensures ok <==> !Clashes(unique, entities, e)
    {
      EnsureKind(e.kind, entities, e.id);
      ClashIsTaken(unique, entities, e);
      var todo := unique(e.kind);
      while todo != {}
        invariant todo <= unique(e.kind)
        invariant Complete(entities - {e.id}) && e.kind in prepared && (old(Complete(entities)) ==> Complete(entities))
        invariant forall f :: f in unique(e.kind) && f !in todo ==> !Taken(entities, e, f)
        decreases todo
      {
        var f :| f in todo;
        todo := todo - {f};
        var taken := FieldTaken(e, f, entities, fields);
        if taken {
          return false;
        }
      }
      ok := true;
    }

    /** add: an accepted entity is listed from here on. */
    method Record(e: Entity, ghost entities: Entities)
      requires Complete(entities - {e.id})
      modifies this`complex
      ensures Complete(entities[e.id := e])
    {
      ghost var before := complex;
      AddValues(e.id, e);
      GrowthKeepsComplete(entities - {e.id}, before);
      ghost var after := entities[e.id := e];
      forall id | id in after && after[id].kind in prepared ensures ListsAll(unique, complex, after[id], id) {
        assert id != e.id ==> id in entities - {e.id} && (entities - {e.id})[id] == after[id];
      }
    }

    /** Entities may go, or change where no unique field is concerned, without a word to the validator. */
    lemma StaysComplete(entities: Entities, after: Entities)
      requires Complete(entities)
      requires forall id :: id in after ==> id in entities && after[id].kind == entities[id].kind && after[id].fields == entities[id].fields
      ensures Complete(after)
    {
      forall id | id in after && after[id].kind in prepared ensures ListsAll(unique, complex, after[id], id) {
        assert ListsAll(unique, complex, entities[id], id);
        forall f | f in unique(after[id].kind) ensures Listed(unique, complex, after[id], id, f) {
          assert Listed(unique, complex, entities[id], id, f);
        }
      }
    }
  }

  /** Accepting an entity that clashes with nothing keeps unique fields unique. */
  lemma AcceptedStaysUnique(unique: string -> set<string>, entities: Entities, e: Entity)
    requires FieldsUnique(unique, entities) && !Clashes(unique, entities, e)
    ensures FieldsUnique(unique, entities[e.id := e])
  {
    var after := entities[e.id := e];
    forall i, j | i in after && j in after && i != j ensures !SharesUnique(unique, after[i], after[j]) {
      if j == e.id {
        assert SharesUnique(unique, after[i], e) <==> SharesUnique(unique, e, after[i]);
      }
    }
  }
}
