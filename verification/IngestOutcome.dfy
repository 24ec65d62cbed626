/** What one command leaves of an ingest queue, record by record: what was answered for a batch is what its record says, and what
    is published is what was handed over (internal/ha/ingest.go:95-233). */
module IngestOutcomes {
  import opened GraphModel
  import opened Ingests
  import Sharding

  /** The batches of a flush that still wait, in its order. */
  function Waiters(records: Records, ids: seq<Key>): seq<Key>
    decreases |ids|
  {
    if ids == [] then []
    else
      var k := ids[|ids| - 1];
      Waiters(records, ids[..|ids| - 1]) + if k in records && records[k].progress.Accepted? then [k] else []
  }

  /** Its identifiers cannot be stored. */
  predicate Refused(rules: Rules, records: Records, strict: bool, k: Key) {
    strict && k in records && !rules.valid(records[k].request)
  }

  /** Those handed to the tenant's store. */
  function Handed(rules: Rules, records: Records, strict: bool, keys: seq<Key>): seq<Entry>
    decreases |keys|
  {
    if keys == [] then []
    else
      var k := keys[|keys| - 1];
      Handed(rules, records, strict, keys[..|keys| - 1]) +
        if k in records && !Refused(rules, records, strict, k) then [Entry(k, records[k].request)] else []
  }

  /** How many items of the `i`-th waiting batch failed: what the store answered for it; all of them, when the tenant is gone; and at
      least one, when its identifiers are refused. */
  ghost predicate FailedItems(rules: Rules, records: Records, strict: bool, keys: seq<Key>, i: nat, store: Outcome, n: nat)
    requires i < |keys| && keys[i] in records
  {
    var items := |records[keys[i]].request.items|;
    if Refused(rules, records, strict, keys[i]) then n == if items < 1 then 1 else items
    else if store.Gone? then n == items
    else
      var j := |Handed(rules, records, strict, keys[..i])|;
      store.Applied? && j < |store.failed| && n == store.failed[j]
  }

  /** The record of a batch with a result: committed without a failed item, failed with one; the number is kept, and of the request
      only its names. */
  predicate Ended(rules: Rules, before: Record, after: Record, n: nat) {
    && (after.progress.Committed? <==> n == 0) && (after.progress.Failed? <==> n != 0) && after.failures == Some(n)
    && after.tenant == before.tenant && after.generation == before.generation && after.index == before.index
    && after.request == Request(before.request.source, before.request.collector, before.request.batch, [])
    && after.digest == if before.digest != "" then before.digest else rules.digest(before.request)
  }

  /** The flush may be applied: it is routed here and names batches of the tenant. */
  predicate Applicable(s: State, c: Command)
    requires c.Flush?
  {
    && (c.owner.Some? ==> c.owner.value.state.Active? && (c.epoch == 0 || c.epoch == c.owner.value.epoch))
    && forall i :: 0 <= i < |c.ids| ==> IsOf(s.records, c.tenant, c.ids[i])
  }

  // ---------- the same, as the queue computes it ----------

  /** The key is a record of the tenant. */
  predicate IsOf(records: Records, tenant: string, k: Key) {
    k in records && records[k].tenant == tenant
  }

  lemma {:induction false} WaitersGathered(records: Records, tenant: string, ids: seq<Key>)
    ensures Gathered(records, tenant, ids).Some? <==> forall i :: 0 <= i < |ids| ==> IsOf(records, tenant, ids[i])
    ensures Gathered(records, tenant, ids).Some? ==> Gathered(records, tenant, ids).value == Waiters(records, ids)
    decreases |ids|
  {
    hide Gathered, IsOf;
    if ids == [] {
      NoneGathered(records, tenant);
    } else {
      var n := |ids| - 1;
      WaitersGathered(records, tenant, ids[..n]);
      GatheredLast(records, tenant, ids);
      assert forall i :: 0 <= i < n ==> ids[..n][i] == ids[i];
      if Gathered(records, tenant, ids[..n]).None? {
        var i :| 0 <= i < n && !IsOf(records, tenant, ids[..n][i]);
        assert !IsOf(records, tenant, ids[i]);
      }
    }
  }

  lemma NoneGathered(records: Records, tenant: string)
    ensures Gathered(records, tenant, []) == Some([])
  {
  }

  lemma GatheredLast(records: Records, tenant: string, ids: seq<Key>)
    requires ids != []
    ensures var n := |ids| - 1;
      var before := Gathered(records, tenant, ids[..n]);
      && (Gathered(records, tenant, ids).Some? <==> before.Some? && IsOf(records, tenant, ids[n]))
      && (Gathered(records, tenant, ids).Some? ==> Gathered(records, tenant, ids).value == before.value + if records[ids[n]].progress.Accepted? then [ids[n]] else [])
      && (IsOf(records, tenant, ids[n]) ==> ids[n] in records)
  {
  }

  lemma {:induction false} WaitersWait(records: Records, ids: seq<Key>)
    ensures forall k :: k in Waiters(records, ids) <==> k in ids && k in records && records[k].progress.Accepted?
    decreases |ids|
  {
    if ids != [] {
      WaitersWait(records, ids[..|ids| - 1]);
      assert ids == ids[..|ids| - 1] + [ids[|ids| - 1]];
    }
  }

  lemma {:induction false} HandedEntries(rules: Rules, records: Records, strict: bool, keys: seq<Key>)
    requires forall k :: k in keys ==> k in records
    ensures Handed(rules, records, strict, keys) == Entries(rules, records, strict, keys)
    decreases |keys|
  {
    if keys != [] {
      assert keys[|keys| - 1] in keys && forall x :: x in keys[..|keys| - 1] ==> x in keys;
      HandedEntries(rules, records, strict, keys[..|keys| - 1]);
    }
  }

  lemma {:induction false} HandedAre(rules: Rules, records: Records, strict: bool, keys: seq<Key>, k: Key)
    requires k in keys && k in records && !Refused(rules, records, strict, k)
    ensures Entry(k, records[k].request) in Handed(rules, records, strict, keys)
    decreases |keys|
  {
    if k != keys[|keys| - 1] {
      assert k in keys[..|keys| - 1];
      HandedAre(rules, records, strict, keys[..|keys| - 1], k);
    }
  }

  /** The failures computed for all keys, position by position. */
  lemma {:induction false} FailuresAt(rules: Rules, records: Records, strict: bool, keys: seq<Key>, applied: seq<nat>, i: nat)
    requires (forall k :: k in keys ==> k in records) && |applied| == |Entries(rules, records, strict, keys)| && i < |keys|
    ensures keys[i] in records
    ensures var n := Failures(rules, records, strict, keys, applied)[i];
      if Refused(rules, records, strict, keys[i]) then n == if |records[keys[i]].request.items| < 1 then 1 else |records[keys[i]].request.items|
      else |Handed(rules, records, strict, keys[..i])| < |applied| && n == applied[|Handed(rules, records, strict, keys[..i])|]
    decreases |keys|
  {
    var n := |keys| - 1;
    var rest := keys[..n];
    assert keys[i] in keys && forall x :: x in rest ==> x in keys;
    HandedEntries(rules, records, strict, rest);
    if i < n {
      assert rest[..i] == keys[..i] && rest[i] == keys[i];
      if strict && !rules.valid(records[keys[n]].request) {
        FailuresAt(rules, records, strict, rest, applied, i);
      } else {
        FailuresAt(rules, records, strict, rest, applied[..|applied| - 1], i);
      }
    }
  }

  /** Every batch has ended with its number, and the other records are as they were. */
  ghost predicate AllEnded(rules: Rules, before: Records, after: Records, keys: seq<Key>, failed: seq<nat>)
    requires |keys| == |failed|
  {
    && after.Keys == before.Keys
    && (forall k :: k in before && k !in keys ==> after[k] == before[k])
    && (forall i :: 0 <= i < |keys| ==> keys[i] in before && keys[i] in after && Ended(rules, before[keys[i]], after[keys[i]], failed[i]))
  }

  lemma EndedMore(rules: Rules, before: Records, after: Records, keys: seq<Key>, failed: seq<nat>, k: Key, n: nat)
    requires |keys| == |failed| && AllEnded(rules, before, after, keys, failed) && k in before && k !in keys
    ensures AllEnded(rules, before, after[k := Finished(rules, before[k], n)], keys + [k], failed + [n])
  {
    EndsOne(rules, before[k], n);
    hide Ended, Finished;
    var longer, more, next := keys + [k], failed + [n], after[k := Finished(rules, before[k], n)];
    forall i | 0 <= i < |longer| ensures longer[i] in before && longer[i] in next && Ended(rules, before[longer[i]], next[longer[i]], more[i]) {
      if i < |keys| {
        assert longer[i] == keys[i] && keys[i] in keys;
      }
    }
    forall x | x in before && x !in longer ensures next[x] == before[x] {
      assert longer[|keys|] == k;
      assert x in keys ==> x in longer;
    }
  }

  lemma {:induction false} FinishedAt(rules: Rules, before: Records, keys: seq<Key>, failed: seq<nat>)
    requires |keys| == |failed| && Distinct(keys) && forall k :: k in keys ==> k in before
    ensures AllEnded(rules, before, FinishAll(rules, before, keys, failed), keys, failed)
    decreases |keys|
  {
    hide AllEnded, FinishAll, Finished, Distinct;
    if keys != [] {
      var n := |keys| - 1;
      DistinctLast(keys);
      assert keys == keys[..n] + [keys[n]] && failed == failed[..n] + [failed[n]];
      FinishedAt(rules, before, keys[..n], failed[..n]);
      FinishOneMore(rules, before, keys[..n], failed[..n], keys[n], failed[n]);
      EndedMore(rules, before, FinishAll(rules, before, keys[..n], failed[..n]), keys[..n], failed[..n], keys[n], failed[n]);
    } else {
      NoneEnded(rules, before);
      assert keys == [] && failed == [];
    }
  }

  lemma NoneEnded(rules: Rules, before: Records)
    ensures AllEnded(rules, before, FinishAll(rules, before, [], []), [], [])
  {
  }

  lemma DistinctLast(keys: seq<Key>)
    requires keys != [] && Distinct(keys)
    ensures var n := |keys| - 1;
      Distinct(keys[..n]) && keys[n] !in keys[..n] && keys[n] in keys && forall x :: x in keys[..n] ==> x in keys
  {
  }

  lemma EndsOne(rules: Rules, record: Record, n: nat)
    ensures Ended(rules, record, Finished(rules, record, n), n)
  {
  }

  // ---------- one command ----------

  /** What the store made of the batches handed to it. */
  ghost function StoreAnswer(c: Command, handed: seq<Entry>): Outcome
    requires c.Flush?
  {
    if handed == [] then Outcome.Applied([]) else c.store(handed)
  }

  lemma NobodyWaits(rules: Rules, s: State, c: Command)
    requires c.Flush? && Gathered(s.records, c.tenant, c.ids) == Some([])
    ensures Flushing(rules, s, c) == if Routed(c.owner, c.epoch) then (s, Results([])) else (s, RouteChanged)
  {
  }

  /** A flush is answered with results exactly when it is routed to a shard that serves the tenant, names its batches, and its store,
      if it is asked, answers for all of them or says that the tenant is gone. Then every batch that waited has ended as it was
      answered, every other record is as it was, and what was handed over is published in order if the store applied it. */
  lemma FlushOutcome(rules: Rules, s: State, c: Command)
    requires c.Flush? && WellBuilt(c)
    ensures var (after, reply) := Flushing(rules, s, c);
      var keys := Waiters(s.records, c.ids);
      var handed := Handed(rules, s.records, c.strict, keys);
      var store := StoreAnswer(c, handed);
      && (reply.Results? <==> Applicable(s, c) && (store.Gone? || (store.Applied? && |store.failed| == |handed|)))
      && (!reply.Results? ==> after == s)
      && (reply.Results? ==>
            && |reply.failed| == |keys| && after.origin == s.origin
            && after.records.Keys == s.records.Keys && (forall k :: k in s.records && k !in keys ==> after.records[k] == s.records[k])
            && (forall i :: 0 <= i < |keys| ==> BatchEnded(rules, s, c, keys, i, store, after, reply.failed[i]))
            && after.published == s.published + if store.Applied? then handed else [])
  {
    hide FinishAll, Failures, Entries, Handed, Waiters, Gathered, FailedItems, Ended, BatchEnded, Distinct;
    WaitersGathered(s.records, c.tenant, c.ids);
    WaitersWait(s.records, c.ids);
    var keys := Waiters(s.records, c.ids);
    HandedEntries(rules, s.records, c.strict, keys);
    if Gathered(s.records, c.tenant, c.ids).Some? && keys != [] {
      var handed := Handed(rules, s.records, c.strict, keys);
      var answers := Answers(handed, StoreAnswer(c, handed));
      GatheredDistinct(s.records, c.tenant, c.ids);
      if answers.Some? {
        BatchesEnd(rules, s, c, keys, answers.value);
      }
    } else if Gathered(s.records, c.tenant, c.ids).Some? {
      NothingHanded(rules, s.records, c.strict);
      NobodyWaits(rules, s, c);
    }
  }

  lemma NothingHanded(rules: Rules, records: Records, strict: bool)
    ensures Handed(rules, records, strict, []) == []
  {
  }

  /** A batch that waited has ended as it was answered. */
  ghost predicate BatchEnded(rules: Rules, s: State, c: Command, keys: seq<Key>, i: nat, store: Outcome, after: State, n: nat)
    requires c.Flush? && i < |keys|
  {
    && keys[i] in s.records && keys[i] in after.records
    && FailedItems(rules, s.records, c.strict, keys, i, store, n)
    && Ended(rules, s.records[keys[i]], after.records[keys[i]], n)
  }

  lemma BatchesEnd(rules: Rules, s: State, c: Command, keys: seq<Key>, applied: seq<nat>)
    requires c.Flush? && Distinct(keys) && forall k :: k in keys ==> k in s.records
    requires var handed := Handed(rules, s.records, c.strict, keys);
      handed == Entries(rules, s.records, c.strict, keys) && Answers(handed, StoreAnswer(c, handed)) == Some(applied) && |applied| == |handed|
    ensures var store := StoreAnswer(c, Handed(rules, s.records, c.strict, keys));
      var failed := Failures(rules, s.records, c.strict, keys, applied);
      var after := FinishAll(rules, s.records, keys, failed);
      && after.Keys == s.records.Keys && (forall k :: k in s.records && k !in keys ==> after[k] == s.records[k])
      && forall i, end: State :: 0 <= i < |keys| && end.records == after ==> BatchEnded(rules, s, c, keys, i, store, end, failed[i])
  {
    hide Ended, Entries, Failures, FinishAll, Handed, Distinct;
    var handed := Handed(rules, s.records, c.strict, keys);
    var failed := Failures(rules, s.records, c.strict, keys, applied);
    FinishedAt(rules, s.records, keys, failed);
    forall i | 0 <= i < |keys| ensures FailedItems(rules, s.records, c.strict, keys, i, StoreAnswer(c, handed), failed[i]) {
      FailuresAt(rules, s.records, c.strict, keys, applied, i);
      if !Refused(rules, s.records, c.strict, keys[i]) {
        HandedAt(rules, s.records, c.strict, keys, i);
      }
    }
  }

  /** Where an entry stands among those handed over. */
  lemma {:induction false} HandedAt(rules: Rules, records: Records, strict: bool, keys: seq<Key>, i: nat)
    requires i < |keys| && keys[i] in records && !Refused(rules, records, strict, keys[i])
    ensures var j := |Handed(rules, records, strict, keys[..i])|;
      j < |Handed(rules, records, strict, keys)| && Handed(rules, records, strict, keys)[j] == Entry(keys[i], records[keys[i]].request)
    decreases |keys|
  {
    var n := |keys| - 1;
    if i < n {
      assert keys[..n][..i] == keys[..i] && keys[..n][i] == keys[i];
      HandedAt(rules, records, strict, keys[..n], i);
    }
  }

  /** A batch under a new identity is accepted exactly when the queue has room for it and the tenant takes writes; it then waits with
      its request, and nothing else has changed. */
  lemma AcceptOutcome(rules: Rules, s: State, c: Command)
    requires c.Accept? && Key(c.tenant, c.request.source, c.request.collector, c.request.batch, c.generation) !in s.records
    ensures var (after, reply) := Accepting(rules, s, c);
      var k := Key(c.tenant, c.request.source, c.request.collector, c.request.batch, c.generation);
      && (reply.Acknowledged? <==> (c.budget == 0 || Sum(Scan(rules, s.records), ObjectBytes) + c.bodyBytes <= c.budget) && c.writable)
      && (!reply.Acknowledged? ==> after == s)
      && (reply.Acknowledged? ==>
            && k in after.records && reply.record == after.records[k]
            && after.records[k].progress.Accepted? && after.records[k].request == c.request && after.records[k].tenant == c.tenant
            && after.records[k].generation == c.generation && after.records[k].index == c.index && after.records[k].digest == rules.digest(c.request)
            && (forall x :: x in after.records && x != k ==> x in s.records && after.records[x] == s.records[x])
            && (forall x :: x in s.records ==> x in after.records)
            && after.published == s.published && after.origin == s.origin[k := c.request])
  {
    hide Sum, Scan;
  }

  /** So an accepted batch that a store applies without a failed item is published as it was accepted, and its record says committed. */
  lemma AppliedIsPublished(rules: Rules, s: State, c: Command, i: nat)
    requires c.Flush? && WellBuilt(c) && Flushing(rules, s, c).1.Results?
    requires i < |Waiters(s.records, c.ids)| && !Refused(rules, s.records, c.strict, Waiters(s.records, c.ids)[i])
    requires StoreAnswer(c, Handed(rules, s.records, c.strict, Waiters(s.records, c.ids))).Applied?
    ensures var k := Waiters(s.records, c.ids)[i];
      var after := Flushing(rules, s, c).0;
      && k in s.records && k in after.records
      && Entry(k, s.records[k].request) in after.published
      && (after.records[k].progress.Committed? <==> i < |Flushing(rules, s, c).1.failed| && Flushing(rules, s, c).1.failed[i] == 0)
  {
    hide Flushing, Waiters, Handed;
    FlushOutcome(rules, s, c);
    WaitersWait(s.records, c.ids);
    HandedAre(rules, s.records, c.strict, Waiters(s.records, c.ids), Waiters(s.records, c.ids)[i]);
  }
}
