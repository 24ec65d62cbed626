/** The replicated ingest queue: batches are accepted into durable records and later published, each at
    most once (internal/ha/ingest.go, ingest_pending.go). */
module Ingests {
  import opened GraphModel
  import Sharding
  import ShardOwnership

  /** The identity of a batch; records are stored under it. */
  datatype Key = Key(tenant: string, source: string, collector: string, batch: string, generation: int)

  datatype Request = Request(source: string, collector: string, batch: string, items: seq<string>)

  datatype Progress = Accepted | Committed | Failed

  /** acceptedRequest. `failures` is the number of failed items once a result is known; records written
      by older versions have no digest. */
  datatype Record = Record(tenant: string, request: Request, digest: string, generation: int, index: nat, progress: Progress, failures: Option<nat>)

  /** The encodings: the digest and size of a request, the size of a stored record, and the check on
      identifiers. A digest is never empty. */
  datatype Rules = Rules(digest: Request -> string, size: Request -> nat, bytes: Record -> nat, valid: Request -> bool)

  type Records = map<Key, Record>

  /** A published batch. */
  datatype Entry = Entry(key: Key, request: Request)

  /** The durable state. `origin` remembers the request each identity was first accepted with. */
  datatype State = State(records: Records, published: seq<Entry>, origin: map<Key, Request>)

  // ---------- commands ----------

  /** What the tenant's store makes of a durable batch: a result per entry, a refusal because the tenant
      is deleted or disabled, or a failure of the store itself. */
  datatype Outcome = Applied(failed: seq<nat>) | Gone | Broken

  /** `epoch` is the route a flush was proposed under and `owner` the tenant's ownership record where it is
      applied, absent on a node that is no shard. */
  datatype Command =
    | Accept(index: nat, tenant: string, generation: int, request: Request, bodyBytes: nat, budget: nat, writable: bool)
    | Flush(tenant: string, ids: seq<Key>, epoch: nat, owner: Option<Sharding.Ownership>, strict: bool, store: seq<Entry> -> Outcome)

  datatype Reply = Conflict | QueueFull | NotWritable | Acknowledged(record: Record) | RouteChanged | Rejected | Results(failed: seq<nat>)

  function KeyOf(tenant: string, request: Request, generation: int): Key {
    Key(tenant, request.source, request.collector, request.batch, generation)
  }

  /** The digest a retry is compared with. */
  function Effective(rules: Rules, record: Record): string {
    if record.digest == "" then rules.digest(record.request) else record.digest
  }

  // ---------- the pending queue ----------

  /** pendingAcceptance. */
  datatype Info = Info(tenant: string, generation: int, index: nat, requestBytes: nat, objectBytes: nat)

  function InfoOf(rules: Rules, record: Record): Info {
    Info(record.tenant, record.generation, record.index, rules.size(record.request), rules.bytes(record))
  }

  /** The accepted records, by scan. */
  function Scan(rules: Rules, records: Records): map<Key, Info> {
    map k | k in records && records[k].progress.Accepted? :: InfoOf(rules, records[k])
  }

  function ObjectBytes(info: Info): nat {
    info.objectBytes
  }

  function RequestBytes(info: Info): nat {
    info.requestBytes
  }

  /** The sum of a weight over a queue. */
  ghost function Sum(queue: map<Key, Info>, weight: Info -> nat): nat
    decreases |queue|
  {
    if queue == map[] then 0
    else
      var k :| k in queue;
      Sum(queue - {k}, weight) + weight(queue[k])
  }

  lemma {:induction false} SumWithout(queue: map<Key, Info>, weight: Info -> nat, key: Key)
    requires key in queue
    ensures Sum(queue, weight) == Sum(queue - {key}, weight) + weight(queue[key])
    decreases |queue|
  {
    var k :| k in queue && Sum(queue, weight) == Sum(queue - {k}, weight) + weight(queue[k]);
    if k != key {
      SumWithout(queue - {k}, weight, key);
      SumWithout(queue - {key}, weight, k);
      assert queue - {k} - {key} == queue - {key} - {k};
    }
  }

  lemma SumWith(queue: map<Key, Info>, weight: Info -> nat, key: Key, info: Info)
    requires key !in queue
    ensures Sum(queue[key := info], weight) == Sum(queue, weight) + weight(info)
  {
    SumWithout(queue[key := info], weight, key);
    assert queue[key := info] - {key} == queue;
  }

  // ---------- what a command does ----------

  ghost function Accepting(rules: Rules, s: State, c: Command): (State, Reply)
    requires c.Accept?
  {
    var k := KeyOf(c.tenant, c.request, c.generation);
    if k in s.records then
      if Effective(rules, s.records[k]) != rules.digest(c.request) then (s, Conflict) else (s, Acknowledged(s.records[k]))
    else if c.budget > 0 && Sum(Scan(rules, s.records), ObjectBytes) + c.bodyBytes > c.budget then (s, QueueFull)
    else if !c.writable then (s, NotWritable)
    else
      var record := Record(c.tenant, c.request, rules.digest(c.request), c.generation, c.index, Accepted, None);
      (s.(records := s.records[k := record], origin := s.origin[k := c.request]), Acknowledged(record))
  }

  /** The accepted ones of the records a flush names, in its order; nothing when a record is missing or
      another tenant's. */
  function Gathered(records: Records, tenant: string, ids: seq<Key>): (keys: Option<seq<Key>>)
    ensures keys.Some? ==> forall k :: k in keys.value <==> k in ids && k in records && records[k].progress.Accepted?
    ensures keys.Some? ==> forall k :: k in keys.value ==> records[k].tenant == tenant
    decreases |ids|
  {
    if ids == [] then Some([])
    else
      var k := ids[|ids| - 1];
      var before :- Gathered(records, tenant, ids[..|ids| - 1]);
      if k !in records || records[k].tenant != tenant then None
      else Some(if records[k].progress.Accepted? then before + [k] else before)
  }

  /** The batches a flush hands to the store. */
  function Entries(rules: Rules, records: Records, strict: bool, keys: seq<Key>): seq<Entry>
    requires forall k :: k in keys ==> k in records
    decreases |keys|
  {
    if keys == [] then []
    else
      var k := keys[|keys| - 1];
      assert forall x :: x in keys[..|keys| - 1] ==> x in keys;
      var before := Entries(rules, records, strict, keys[..|keys| - 1]);
      if strict && !rules.valid(records[k].request) then before else before + [Entry(k, records[k].request)]
  }

  /** Failed items per key: those of the store's results, or all of a batch that was not handed over. */
  function Failures(rules: Rules, records: Records, strict: bool, keys: seq<Key>, applied: seq<nat>): seq<nat>
    requires forall k :: k in keys ==> k in records
    requires |applied| == |Entries(rules, records, strict, keys)|
    ensures |Failures(rules, records, strict, keys, applied)| == |keys|
    decreases |keys|
  {
    if keys == [] then []
    else
      var k, rest := keys[|keys| - 1], keys[..|keys| - 1];
      assert forall x :: x in rest ==> x in keys;
      if strict && !rules.valid(records[k].request) then
        Failures(rules, records, strict, rest, applied) + [if |records[k].request.items| == 0 then 1 else |records[k].request.items|]
      else
        Failures(rules, records, strict, rest, applied[..|applied| - 1]) + [applied[|applied| - 1]]
  }

  function Trimmed(r: Request): Request {
    r.(items := [])
  }

  function Finished(rules: Rules, record: Record, failed: nat): Record {
    record.(
      progress := if failed > 0 then Failed else Committed,
      failures := Some(failed),
      digest := Effective(rules, record),
      request := Trimmed(record.request))
  }

  function FinishAll(rules: Rules, before: Records, keys: seq<Key>, failed: seq<nat>): Records
    requires |keys| == |failed| && forall k :: k in keys ==> k in before
    decreases |keys|
  {
    if keys == [] then before
    else
      var n := |keys| - 1;
      assert forall x :: x in keys[..n] ==> x in keys;
      FinishAll(rules, before, keys[..n], failed[..n])[keys[n] := Finished(rules, before[keys[n]], failed[n])]
  }

  /** The results of the entries, unless the store failed. */
  function Answers(entries: seq<Entry>, outcome: Outcome): Option<seq<nat>> {
    match outcome
    case Applied(failed) => if |failed| == |entries| then Some(failed) else None
    case Gone => Some(seq(|entries|, i requires 0 <= i < |entries| => |entries[i].request.items|))
    case Broken => None
  }

  /** The first test of flush. */
  predicate Routed(owner: Option<Sharding.Ownership>, epoch: nat) {
    owner.Some? ==> owner.value.state.Active? && (epoch > 0 ==> owner.value.epoch == epoch)
  }

  function Flushing(rules: Rules, s: State, c: Command): (State, Reply)
    requires c.Flush?
  {
    var gathered := Gathered(s.records, c.tenant, c.ids);
    if !Routed(c.owner, c.epoch) then (s, RouteChanged)
    else if gathered.None? then (s, Rejected)
    else if gathered.value == [] then (s, Results([]))
    else
      var keys := gathered.value;
      var entries := Entries(rules, s.records, c.strict, keys);
      var outcome := if entries == [] then Applied([]) else c.store(entries);
      var answers := Answers(entries, outcome);
      if answers.None? then (s, Rejected)
      else
        var failed := Failures(rules, s.records, c.strict, keys, answers.value);
        (s.(records := FinishAll(rules, s.records, keys, failed), published := if outcome.Applied? then s.published + entries else s.published), Results(failed))
  }

  ghost function Step(rules: Rules, s: State, c: Command): State {
    if c.Accept? then Accepting(rules, s, c).0 else Flushing(rules, s, c).0
  }

  ghost function Run(rules: Rules, s: State, log: seq<Command>): State
    decreases |log|
  {
    if log == [] then s else Step(rules, Run(rules, s, log[..|log| - 1]), log[|log| - 1])
  }

  // ---------- what every run keeps ----------

  predicate Distinct(ids: seq<Key>) {
    forall i, j :: 0 <= i < j < |ids| ==> ids[i] != ids[j]
  }

  /** Built as flushPendingBatch builds a flush: no identity twice. */
  predicate WellBuilt(c: Command) {
    c.Flush? ==> Distinct(c.ids)
  }

  /** A record remembers the request it began with, by its digest and, while accepted, in full. */
  ghost predicate Remembers(rules: Rules, s: State, k: Key)
    requires k in s.records
  {
    && k in s.origin
    && Effective(rules, s.records[k]) == rules.digest(s.origin[k])
    && (s.records[k].progress.Accepted? ==> s.records[k].request == s.origin[k])
  }

  ghost predicate OncePerKey(entries: seq<Entry>) {
    forall i, j :: 0 <= i < j < |entries| ==> entries[i].key != entries[j].key
  }

  ghost predicate PublishedOnce(s: State) {
    OncePerKey(s.published)
  }

  /** A published batch is finished, and is what was accepted. */
  ghost predicate PublishedIsFinished(s: State, e: Entry) {
    && e.key in s.records && e.key in s.origin
    && !s.records[e.key].progress.Accepted?
    && e.request == s.origin[e.key]
  }

  ghost predicate Sound(rules: Rules, s: State) {
    && (forall k :: k in s.records ==> Remembers(rules, s, k))
    && PublishedOnce(s)
    && (forall e :: e in s.published ==> PublishedIsFinished(s, e))
  }

  lemma {:induction false} GatheredDistinct(records: Records, tenant: string, ids: seq<Key>)
    requires Distinct(ids) && Gathered(records, tenant, ids).Some?
    ensures Distinct(Gathered(records, tenant, ids).value)
    decreases |ids|
  {
    if ids != [] {
      GatheredDistinct(records, tenant, ids[..|ids| - 1]);
      var k := ids[|ids| - 1];
      assert k !in ids[..|ids| - 1];
    }
  }

  lemma {:induction false} EntriesAre(rules: Rules, records: Records, strict: bool, keys: seq<Key>)
    requires Distinct(keys) && forall k :: k in keys ==> k in records
    ensures var entries := Entries(rules, records, strict, keys);
      && (forall e :: e in entries ==> e.key in keys && e.request == records[e.key].request)
      && OncePerKey(entries)
    decreases |keys|
  {
    if keys != [] {
      var n := |keys| - 1;
      assert forall x :: x in keys[..n] ==> x in keys;
      EntriesAre(rules, records, strict, keys[..n]);
      assert keys[n] !in keys[..n];
      var before := Entries(rules, records, strict, keys[..n]);
      forall i | 0 <= i < |before| ensures before[i].key != keys[n] {
        assert before[i] in before;
      }
    }
  }

  /** Only the named records have changed, and those have finished. */
  ghost predicate OnlyFinished(rules: Rules, before: Records, after: Records, keys: seq<Key>) {
    && after.Keys == before.Keys
    && (forall k :: k in before && k !in keys ==> after[k] == before[k])
    && (forall k :: k in keys ==> k in before && HasFinished(rules, before[k], after[k]))
  }

  lemma OneMoreFinished(rules: Rules, before: Records, after: Records, keys: seq<Key>, k: Key, failed: nat)
    requires OnlyFinished(rules, before, after, keys) && k in before
    ensures OnlyFinished(rules, before, after[k := Finished(rules, before[k], failed)], keys + [k])
  {
    assert HasFinished(rules, before[k], Finished(rules, before[k], failed));
    hide HasFinished, Finished;
  }

  lemma {:induction false} FinishedAre(rules: Rules, before: Records, keys: seq<Key>, failed: seq<nat>)
    requires |keys| == |failed| && forall k :: k in keys ==> k in before
    ensures OnlyFinished(rules, before, FinishAll(rules, before, keys, failed), keys)
    decreases |keys|
  {
    if keys != [] {
      var n := |keys| - 1;
      assert keys == keys[..n] + [keys[n]] && failed == failed[..n] + [failed[n]];
      assert keys[n] in keys && forall x :: x in keys[..n] ==> x in keys;
      hide OnlyFinished, Finished, FinishAll;
      FinishedAre(rules, before, keys[..n], failed[..n]);
      FinishOneMore(rules, before, keys[..n], failed[..n], keys[n], failed[n]);
      OneMoreFinished(rules, before, FinishAll(rules, before, keys[..n], failed[..n]), keys[..n], keys[n], failed[n]);
    }
  }

  lemma FinishOneMore(rules: Rules, before: Records, keys: seq<Key>, failed: seq<nat>, k: Key, f: nat)
    requires |keys| == |failed| && (forall x :: x in keys ==> x in before) && k in before
    ensures FinishAll(rules, before, keys + [k], failed + [f]) == FinishAll(rules, before, keys, failed)[k := Finished(rules, before[k], f)]
  {
    assert (keys + [k])[..|keys|] == keys && (failed + [f])[..|failed|] == failed;
  }

  ghost predicate HasFinished(rules: Rules, before: Record, after: Record) {
    !after.progress.Accepted? && exists n: nat :: after == Finished(rules, before, n)
  }

  lemma FinishedRemembers(rules: Rules, record: Record, failed: nat)
    requires forall r :: rules.digest(r) != ""
    ensures Effective(rules, Finished(rules, record, failed)) == Effective(rules, record)
  {
  }

  lemma AcceptKeepsSound(rules: Rules, s: State, c: Command)
    requires c.Accept? && Sound(rules, s) && forall r :: rules.digest(r) != ""
    ensures Sound(rules, Accepting(rules, s, c).0)
  {
    var after := Accepting(rules, s, c).0;
    forall k | k in after.records ensures Remembers(rules, after, k) {
      assert k in s.records ==> Remembers(rules, s, k);
    }
    forall e | e in after.published ensures PublishedIsFinished(after, e) {
      assert PublishedIsFinished(s, e);
    }
  }

  /** What a flush that ended well did; any other did nothing. */
  lemma FlushIs(rules: Rules, s: State, c: Command)
    requires c.Flush? && Flushing(rules, s, c).1.Results?
    ensures Gathered(s.records, c.tenant, c.ids).Some?
    ensures var keys := Gathered(s.records, c.tenant, c.ids).value;
      var after := Flushing(rules, s, c).0;
      && OnlyFinished(rules, s.records, after.records, keys)
      && after.origin == s.origin
      && (after.published == s.published || after.published == s.published + Entries(rules, s.records, c.strict, keys))
  {
    hide OnlyFinished;
    var keys := Gathered(s.records, c.tenant, c.ids).value;
    if keys == [] {
      FinishedAre(rules, s.records, [], []);
    } else {
      var entries := Entries(rules, s.records, c.strict, keys);
      var answers := Answers(entries, if entries == [] then Applied([]) else c.store(entries));
      FinishedAre(rules, s.records, keys, Failures(rules, s.records, c.strict, keys, answers.value));
    }
  }

  lemma FlushNothing(rules: Rules, s: State, c: Command)
    requires c.Flush?
    ensures !Flushing(rules, s, c).1.Results? ==> Flushing(rules, s, c).0 == s
  {
  }

  lemma FlushKeepsSound(rules: Rules, s: State, c: Command)
    requires c.Flush? && WellBuilt(c) && Sound(rules, s) && forall r :: rules.digest(r) != ""
    ensures Sound(rules, Flushing(rules, s, c).0)
  {
    FlushNothing(rules, s, c);
    hide Flushing, Gathered, Entries, FinishAll, Sound, OnlyFinished, OncePerKey, Distinct;
    if Flushing(rules, s, c).1.Results? {
      var after := Flushing(rules, s, c).0;
      FlushIs(rules, s, c);
      GatheredDistinct(s.records, c.tenant, c.ids);
      var keys := Gathered(s.records, c.tenant, c.ids).value;
      EntriesAre(rules, s.records, c.strict, keys);
      FinishKeepsSound(rules, s, after, keys, Entries(rules, s.records, c.strict, keys));
    }
  }

  lemma FinishKeepsSound(rules: Rules, s: State, after: State, keys: seq<Key>, entries: seq<Entry>)
    requires Sound(rules, s) && forall r :: rules.digest(r) != ""
    requires OnlyFinished(rules, s.records, after.records, keys) && after.origin == s.origin
    requires after.published == s.published || after.published == s.published + entries
    requires forall k :: k in keys ==> k in s.records && s.records[k].progress.Accepted?
    requires forall e :: e in entries ==> e.key in keys && e.request == s.records[e.key].request
    requires OncePerKey(entries)
    ensures Sound(rules, after)
  {
    forall k | k in after.records ensures Remembers(rules, after, k) {
      assert Remembers(rules, s, k);
      if k in keys {
        var n: nat :| after.records[k] == Finished(rules, s.records[k], n);
        FinishedRemembers(rules, s.records[k], n);
      }
    }
    hide Effective, Finished;
    forall e | e in after.published ensures PublishedIsFinished(after, e) {
      if e in s.published {
        assert PublishedIsFinished(s, e);
      } else {
        assert e in entries && Remembers(rules, s, e.key);
      }
    }
    PublishedGrows(s, after, entries, keys);
  }

  lemma PublishedGrows(s: State, after: State, entries: seq<Entry>, keys: seq<Key>)
    requires PublishedOnce(s) && (after.published == s.published || after.published == s.published + entries)
    requires forall e :: e in s.published ==> PublishedIsFinished(s, e)
    requires forall e :: e in entries ==> e.key in s.records && s.records[e.key].progress.Accepted?
    requires OncePerKey(entries)
    ensures PublishedOnce(after)
  {
    forall i, j | 0 <= i < j < |after.published| ensures after.published[i].key != after.published[j].key {
      if i < |s.published| <= j {
        assert s.published[i] in s.published && entries[j - |s.published|] in entries;
      }
    }
  }

  /** No run publishes a batch identity twice, and what it publishes is what was first accepted. */
  lemma {:induction false} EveryRunPublishesOnce(rules: Rules, s: State, log: seq<Command>)
    requires Sound(rules, s) && (forall r :: rules.digest(r) != "") && forall c :: c in log ==> WellBuilt(c)
    ensures Sound(rules, Run(rules, s, log))
    decreases |log|
  {
    if log != [] {
      EveryRunPublishesOnce(rules, s, log[..|log| - 1]);
      var before, c := Run(rules, s, log[..|log| - 1]), log[|log| - 1];
      assert c in log;
      if c.Accept? {
        AcceptKeepsSound(rules, before, c);
      } else {
        FlushKeepsSound(rules, before, c);
      }
    }
  }

  /** A finished record is never changed again, whatever the flushes name. */
  lemma {:induction false} FinishedStays(rules: Rules, s: State, log: seq<Command>, k: Key)
    requires k in s.records && !s.records[k].progress.Accepted?
    ensures k in Run(rules, s, log).records && Run(rules, s, log).records[k] == s.records[k]
    decreases |log|
  {
    if log != [] {
      FinishedStays(rules, s, log[..|log| - 1], k);
      var before, c := Run(rules, s, log[..|log| - 1]), log[|log| - 1];
      if c.Flush? && Flushing(rules, before, c).1.Results? {
        FlushIs(rules, before, c);
        var keys := Gathered(before.records, c.tenant, c.ids).value;
      }
    }
  }

  /** A used identity is a retry or a conflict exactly as the request equals the first one, before and
      after the request was trimmed from the record. */
  lemma RetryOrConflict(rules: Rules, s: State, c: Command)
    requires Sound(rules, s) && c.Accept? && forall a, b :: rules.digest(a) == rules.digest(b) ==> a == b
    requires KeyOf(c.tenant, c.request, c.generation) in s.records
    ensures var k := KeyOf(c.tenant, c.request, c.generation);
      Accepting(rules, s, c) == (s, if c.request == s.origin[k] then Acknowledged(s.records[k]) else Conflict)
  {
    assert Remembers(rules, s, KeyOf(c.tenant, c.request, c.generation));
  }

  lemma GatheredOne(records: Records, tenant: string, ids: seq<Key>, k: Key)
    requires Gathered(records, tenant, ids).Some? && k in records && records[k].tenant == tenant && records[k].progress.Accepted?
    ensures Gathered(records, tenant, ids + [k]) == Some(Gathered(records, tenant, ids).value + [k])
  {
    assert (ids + [k])[..|ids|] == ids;
  }

  /** Why a flush must not name an identity twice: the batch would be handed to the store twice. That the
      store also publishes it twice is the assumption on `store`; a replay check of the store itself is
      outside this model. */
  lemma RepeatedIdentity(rules: Rules, s: State, k: Key, store: seq<Entry> -> Outcome)
    requires k in s.records && s.records[k].progress.Accepted? && s.records[k].tenant == k.tenant
    requires var e := Entry(k, s.records[k].request); store([e, e]) == Applied([0, 0])
    ensures var e := Entry(k, s.records[k].request);
      Flushing(rules, s, Flush(k.tenant, [k, k], 0, None, false, store)).0.published == s.published + [e, e]
  {
    assert [k, k][..1] == [k] && [k][..0] == [];
    GatheredOne(s.records, k.tenant, [], k);
    GatheredOne(s.records, k.tenant, [k], k);
    assert [] + [k] == [k] && [k] + [k] == [k, k];
    EntriesOne(rules, s.records, [], k);
    EntriesOne(rules, s.records, [k], k);
    var e := Entry(k, s.records[k].request);
    assert Entries(rules, s.records, false, [k, k]) == [e, e];
  }

  lemma EntriesOne(rules: Rules, records: Records, keys: seq<Key>, k: Key)
    requires (forall x :: x in keys ==> x in records) && k in records
    ensures Entries(rules, records, false, keys + [k]) == Entries(rules, records, false, keys) + [Entry(k, records[k].request)]
  {
    assert (keys + [k])[..|keys|] == keys;
  }

  // ---------- results of a flush ----------

  /** The positions of the batches handed to the store. */
  function Slots(rules: Rules, records: Records, strict: bool, keys: seq<Key>): (slots: seq<nat>)
    requires forall k :: k in keys ==> k in records
    ensures |slots| == |Entries(rules, records, strict, keys)|
    ensures forall i :: 0 <= i < |slots| ==> slots[i] < |keys|
    ensures forall i, j :: 0 <= i < j < |slots| ==> slots[i] != slots[j]
    decreases |keys|
  {
    if keys == [] then []
    else
      var n := |keys| - 1;
      assert forall x :: x in keys[..n] ==> x in keys;
      var before := Slots(rules, records, strict, keys[..n]);
      if strict && !rules.valid(records[keys[n]].request) then before else before + [n]
  }

  /** What a batch that is not handed over counts as failed. */
  function Default(rules: Rules, strict: bool, request: Request): nat {
    if Refused(rules, strict, request) then (if |request.items| == 0 then 1 else |request.items|) else 0
  }

  predicate Refused(rules: Rules, strict: bool, request: Request) {
    strict && !rules.valid(request)
  }

  lemma OneMoreEntry(rules: Rules, records: Records, strict: bool, keys: seq<Key>, k: Key)
    requires (forall x :: x in keys ==> x in records) && k in records
    ensures var refused := Refused(rules, strict, records[k].request);
      && Entries(rules, records, strict, keys + [k]) == (if refused then Entries(rules, records, strict, keys) else Entries(rules, records, strict, keys) + [Entry(k, records[k].request)])
      && Slots(rules, records, strict, keys + [k]) == (if refused then Slots(rules, records, strict, keys) else Slots(rules, records, strict, keys) + [|keys|])
  {
    assert (keys + [k])[..|keys|] == keys;
  }

  lemma OneMoreFailure(rules: Rules, records: Records, strict: bool, keys: seq<Key>, k: Key, applied: seq<nat>)
    requires (forall x :: x in keys ==> x in records) && k in records
    requires |applied| == |Entries(rules, records, strict, keys + [k])|
    ensures if Refused(rules, strict, records[k].request) then
        |applied| == |Entries(rules, records, strict, keys)| &&
        Failures(rules, records, strict, keys + [k], applied) == Failures(rules, records, strict, keys, applied) + [Default(rules, strict, records[k].request)]
      else
        |applied| == |Entries(rules, records, strict, keys)| + 1 &&
        Failures(rules, records, strict, keys + [k], applied) == Failures(rules, records, strict, keys, applied[..|applied| - 1]) + [applied[|applied| - 1]]
  {
    OneMoreEntry(rules, records, strict, keys, k);
    assert (keys + [k])[..|keys|] == keys;
  }

  /** The store's results at their slots, the defaults elsewhere. */
  ghost predicate Placed(rules: Rules, records: Records, strict: bool, keys: seq<Key>, slots: seq<nat>, applied: seq<nat>, results: seq<nat>) {
    && |slots| == |applied| && |results| == |keys|
    && (forall i :: 0 <= i < |slots| ==> slots[i] < |results| && results[slots[i]] == applied[i])
    && (forall j :: 0 <= j < |keys| && j !in slots ==> keys[j] in records && results[j] == Default(rules, strict, records[keys[j]].request))
  }

  lemma PlacedRefused(rules: Rules, records: Records, strict: bool, rest: seq<Key>, k: Key, slots: seq<nat>, applied: seq<nat>, results: seq<nat>)
    requires Placed(rules, records, strict, rest + [k], slots, applied, results) && forall i :: 0 <= i < |slots| ==> slots[i] < |rest|
    ensures Placed(rules, records, strict, rest, slots, applied, results[..|rest|])
    ensures k in records && results[|rest|] == Default(rules, strict, records[k].request)
  {
    hide Default;
    assert |rest| !in slots;
    assert (rest + [k])[|rest|] == k;
    assert forall j :: 0 <= j < |rest| ==> (rest + [k])[j] == rest[j];
  }

  lemma PlacedTaken(rules: Rules, records: Records, strict: bool, rest: seq<Key>, k: Key, slots: seq<nat>, applied: seq<nat>, results: seq<nat>)
    requires Placed(rules, records, strict, rest + [k], slots + [|rest|], applied, results) && forall i :: 0 <= i < |slots| ==> slots[i] < |rest|
    ensures Placed(rules, records, strict, rest, slots, applied[..|slots|], results[..|rest|])
    ensures results[|rest|] == applied[|slots|]
  {
    hide Default;
    var longer := slots + [|rest|];
    assert forall i :: 0 <= i < |slots| ==> longer[i] == slots[i];
    assert longer[|slots|] == |rest|;
    assert forall j :: 0 <= j < |rest| ==> (rest + [k])[j] == rest[j];
    assert forall j :: 0 <= j < |rest| && j !in slots ==> j !in longer;
  }

  /** Without the last key. */
  lemma PlacedPeel(rules: Rules, records: Records, strict: bool, rest: seq<Key>, k: Key, applied: seq<nat>, results: seq<nat>)
    requires (forall x :: x in rest ==> x in records) && k in records
    requires Placed(rules, records, strict, rest + [k], Slots(rules, records, strict, rest + [k]), applied, results)
    ensures |results| == |rest| + 1 && |applied| == |Entries(rules, records, strict, rest + [k])|
    ensures var refused := Refused(rules, strict, records[k].request);
      && (!refused ==> applied != [])
      && Placed(rules, records, strict, rest, Slots(rules, records, strict, rest), if refused then applied else applied[..|applied| - 1], results[..|rest|])
      && results[|rest|] == if refused then Default(rules, strict, records[k].request) else applied[|applied| - 1]
  {
    OneMoreEntry(rules, records, strict, rest, k);
    var slots := Slots(rules, records, strict, rest);
    PlacedLength(rules, records, strict, rest + [k], Slots(rules, records, strict, rest + [k]), applied, results);
    hide Entries, Slots, Default, Placed;
    if Refused(rules, strict, records[k].request) {
      PlacedRefused(rules, records, strict, rest, k, slots, applied, results);
    } else {
      PlacedTaken(rules, records, strict, rest, k, slots, applied, results);
    }
  }

  /** That is what Failures says. */
  lemma {:induction false} FailuresAre(rules: Rules, records: Records, strict: bool, keys: seq<Key>, applied: seq<nat>, results: seq<nat>)
    requires forall k :: k in keys ==> k in records
    requires Placed(rules, records, strict, keys, Slots(rules, records, strict, keys), applied, results)
    ensures |applied| == |Entries(rules, records, strict, keys)| && results == Failures(rules, records, strict, keys, applied)
    decreases |keys|, 0
  {
    hide Entries, Slots, Failures, Default, Placed, Refused;
    if keys == [] {
      PlacedLength(rules, records, strict, keys, Slots(rules, records, strict, keys), applied, results);
      NoFailures(rules, records, strict, applied);
    } else {
      var n := |keys| - 1;
      assert keys == keys[..n] + [keys[n]] && keys[n] in keys;
      assert forall x :: x in keys[..n] ==> x in keys;
      LastFailure(rules, records, strict, keys[..n], keys[n], applied, results);
    }
  }

  lemma PlacedLength(rules: Rules, records: Records, strict: bool, keys: seq<Key>, slots: seq<nat>, applied: seq<nat>, results: seq<nat>)
    requires Placed(rules, records, strict, keys, slots, applied, results)
    ensures |results| == |keys| && |applied| == |slots|
  {
  }

  lemma {:induction false} LastFailure(rules: Rules, records: Records, strict: bool, rest: seq<Key>, k: Key, applied: seq<nat>, results: seq<nat>)
    requires (forall x :: x in rest ==> x in records) && k in records
    requires Placed(rules, records, strict, rest + [k], Slots(rules, records, strict, rest + [k]), applied, results)
    ensures |applied| == |Entries(rules, records, strict, rest + [k])| && results == Failures(rules, records, strict, rest + [k], applied)
    decreases |rest|, 1
  {
    hide Entries, Slots, Failures, Default, Placed, Refused;
    PlacedPeel(rules, records, strict, rest, k, applied, results);
    OneMoreFailure(rules, records, strict, rest, k, applied);
    var before := results[..|rest|];
    assert results == before + [results[|rest|]];
    if Refused(rules, strict, records[k].request) {
      FailuresAre(rules, records, strict, rest, applied, before);
    } else {
      FailuresAre(rules, records, strict, rest, applied[..|applied| - 1], before);
    }
  }

  lemma NoFailures(rules: Rules, records: Records, strict: bool, applied: seq<nat>)
    ensures Entries(rules, records, strict, []) == [] && (applied == [] ==> Failures(rules, records, strict, [], applied) == [])
    ensures Slots(rules, records, strict, []) == []
  {
  }

  /** What the first loop of flush has collected. */
  datatype Batch = Batch(keys: seq<Key>, entries: seq<Entry>, slots: seq<nat>, results: seq<nat>)

  function Added(rules: Rules, strict: bool, b: Batch, key: Key, request: Request): (longer: Batch)
    ensures longer.keys == b.keys + [key]
  {
    var taken := !Refused(rules, strict, request);
    Batch(
      b.keys + [key],
      if taken then b.entries + [Entry(key, request)] else b.entries,
      if taken then b.slots + [|b.keys|] else b.slots,
      b.results + [Default(rules, strict, request)])
  }

  ghost predicate Reflects(rules: Rules, records: Records, strict: bool, b: Batch) {
    && (forall k :: k in b.keys ==> k in records)
    && b.entries == Entries(rules, records, strict, b.keys)
    && b.slots == Slots(rules, records, strict, b.keys)
    && |b.results| == |b.keys|
    && forall j :: 0 <= j < |b.keys| ==> b.results[j] == Default(rules, strict, records[b.keys[j]].request)
  }

  lemma ReflectsNext(rules: Rules, records: Records, strict: bool, b: Batch, key: Key)
    requires Reflects(rules, records, strict, b) && key in records
    ensures Reflects(rules, records, strict, Added(rules, strict, b, key, records[key].request))
  {
    OneMoreEntry(rules, records, strict, b.keys, key);
    hide Entries, Slots, Default;
    var next := Added(rules, strict, b, key, records[key].request);
    forall j | 0 <= j < |next.keys| ensures next.results[j] == Default(rules, strict, records[next.keys[j]].request) {
      assert j < |b.keys| ==> next.results[j] == b.results[j] && next.keys[j] == b.keys[j];
    }
  }

  lemma SlotsWithin(rules: Rules, records: Records, strict: bool, b: Batch)
    requires Reflects(rules, records, strict, b)
    ensures (forall k :: k in b.keys ==> k in records) && |b.slots| == |b.entries| && |b.results| == |b.keys|
    ensures b.entries == Entries(rules, records, strict, b.keys) && b.slots == Slots(rules, records, strict, b.keys)
    ensures forall i :: 0 <= i < |b.slots| ==> b.slots[i] < |b.results|
    ensures forall i, j :: 0 <= i < j < |b.slots| ==> b.slots[i] != b.slots[j]
  {
  }

  lemma FilledIsPlaced(rules: Rules, records: Records, strict: bool, b: Batch, applied: seq<nat>, results: seq<nat>)
    requires Reflects(rules, records, strict, b) && |b.slots| == |applied| && |results| == |b.results|
    requires forall i :: 0 <= i < |b.slots| ==> b.slots[i] < |results| && results[b.slots[i]] == applied[i]
    requires forall j :: 0 <= j < |results| && j !in b.slots ==> results[j] == b.results[j]
    ensures Placed(rules, records, strict, b.keys, b.slots, applied, results)
  {
    hide Default, Entries, Slots;
  }

  // ---------- the queue ----------

  class IngestQueue {
    const rules: Rules
    var records: Records
    var published: seq<Entry>
    // The cached pending index and its bytes; absent until it is needed.
    var pending: Option<map<Key, Info>>
    var pendingBytes: int
    ghost var origin: map<Key, Request>

    constructor (rules: Rules)
      ensures Valid() && this.rules == rules && Content() == State(map[], [], map[])
    {
      this.rules := rules;
      records, published, pending, pendingBytes, origin := map[], [], None, 0, map[];
    }

    ghost function Content(): State
      reads this
    {
      State(records, published, origin)
    }

    /** Whenever the cached index is there, it is the scan of the records. */
    ghost predicate Valid()
      reads this`records, this`pending, this`pendingBytes
    {
      pending.Some? ==> pending.value == Scan(rules, records) && pendingBytes == Sum(pending.value, ObjectBytes)
    }

    /** saveAccepted. */
    method Save(key: Key, record: Record)
      requires Valid()
      modifies this`records, this`pending, this`pendingBytes
      ensures Valid() && records == old(records)[key := record] && pending.Some? == old(pending).Some?
    {
      if pending.Some? {
        var rest := pending.value - {key};
        if key in pending.value {
          SumWithout(pending.value, ObjectBytes, key);
          pendingBytes := pendingBytes - pending.value[key].objectBytes;
        } else {
          assert rest == pending.value;
        }
        if record.progress.Accepted? {
          var info := InfoOf(rules, record);
          SumWith(rest, ObjectBytes, key, info);
          pendingBytes := pendingBytes + info.objectBytes;
          rest := rest[key := info];
        }
        pending := Some(rest);
        assert rest == Scan(rules, records[key := record]);
      }
      records := records[key := record];
    }

    /** ensurePending: scan the durable records. */
    method EnsurePending()
      requires Valid()
      modifies this`pending, this`pendingBytes
      ensures Valid() && pending.Some?
    {
      if pending.Some? {
        return;
      }
      var found: map<Key, Info>, size := map[], 0;
      var todo := records.Keys;
      while todo != {}
        invariant todo <= records.Keys && size == Sum(found, ObjectBytes)
        invariant found == map k | k in records && k !in todo && records[k].progress.Accepted? :: InfoOf(rules, records[k])
        decreases todo
      {
        var key :| key in todo;
        todo := todo - {key};
        if records[key].progress.Accepted? {
          var info := InfoOf(rules, records[key]);
          SumWith(found, ObjectBytes, key, info);
          found, size := found[key := info], size + info.objectBytes;
        }
      }
      assert found == Scan(rules, records);
      pending, pendingBytes := Some(found), size;
    }

    /** After a snapshot or a failed batch the index is built anew when next needed. */
    method Forget()
      modifies this`pending
      ensures Valid() && pending.None?
    {
      pending := None;
    }

    /** accept. */
    method AcceptBatch(c: Command) returns (reply: Reply)
      requires Valid() && c.Accept?
      modifies this
      ensures Valid() && (Content(), reply) == Accepting(rules, old(Content()), c)
    {
      var key := KeyOf(c.tenant, c.request, c.generation);
      if key in records {
        if Effective(rules, records[key]) != rules.digest(c.request) {
          return Conflict;
        }
        return Acknowledged(records[key]);
      }
      if c.budget > 0 {
        EnsurePending();
        if pendingBytes + c.bodyBytes > c.budget {
          return QueueFull;
        }
      }
      if !c.writable {
        return NotWritable;
      }
      var record := Record(c.tenant, c.request, rules.digest(c.request), c.generation, c.index, Accepted, None);
      Save(key, record);
      origin := origin[key := c.request];
      reply := Acknowledged(record);
    }

    /** The first loop of flush: the accepted records it names, the batches to hand over and where their
        results go. */
    method Gather(c: Command) returns (batch: Option<Batch>)
      requires c.Flush?
      ensures batch.Some? <==> Gathered(records, c.tenant, c.ids).Some?
      ensures batch.Some? ==> Gathered(records, c.tenant, c.ids) == Some(batch.value.keys) && Reflects(rules, records, c.strict, batch.value)
    {
      var now := Batch([], [], [], []);
      NoFailures(rules, records, c.strict, []);
      GatheredNone(records, c.tenant, c.ids);
      hide Reflects, Gathered, Added;
      for i := 0 to |c.ids|
        invariant Gathered(records, c.tenant, c.ids[..i]) == Some(now.keys) && Reflects(rules, records, c.strict, now)
      {
        var key := c.ids[i];
        GatheredNext(records, c.tenant, c.ids, i);
        if key !in records || records[key].tenant != c.tenant {
          return None;
        }
        if records[key].progress.Accepted? {
          ReflectsNext(rules, records, c.strict, now, key);
          now := Added(rules, c.strict, now, key, records[key].request);
        }
      }
      batch := Some(now);
    }

    /** flush. */
    method FlushBatch(c: Command) returns (reply: Reply)
      requires Valid() && c.Flush?
      modifies this`records, this`published, this`pending, this`pendingBytes
      ensures Valid() && (Content(), reply) == Flushing(rules, old(Content()), c)
      ensures pending.Some? == old(pending).Some?
    {
      hide Entries, Slots, Failures, Default, Gathered, FinishAll, Reflects, Placed, Scan;
      if !Routed(c.owner, c.epoch) {
        return RouteChanged;
      }
      var batch := Gather(c);
      if batch.None? {
        return Rejected;
      }
      var Batch(keys, entries, slots, results) := batch.value;
      if keys == [] {
        return Results([]);
      }
      SlotsWithin(rules, records, c.strict, batch.value);
      var outcome := if entries == [] then Applied([]) else c.store(entries);
      var answers := Answers(entries, outcome);
      if answers.None? {
        return Rejected;
      }
      var failed := Fill(results, slots, answers.value);
      FilledIsPlaced(rules, records, c.strict, batch.value, answers.value, failed);
      FailuresAre(rules, records, c.strict, keys, answers.value, failed);
      if outcome.Applied? {
        published := published + entries;
      }
      SaveAll(keys, failed);
      reply := Results(failed);
    }

    method SaveAll(keys: seq<Key>, failed: seq<nat>)
      requires Valid() && |keys| == |failed| && forall k :: k in keys ==> k in records
      modifies this`records, this`pending, this`pendingBytes
      ensures Valid() && records == FinishAll(rules, old(records), keys, failed) && pending.Some? == old(pending).Some?
    {
      var before := records;
      for i := 0 to |keys|
        invariant Valid() && pending.Some? == old(pending).Some?
        invariant forall k :: k in keys[..i] ==> k in before
        invariant records == FinishAll(rules, before, keys[..i], failed[..i])
      {
        assert keys[i] in keys;
        assert keys[..i + 1][..i] == keys[..i] && failed[..i + 1][..i] == failed[..i];
        Save(keys[i], Finished(rules, before[keys[i]], failed[i]));
      }
      assert keys[..|keys|] == keys && failed[..|failed|] == failed;
    }

    /** pendingSnapshot, for one tenant. */
    method Snapshot(tenant: string) returns (queue: map<Key, Info>)
      requires Valid()
      modifies this`pending, this`pendingBytes
      ensures Valid() && queue == Waiting(rules, records, tenant)
    {
      EnsurePending();
      queue := OfTenant(pending.value, tenant);
    }

    /** A flush naming a request that waits. */
    method FlushPicked(c: Command, ghost first: Key) returns (reply: Reply)
      requires Valid() && c.Flush? && first in c.ids && first in Waiting(rules, records, c.tenant)
      modifies this`records, this`published, this`pending, this`pendingBytes
      ensures Valid() && Shrinks(rules, old(records), records) && OthersSame(rules, old(records), records, c.tenant)
      ensures reply.Rejected? || reply.RouteChanged? || reply.Results?
      ensures reply.RouteChanged? <==> !Routed(c.owner, c.epoch)
      ensures reply.RouteChanged? ==> records == old(records) && published == old(published)
      ensures reply.Results? ==> |Waiting(rules, records, c.tenant)| < |Waiting(rules, old(records), c.tenant)|
    {
      ghost var s := Content();
      FirstWaits(rules, records, c.tenant, first);
      FlushShrinks(rules, s, c);
      FlushAnswers(rules, s, c);
      if Flushing(rules, s, c).1.Results? {
        FlushFinishes(rules, s, c, first);
        FewerWait(rules, s.records, Flushing(rules, s, c).0.records, c.tenant, first);
      }
      hide Flushing, Waiting, Shrinks, OthersSame, Sum, Scan, OfTenant, Routed;
      reply := FlushBatch(c);
    }

    /** flushPendingTenant: one batch from the tenant's queue. A flush that met a changed owner is answered,
        without an error and without effect. */
    method FlushTenant(tenant: string, limits: Limits, m: Meeting) returns (ok: bool)
      requires Valid()
      modifies this`records, this`published, this`pending, this`pendingBytes
      ensures Valid() && Shrinks(rules, old(records), records)
      ensures ok && Waiting(rules, old(records), tenant) != map[] ==> Delivered(m)
      ensures Changed(m) ==> records == old(records) && published == old(published) && ok
      ensures ok && !Changed(m) && Waiting(rules, old(records), tenant) != map[] ==> |Waiting(rules, records, tenant)| < |Waiting(rules, old(records), tenant)|
      ensures OthersSame(rules, old(records), records, tenant)
    {
      var queue := Snapshot(tenant);
      if queue == map[] {
        return true;
      }
      if m.before.Some? && !m.before.value.state.Active? {
        return false;
      }
      if m.fate.Withheld? {
        return false;
      }
      var ids := PickBatch(queue, limits);
      var c := Flush(tenant, ids, Route(m.before), m.after, m.strict, m.store);
      hide Routed, Waiting, Shrinks, OthersSame, Sum, Scan, OfTenant, Distinct, IngestQueue.Valid;
      var reply := FlushPicked(c, ids[0]);
      ok := m.fate.Answered? && !reply.Rejected?;
    }

    /** flushReady: pass over the tenants until each has less than a full batch waiting, or nothing at
        all. A pass that does not shorten a tenant's queue ends its turn. The pass uses up the meetings
        from `next` to `end`. */
    method FlushReady(limits: Limits, meetings: nat -> Meeting, next: nat, all: bool) returns (failed: bool, end: nat)
      requires Valid()
      modifies this`records, this`published, this`pending, this`pendingBytes
      ensures Valid() && Shrinks(rules, old(records), records) && next <= end
      ensures !failed ==> (NoneDue(rules, records, limits, all) <==> NoneChanged(meetings, next, end))
      ensures all && !failed ==> (Scan(rules, records) == map[] <==> NoneChanged(meetings, next, end))
    {
      EnsurePending();
      failed, end := false, next;
      var tenants := TenantsOf(pending.value);
      ghost var done: set<string> := {};
      ShrinksItself(rules, records);
      OthersAreNotDue(rules, records, limits, all);
      hide Scan, OfTenant, Waiting, Shrinks, TenantsOf, DueFor, DueOnlyIn, NoneDueIn, NoneDue, Changed, NoneChanged, OthersSame, IngestQueue.Valid;
      NoneChangedYet(meetings, next);
      while tenants != {}
        invariant Valid() && Shrinks(rules, old(records), records) && next <= end
        invariant DueOnlyIn(rules, records, limits, all, tenants + done) && tenants !! done
        invariant !failed ==> (NoneDueIn(rules, records, limits, all, done) <==> NoneChanged(meetings, next, end))
        decreases tenants
      {
        var tenant :| tenant in tenants;
        ghost var before, middle := records, end;
        var stopped;
        stopped, end := FlushAll(tenant, limits, meetings, end, all);
        ShrinksOn(rules, old(records), before, records);
        TurnEnds(rules, before, records, limits, all, tenants, done, tenant);
        ChangedApart(meetings, next, middle, end);
        failed := failed || stopped;
        tenants, done := tenants - {tenant}, done + {tenant};
      }
      AllTurnsEnd(rules, records, limits, all, tenants, done);
      NoneDueIsEmpty(rules, records, limits);
    }

    /** A flush and the queue afterwards: shorter unless an error occurred or the route had changed. */
    method FlushAndLook(tenant: string, limits: Limits, m: Meeting, queue: map<Key, Info>) returns (ok: bool, rest: map<Key, Info>)
      requires Valid() && queue == Waiting(rules, records, tenant) && |queue| > 0
      modifies this`records, this`published, this`pending, this`pendingBytes
      ensures Valid() && Shrinks(rules, old(records), records) && OthersSame(rules, old(records), records, tenant)
      ensures rest == Waiting(rules, records, tenant)
      ensures ok ==> (Changed(m) <==> |rest| >= |queue|)
      ensures Changed(m) ==> records == old(records)
    {
      hide Waiting, Shrinks, Changed, Delivered, OthersSame, IngestQueue.Valid;
      ok := FlushTenant(tenant, limits, m);
      rest := Snapshot(tenant);
    }

    /** The inner loop of flushReady. */
    method FlushAll(tenant: string, limits: Limits, meetings: nat -> Meeting, next: nat, all: bool) returns (failed: bool, end: nat)
      requires Valid()
      modifies this`records, this`published, this`pending, this`pendingBytes
      ensures Valid() && Shrinks(rules, old(records), records) && next <= end
      ensures !failed ==> (!DueFor(rules, records, limits, all, tenant) <==> NoneChanged(meetings, next, end))
      ensures OthersSame(rules, old(records), records, tenant)
    {
      var queue := Snapshot(tenant);
      var size := WaitingBytes(queue);
      failed, end := false, next;
      ShrinksItself(rules, records);
      OthersSameItself(rules, records, tenant);
      hide Scan, OfTenant, Waiting, Sum, Shrinks, Changed, Delivered, Due, DueFor, NoneChanged, OthersSame, IngestQueue.Valid;
      NoneChangedYet(meetings, next);
      DueIs(rules, records, limits, all, tenant, queue, size);
      while |queue| > 0 && (all || |queue| >= limits.requests || size >= limits.bytes)
        invariant Valid() && Shrinks(rules, old(records), records) && next <= end
        invariant queue == Waiting(rules, records, tenant) && size == Sum(queue, RequestBytes) && !failed
        invariant NoneChanged(meetings, next, end)
        invariant DueFor(rules, records, limits, all, tenant) <==> |queue| > 0 && (all || |queue| >= limits.requests || size >= limits.bytes)
        invariant OthersSame(rules, old(records), records, tenant)
        decreases |queue|
      {
        ghost var before := records;
        var ok, rest := FlushAndLook(tenant, limits, meetings(end), queue);
        ShrinksOn(rules, old(records), before, records);
        OthersSameOn(rules, old(records), before, records, tenant);
        OneMoreMeeting(meetings, next, end);
        end := end + 1;
        if !ok {
          return true, end;
        }
        if |rest| >= |queue| {
          break;
        }
        queue := rest;
        size := WaitingBytes(queue);
        DueIs(rules, records, limits, all, tenant, queue, size);
      }
    }
  }

  // ---------- flushing what waits ----------

  type Positive = x: nat | x > 0 witness 1

  /** FlushMaxRequests and FlushMaxBytes, at least one. */
  datatype Limits = Limits(requests: Positive, bytes: Positive)

  /** The requests of a tenant that wait. */
  function Waiting(rules: Rules, records: Records, tenant: string): map<Key, Info> {
    OfTenant(Scan(rules, records), tenant)
  }

  /** How a flush that its proposer may send ends: held back (backpressure, admission, no leader), applied
      with the answer lost, or applied and answered. */
  datatype Fate = Withheld | Unanswered | Answered

  /** What one proposed flush meets: the tenant's ownership record when it is proposed and when it is
      applied (absent on a node that is no shard), its fate, the strictness of the commit format and the
      store. */
  datatype Meeting = Meeting(before: Option<Sharding.Ownership>, after: Option<Sharding.Ownership>, fate: Fate, strict: bool, store: seq<Entry> -> Outcome)

  /** The route a flush is proposed under. */
  function Route(owner: Option<Sharding.Ownership>): nat {
    if owner.Some? then owner.value.epoch else 0
  }

  predicate Delivered(m: Meeting) {
    (m.before.Some? ==> m.before.value.state.Active?) && m.fate.Answered?
  }

  /** A flush that was proposed by an owner and answered by another. */
  predicate Changed(m: Meeting) {
    Delivered(m) && !Routed(m.after, Route(m.before))
  }

  ghost predicate NoneChanged(meetings: nat -> Meeting, from: nat, end: nat) {
    forall i: nat :: from <= i < end ==> !Changed(meetings(i))
  }

  /** Whether a tenant's queue is to be flushed: anything waits, or a full batch. */
  ghost predicate Due(queue: map<Key, Info>, limits: Limits, all: bool) {
    |queue| > 0 && (all || |queue| >= limits.requests || Sum(queue, RequestBytes) >= limits.bytes)
  }

  ghost predicate DueFor(rules: Rules, records: Records, limits: Limits, all: bool, tenant: string) {
    Due(Waiting(rules, records, tenant), limits, all)
  }

  ghost predicate NoneDueIn(rules: Rules, records: Records, limits: Limits, all: bool, tenants: set<string>) {
    forall t :: t in tenants ==> !DueFor(rules, records, limits, all, t)
  }

  ghost predicate DueOnlyIn(rules: Rules, records: Records, limits: Limits, all: bool, tenants: set<string>) {
    forall t :: t !in tenants ==> !DueFor(rules, records, limits, all, t)
  }

  /** The queues of the other tenants are as they were. */
  ghost predicate OthersSame(rules: Rules, before: Records, after: Records, tenant: string) {
    forall t :: t != tenant ==> Waiting(rules, after, t) == Waiting(rules, before, t)
  }

  ghost predicate NoneDue(rules: Rules, records: Records, limits: Limits, all: bool) {
    forall t :: !DueFor(rules, records, limits, all, t)
  }

  function OfTenant(queue: map<Key, Info>, tenant: string): map<Key, Info> {
    map k | k in queue && queue[k].tenant == tenant :: queue[k]
  }

  /** Nothing is accepted that was not accepted before. */
  ghost predicate Shrinks(rules: Rules, before: Records, after: Records) {
    && before.Keys == after.Keys
    && forall k :: k in after && after[k].progress.Accepted? ==> after[k] == before[k]
  }

  /** Results of the store go to the batches they belong to. */
  method Fill(defaults: seq<nat>, slots: seq<nat>, applied: seq<nat>) returns (results: seq<nat>)
    requires |slots| == |applied| && (forall i :: 0 <= i < |slots| ==> slots[i] < |defaults|)
    requires forall i, j :: 0 <= i < j < |slots| ==> slots[i] != slots[j]
    ensures |results| == |defaults| && (forall i :: 0 <= i < |slots| ==> results[slots[i]] == applied[i])
    ensures forall j :: 0 <= j < |defaults| && j !in slots ==> results[j] == defaults[j]
  {
    results := defaults;
    for n := 0 to |slots|
      invariant |results| == |defaults| && (forall i :: 0 <= i < n ==> results[slots[i]] == applied[i])
      invariant forall j :: 0 <= j < |defaults| && j !in slots ==> results[j] == defaults[j]
    {
      results := results[slots[n] := applied[n]];
    }
  }

  lemma GatheredNone(records: Records, tenant: string, ids: seq<Key>)
    ensures Gathered(records, tenant, ids[..0]) == Some([]) && ids[..|ids|] == ids
  {
  }

  lemma GatheredNext(records: Records, tenant: string, ids: seq<Key>, i: nat)
    requires i < |ids| && Gathered(records, tenant, ids[..i]).Some?
    ensures var k := ids[i];
      if k !in records || records[k].tenant != tenant then Gathered(records, tenant, ids).None?
      else
        var keys := Gathered(records, tenant, ids[..i]).value;
        Gathered(records, tenant, ids[..i + 1]) == Some(if records[k].progress.Accepted? then keys + [k] else keys)
  {
    assert ids[..i + 1][..i] == ids[..i];
    if Gathered(records, tenant, ids[..i + 1]).None? {
      GatheredFails(records, tenant, ids, i + 1);
    }
  }

  lemma {:induction false} GatheredFails(records: Records, tenant: string, ids: seq<Key>, n: nat)
    requires n <= |ids| && Gathered(records, tenant, ids[..n]).None?
    ensures Gathered(records, tenant, ids).None?
    decreases |ids|
  {
    if n == |ids| {
      assert ids[..n] == ids;
    } else {
      assert ids[..|ids| - 1][..n] == ids[..n];
      GatheredFails(records, tenant, ids[..|ids| - 1], n);
    }
  }

  method WaitingBytes(queue: map<Key, Info>) returns (size: nat)
    ensures size == Sum(queue, RequestBytes)
  {
    size := 0;
    var todo := queue.Keys;
    ghost var seen: map<Key, Info> := map[];
    while todo != {}
      invariant todo <= queue.Keys && seen == queue - todo && size == Sum(seen, RequestBytes)
      decreases todo
    {
      var key :| key in todo;
      SumWith(seen, RequestBytes, key, queue[key]);
      size := size + queue[key].requestBytes;
      todo, seen := todo - {key}, seen[key := queue[key]];
    }
    assert seen == queue;
  }

  /** sort.Slice by acceptance index. */
  method ByIndex(queue: map<Key, Info>) returns (keys: seq<Key>)
    ensures Distinct(keys) && forall k :: k in keys <==> k in queue
    ensures forall i, j :: 0 <= i < j < |keys| ==> queue[keys[i]].index <= queue[keys[j]].index
  {
    keys := [];
    var todo := queue.Keys;
    while todo != {}
      invariant todo <= queue.Keys && Distinct(keys) && forall k :: k in keys <==> k in queue && k !in todo
      invariant forall i, j :: 0 <= i < j < |keys| ==> queue[keys[i]].index <= queue[keys[j]].index
      decreases todo
    {
      var key :| key in todo;
      todo := todo - {key};
      var n := 0;
      while n < |keys| && queue[keys[n]].index <= queue[key].index
        invariant 0 <= n <= |keys| && forall i :: 0 <= i < n ==> queue[keys[i]].index <= queue[key].index
      {
        n := n + 1;
      }
      InsertedKey(queue, keys, key, n);
      keys := keys[..n] + [key] + keys[n..];
    }
  }

  lemma InsertedKey(queue: map<Key, Info>, keys: seq<Key>, key: Key, n: nat)
    requires n <= |keys| && key !in keys && Distinct(keys) && key in queue && forall k :: k in keys ==> k in queue
    requires forall i, j :: 0 <= i < j < |keys| ==> queue[keys[i]].index <= queue[keys[j]].index
    requires (forall i :: 0 <= i < n ==> queue[keys[i]].index <= queue[key].index) && (n < |keys| ==> queue[key].index <= queue[keys[n]].index)
    ensures var longer := keys[..n] + [key] + keys[n..];
      && Distinct(longer)
      && (forall k :: k in longer <==> k in keys || k == key)
      && forall i, j :: 0 <= i < j < |longer| ==> queue[longer[i]].index <= queue[longer[j]].index
  {
    assert keys == keys[..n] + keys[n..];
  }

  ghost function BatchBytes(queue: map<Key, Info>, ids: seq<Key>): nat
    requires forall k :: k in ids ==> k in queue
    decreases |ids|
  {
    if ids == [] then 0
    else
      assert forall k :: k in ids[..|ids| - 1] ==> k in ids;
      assert ids[|ids| - 1] in ids;
      BatchBytes(queue, ids[..|ids| - 1]) + queue[ids[|ids| - 1]].requestBytes
  }

  /** flushPendingBatch: from the oldest request of the tenant on, those of its generation, until a limit
      is met; never none. */
  method PickBatch(queue: map<Key, Info>, limits: Limits) returns (ids: seq<Key>)
    requires queue != map[]
    ensures ids != [] && Distinct(ids) && forall k :: k in ids ==> k in queue
    ensures forall k :: k in queue ==> queue[ids[0]].index <= queue[k].index
    ensures forall k :: k in ids ==> queue[k].generation == queue[ids[0]].generation
    ensures |ids| <= limits.requests && (|ids| == 1 || BatchBytes(queue, ids) <= limits.bytes)
  {
    var keys := ByIndex(queue);
    var k :| k in queue;
    assert k in keys;
    assert keys[0] in keys;
    var generation := queue[keys[0]].generation;
    var size := 0;
    ids := [];
    for i := 0 to |keys|
      invariant Distinct(ids) && (forall k :: k in ids ==> k in keys[..i] && k in queue && queue[k].generation == generation)
      invariant i > 0 ==> ids != [] && ids[0] == keys[0]
      invariant |ids| <= limits.requests && size == BatchBytes(queue, ids) && (|ids| <= 1 || size <= limits.bytes)
    {
      var key := keys[i];
      assert key in keys && key !in keys[..i];
      if queue[key].generation == generation {
        if |ids| > 0 && (|ids| >= limits.requests || size + queue[key].requestBytes > limits.bytes) {
          break;
        }
        assert (ids + [key])[..|ids|] == ids;
        ids := ids + [key];
        size := size + queue[key].requestBytes;
      }
    }
    forall k | k in queue ensures queue[ids[0]].index <= queue[k].index {
      assert k in keys;
      var j :| 0 <= j < |keys| && keys[j] == k;
    }
  }

  lemma FlushShrinks(rules: Rules, s: State, c: Command)
    requires c.Flush?
    ensures var after := Flushing(rules, s, c).0.records;
      && Shrinks(rules, s.records, after)
      && OthersSame(rules, s.records, after, c.tenant)
  {
    hide Scan, OfTenant, Shrinks;
    var after := Flushing(rules, s, c).0.records;
    ShrinksItself(rules, s.records);
    if Flushing(rules, s, c).1.Results? {
      FlushIs(rules, s, c);
      var keys := Gathered(s.records, c.tenant, c.ids).value;
      FinishShrinks(rules, s.records, after, keys);
      forall t | t != c.tenant ensures OfTenant(Scan(rules, after), t) == OfTenant(Scan(rules, s.records), t) {
        OthersWait(rules, s.records, after, keys, c.tenant, t);
      }
    }
  }

  lemma ShrinksItself(rules: Rules, records: Records)
    ensures Shrinks(rules, records, records)
  {
  }

  lemma ShrinksOn(rules: Rules, a: Records, b: Records, c: Records)
    requires Shrinks(rules, a, b) && Shrinks(rules, b, c)
    ensures Shrinks(rules, a, c)
  {
  }

  lemma FinishShrinks(rules: Rules, before: Records, after: Records, keys: seq<Key>)
    requires after.Keys == before.Keys && (forall k :: k in before && k !in keys ==> after[k] == before[k])
    requires forall k :: k in keys ==> k in before && HasFinished(rules, before[k], after[k])
    ensures Shrinks(rules, before, after)
  {
    forall k | k in keys ensures !after[k].progress.Accepted? {
      assert HasFinished(rules, before[k], after[k]);
    }
  }

  lemma OthersWait(rules: Rules, before: Records, after: Records, keys: seq<Key>, tenant: string, t: string)
    requires t != tenant && after.Keys == before.Keys && (forall k :: k in before && k !in keys ==> after[k] == before[k])
    requires forall k :: k in keys ==> k in before && before[k].tenant == tenant && HasFinished(rules, before[k], after[k])
    ensures OfTenant(Scan(rules, after), t) == OfTenant(Scan(rules, before), t)
  {
    forall k | k in keys ensures !after[k].progress.Accepted? {
      assert HasFinished(rules, before[k], after[k]);
    }
    assert OfTenant(Scan(rules, after), t).Keys == OfTenant(Scan(rules, before), t).Keys;
  }

  lemma FlushFinishes(rules: Rules, s: State, c: Command, k: Key)
    requires c.Flush? && Flushing(rules, s, c).1.Results? && k in c.ids && k in s.records && s.records[k].progress.Accepted?
    ensures k in Flushing(rules, s, c).0.records && !Flushing(rules, s, c).0.records[k].progress.Accepted?
  {
    var keys := Gathered(s.records, c.tenant, c.ids).value;
    FlushIs(rules, s, c);
    assert k in keys;
  }

  function TenantsOf(queue: map<Key, Info>): set<string> {
    set k | k in queue :: queue[k].tenant
  }

  lemma FlushAnswers(rules: Rules, s: State, c: Command)
    requires c.Flush?
    ensures var reply := Flushing(rules, s, c).1; reply.Rejected? || reply.RouteChanged? || reply.Results?
    ensures Flushing(rules, s, c).1.RouteChanged? <==> !Routed(c.owner, c.epoch)
    ensures !Routed(c.owner, c.epoch) ==> Flushing(rules, s, c).0 == s
  {
  }

  lemma OthersAreNotDue(rules: Rules, records: Records, limits: Limits, all: bool)
    ensures DueOnlyIn(rules, records, limits, all, TenantsOf(Scan(rules, records)) + {}) && NoneDueIn(rules, records, limits, all, {})
  {
    forall t | t !in TenantsOf(Scan(rules, records)) ensures Waiting(rules, records, t) == map[] {
    }
  }

  lemma OthersSameItself(rules: Rules, records: Records, tenant: string)
    ensures OthersSame(rules, records, records, tenant)
  {
  }

  lemma OthersSameOn(rules: Rules, a: Records, b: Records, c: Records, tenant: string)
    requires OthersSame(rules, a, b, tenant) && OthersSame(rules, b, c, tenant)
    ensures OthersSame(rules, a, c, tenant)
  {
  }

  /** The turn of one tenant leaves those before it as they were. */
  lemma TurnEnds(rules: Rules, before: Records, after: Records, limits: Limits, all: bool, tenants: set<string>, done: set<string>, tenant: string)
    requires OthersSame(rules, before, after, tenant) && tenant in tenants && tenants !! done
    requires DueOnlyIn(rules, before, limits, all, tenants + done)
    ensures DueOnlyIn(rules, after, limits, all, tenants - {tenant} + (done + {tenant})) && tenants - {tenant} !! done + {tenant}
    ensures NoneDueIn(rules, after, limits, all, done + {tenant}) <==> NoneDueIn(rules, before, limits, all, done) && !DueFor(rules, after, limits, all, tenant)
  {
    hide Waiting, Due;
    forall t | t != tenant ensures DueFor(rules, after, limits, all, t) == DueFor(rules, before, limits, all, t) {
    }
    hide DueFor;
    assert forall t :: t in done ==> t != tenant;
  }

  lemma AllTurnsEnd(rules: Rules, records: Records, limits: Limits, all: bool, tenants: set<string>, done: set<string>)
    requires DueOnlyIn(rules, records, limits, all, tenants + done) && tenants == {}
    ensures NoneDue(rules, records, limits, all) <==> NoneDueIn(rules, records, limits, all, done)
  {
    hide DueFor;
  }

  lemma DueIs(rules: Rules, records: Records, limits: Limits, all: bool, tenant: string, queue: map<Key, Info>, size: nat)
    requires queue == Waiting(rules, records, tenant) && size == Sum(queue, RequestBytes)
    ensures DueFor(rules, records, limits, all, tenant) <==> |queue| > 0 && (all || |queue| >= limits.requests || size >= limits.bytes)
  {
  }

  lemma NoneChangedYet(meetings: nat -> Meeting, from: nat)
    ensures NoneChanged(meetings, from, from)
  {
  }

  lemma OneMoreMeeting(meetings: nat -> Meeting, from: nat, end: nat)
    requires from <= end
    ensures NoneChanged(meetings, from, end + 1) <==> NoneChanged(meetings, from, end) && !Changed(meetings(end))
  {
  }

  lemma ChangedApart(meetings: nat -> Meeting, from: nat, middle: nat, end: nat)
    requires from <= middle <= end
    ensures NoneChanged(meetings, from, end) <==> NoneChanged(meetings, from, middle) && NoneChanged(meetings, middle, end)
  {
    hide Changed;
  }

  /** After a pass for everything, nothing due is nothing waiting. */
  lemma NoneDueIsEmpty(rules: Rules, records: Records, limits: Limits)
    ensures NoneDue(rules, records, limits, true) <==> Scan(rules, records) == map[]
  {
    var queue := Scan(rules, records);
    forall k | k in queue ensures DueFor(rules, records, limits, true, queue[k].tenant) {
      assert k in OfTenant(queue, queue[k].tenant);
    }
  }

  /** The input at which a pass ends without an error while requests wait. The tenant's shard is active at
      epoch e and holds an accepted request, so a freeze is refused; the move is cancelled and thaw makes
      the record active at e + 1. A flush proposed at e and applied after that is answered as rerouted
      and does nothing. */
  lemma CancelledMoveReroutes(rules: Rules, s: State, setup: ShardOwnership.Setup, node: ShardOwnership.Node, move: string, m: Meeting, ids: seq<Key>)
    requires node.owner.state.Active? && 0 < node.owner.epoch < Sharding.MAX_UINT64 && Sharding.ValidIdentifier(move)
    requires node.content.Some? && node.content.value.accepted != []
    requires m.before == Some(node.owner) && m.fate.Answered?
    ensures var e := node.owner.epoch;
      var frozen := ShardOwnership.ApplyOwnership(setup, node, Sharding.Plain(Sharding.Freeze, e, move));
      var thawed := ShardOwnership.ApplyOwnership(setup, frozen.node, Sharding.Plain(Sharding.Thaw, e + 1, move));
      && frozen == ShardOwnership.Outcome(node, ShardOwnership.Rejected)
      && thawed.reply.Done? && thawed.node.owner.state.Active? && thawed.node.content == node.content
      && (m.after == Some(thawed.node.owner) ==>
          Changed(m) && Flushing(rules, s, Flush(setup.tenant, ids, Route(m.before), m.after, m.strict, m.store)) == (s, RouteChanged))
  {
    assert node.owner.moveId == move ==> !node.owner.state.Frozen?;
  }

  lemma FirstWaits(rules: Rules, records: Records, tenant: string, k: Key)
    requires k in Waiting(rules, records, tenant)
    ensures k in records && records[k].progress.Accepted?
  {
  }

  /** A tenant whose oldest request was finished has fewer waiting. */
  lemma FewerWait(rules: Rules, before: Records, after: Records, tenant: string, k: Key)
    requires Shrinks(rules, before, after) && k in Waiting(rules, before, tenant) && k in after && !after[k].progress.Accepted?
    ensures |Waiting(rules, after, tenant)| < |Waiting(rules, before, tenant)|
  {
    var a, b := Waiting(rules, before, tenant).Keys, Waiting(rules, after, tenant).Keys;
    assert b <= a - {k};
    Subset(b, a - {k});
    assert |Waiting(rules, after, tenant)| == |b|;
  }

  lemma {:induction false} Subset(a: set<Key>, b: set<Key>)
    requires a <= b
    ensures |a| <= |b|
    decreases a
  {
    if a != {} {
      var x :| x in a;
      Subset(a - {x}, b - {x});
    }
  }
}
