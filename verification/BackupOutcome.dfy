/** What a finished backup cycle has established, and that a cycle can finish: over every run, with crashes, lost responses and failed
    writes in between (scripts/backup_automation.py:177-230). */
module BackupOutcomes {
  import opened GraphModel
  import opened Backups

  // ---------- what tasks prove ----------

  /** A backup of the cycle in the object store, under this key. */
  predicate BackedUp(t: Task, cycle: string, key: string) {
    && t.request.typ.TenantBackup? && t.request.params.phase.Backup? && t.request.params.cycle == cycle && t.request.params.destination == OBJECT
    && t.status.Succeeded? && t.status.backupKey == key && SCHEME <= key && t.status.destination == OBJECT
  }

  /** A dry run of restoring the backup with this key, which proved its manifest and payload. */
  predicate Verified(t: Task, cycle: string, key: string) {
    && t.request.typ.TenantRestoreDrill? && t.request.params.phase.Verify? && t.request.params.cycle == cycle && t.request.params.dryRun
    && t.request.params.backupKey == key && t.status.Succeeded? && t.status.proven
  }

  /** A real restore of it, which proved that it can be recovered. */
  predicate Drilled(t: Task, cycle: string, key: string) {
    && t.request.typ.TenantRestoreDrill? && t.request.params.phase.Drill? && t.request.params.cycle == cycle && !t.request.params.dryRun
    && t.request.params.backupKey == key && t.status.Succeeded? && t.status.proven
  }

  /** Every task as it stood at some point of a run. */
  ghost function Seen(events: seq<Event>): set<Task>
    requires Possible(NEW_SYSTEM, events)
    decreases |events|
  {
    var now := set i | 0 <= i < |Run(NEW_SYSTEM, events).tasks| :: Run(NEW_SYSTEM, events).tasks[i];
    if events == [] then now else Seen(events[..|events| - 1]) + now
  }

  /** What a worker's state stands on: in its verify phase on a backup, in its drill phase on a verification as well. */
  ghost predicate Founded(seen: set<Task>, w: Work) {
    && (w.phase.Verify? || w.phase.Drill? ==> exists t :: t in seen && BackedUp(t, w.cycle, w.backupKey))
    && (w.phase.Drill? ==> w.drillDue && exists t :: t in seen && Verified(t, w.cycle, w.backupKey))
  }

  ghost predicate AllFounded(seen: set<Task>, s: System) {
    Founded(seen, s.disk) && (s.worker.Some? ==> Founded(seen, s.worker.value.work))
  }

  lemma FoundedGrows(seen: set<Task>, more: set<Task>, w: Work)
    requires Founded(seen, w) && seen <= more
    ensures Founded(more, w)
  {
    if w.phase.Verify? || w.phase.Drill? {
      var t :| t in seen && BackedUp(t, w.cycle, w.backupKey);
      assert t in more;
    }
    if w.phase.Drill? {
      var t :| t in seen && Verified(t, w.cycle, w.backupKey);
      assert t in more;
    }
  }

  /** Work that differs in nothing the evidence is about. */
  lemma FoundedSame(seen: set<Task>, w: Work, next: Work)
    requires Founded(seen, w) && next.phase == w.phase && next.cycle == w.cycle && next.backupKey == w.backupKey && next.drillDue == w.drillDue
    ensures Founded(seen, next)
  {
  }

  /** The task of a phase that succeeded is the evidence the next phase stands on. */
  lemma SuccessFounds(seen: set<Task>, w: Work, task: Task, now: real, interval: real)
    requires Validates(w) && w.pending.Some? && Founded(seen, w) && task in seen && task.request == w.pending.value.request && task.status.Succeeded?
    ensures Founded(seen, AfterSuccess(w, task.status, now, interval).0)
  {
    var next := AfterSuccess(w, task.status, now, interval).0;
    if next.phase.Verify? && w.phase.Backup? {
      assert BackedUp(task, w.cycle, task.status.backupKey);
    } else if next.phase.Drill? && w.phase.Verify? {
      assert Verified(task, w.cycle, w.backupKey);
    }
  }

  lemma PersistFounded(seen: set<Task>, s: System, w: Work, next: Place, save: Save)
    requires AllFounded(seen, s) && Founded(seen, w)
    ensures AllFounded(seen, Persist(s, w, next, save))
  {
  }

  lemma PollFounded(seen: set<Task>, s: System, w: Work, task: Task, now: real, interval: real, save: Save)
    requires AllFounded(seen, s) && s.worker.Some? && s.worker.value.work == w && Validates(w) && w.pending.Some? && task in seen
    ensures AllFounded(seen, Polled(s, w, task, now, interval, save))
  {
    hide Validates, Founded, AfterSuccess;
    if task.request == w.pending.value.request {
      if task.status.Succeeded? {
        SuccessFounds(seen, w, task, now, interval);
      } else {
        FoundedSame(seen, w, w.(pending := Some(Pending(w.pending.value.request.(retryOf := task.id), Prepared, ""))));
      }
    }
  }

  lemma StepFounded(seen: set<Task>, s: System, e: Event)
    requires Safe(s) && Enabled(s, e) && AllFounded(seen, s) && forall i :: 0 <= i < |s.tasks| ==> s.tasks[i] in seen
    ensures AllFounded(seen, Step(s, e))
  {
    if e.Poll? {
      PollFounded(seen, s, s.worker.value.work, s.tasks[e.task], e.now, e.interval, e.save);
    } else if s.worker.Some? {
      hide Safe, Validates, Clean;
      OtherFounded(seen, s, e);
    }
  }

  lemma OtherFounded(seen: set<Task>, s: System, e: Event)
    requires Enabled(s, e) && AllFounded(seen, s) && s.worker.Some? && !e.Poll?
    ensures AllFounded(seen, Step(s, e))
  {
    hide Validates;
    var w := s.worker.value.work;
    match e
    case Fail(now, delay, save) =>
      FoundedSame(seen, w, w.(failures := if w.failures + 1 < MAX_FAILURES then w.failures + 1 else MAX_FAILURES, nextRun := now + delay));
    case _ =>
  }

  lemma SeenGrows(events: seq<Event>)
    requires Possible(NEW_SYSTEM, events)
    ensures events != [] ==> Seen(events[..|events| - 1]) <= Seen(events)
    ensures forall i :: 0 <= i < |Run(NEW_SYSTEM, events).tasks| ==> Run(NEW_SYSTEM, events).tasks[i] in Seen(events)
  {
  }

  lemma {:induction false} EveryRunIsFounded(events: seq<Event>)
    requires Possible(NEW_SYSTEM, events)
    ensures AllFounded(Seen(events), Run(NEW_SYSTEM, events))
    decreases |events|
  {
    hide Founded, Safe;
    if events != [] {
      var before := events[..|events| - 1];
      EveryRunIsFounded(before);
      EveryRunIsSafe(before);
      SeenGrows(before);
      SeenGrows(events);
      StepFounded(Seen(before), Run(NEW_SYSTEM, before), events[|events| - 1]);
      var s := Run(NEW_SYSTEM, events);
      FoundedGrows(Seen(before), Seen(events), s.disk);
      if s.worker.Some? {
        FoundedGrows(Seen(before), Seen(events), s.worker.value.work);
      }
    } else {
      StartsFounded();
    }
  }

  lemma StartsFounded()
    ensures AllFounded(Seen([]), NEW_SYSTEM)
  {
  }

  // ---------- when a cycle ends ----------

  /** What a worker has in mind, or left behind. */
  function WorkOf(s: System): Work {
    if s.worker.Some? then s.worker.value.work else s.disk
  }

  /** The task that is polled is one of those seen. */
  lemma PolledIsSeen(events: seq<Event>, i: nat)
    requires Possible(NEW_SYSTEM, events) && i < |Run(NEW_SYSTEM, events).tasks|
    ensures Run(NEW_SYSTEM, events).tasks[i] in Seen(events)
  {
    SeenGrows(events);
  }

  lemma EndIsProven(seen: set<Task>, s: System, e: Event)
    requires Safe(s) && Enabled(s, e) && e.Poll? && WorkOf(Step(s, e)).phase.Idle?
    requires AllFounded(seen, s) && s.tasks[e.task] in seen
    ensures var w := s.worker.value.work;
      && (exists t :: t in seen && BackedUp(t, w.cycle, w.backupKey))
      && (exists t :: t in seen && Verified(t, w.cycle, w.backupKey))
      && (w.drillDue ==> exists t :: t in seen && Drilled(t, w.cycle, w.backupKey))
  {
    var w, task := s.worker.value.work, s.tasks[e.task];
    hide Clean, Unique;
    assert Validates(w) && task.request == w.pending.value.request && task.status.Succeeded?;
    if w.phase.Verify? {
      assert Verified(task, w.cycle, w.backupKey);
    } else {
      assert Drilled(task, w.cycle, w.backupKey);
    }
  }

  /** In every run: when a poll ends a cycle, the server has held a succeeded object backup of that cycle, a succeeded verification of
      that very backup which proved it, and, if a drill was due, a restore of it which proved it can be recovered. */
  lemma CycleIsProven(events: seq<Event>, e: Event)
    requires Possible(NEW_SYSTEM, events) && Enabled(Run(NEW_SYSTEM, events), e) && e.Poll?
    requires WorkOf(Step(Run(NEW_SYSTEM, events), e)).phase.Idle?
    ensures var w := Run(NEW_SYSTEM, events).worker.value.work;
      && (exists t :: t in Seen(events) && BackedUp(t, w.cycle, w.backupKey))
      && (exists t :: t in Seen(events) && Verified(t, w.cycle, w.backupKey))
      && (w.drillDue ==> exists t :: t in Seen(events) && Drilled(t, w.cycle, w.backupKey))
  {
    hide Founded, Safe, Run, BackedUp, Verified, Drilled;
    EveryRunIsFounded(events);
    EveryRunIsSafe(events);
    PolledIsSeen(events, e.task);
    EndIsProven(Seen(events), Run(NEW_SYSTEM, events), e);
  }

  /** The server changes no task that has ended. */
  ghost predicate Final(events: seq<Event>)
    requires Possible(NEW_SYSTEM, events)
    decreases |events|
  {
    events != [] ==>
      var before, last := events[..|events| - 1], events[|events| - 1];
      Final(before) && (last.Progress? ==> Run(NEW_SYSTEM, before).tasks[last.task].status.Waiting?)
  }

  /** Then what was seen to have succeeded is still there. */
  lemma {:induction false} SuccessStays(events: seq<Event>, t: Task)
    requires Possible(NEW_SYSTEM, events) && Final(events) && t in Seen(events) && t.status.Succeeded?
    ensures t in Run(NEW_SYSTEM, events).tasks
    decreases |events|
  {
    if events != [] && t in Seen(events[..|events| - 1]) {
      var before, last := events[..|events| - 1], events[|events| - 1];
      SuccessStays(before, t);
      TasksStay(Run(NEW_SYSTEM, before), last, t);
    }
  }

  lemma TasksStay(s: System, e: Event, t: Task)
    requires Enabled(s, e) && t in s.tasks && (e.Progress? ==> s.tasks[e.task].status.Waiting?) && t.status.Succeeded?
    ensures t in Step(s, e).tasks
  {
    if e.Progress? {
      var i :| 0 <= i < |s.tasks| && s.tasks[i] == t;
      assert Step(s, e).tasks[i] == t;
    }
  }

  /** So the task list itself shows it at the end of the cycle. */
  lemma ListProvesCycle(events: seq<Event>, e: Event)
    requires Possible(NEW_SYSTEM, events) && Final(events) && Enabled(Run(NEW_SYSTEM, events), e) && e.Poll?
    requires WorkOf(Step(Run(NEW_SYSTEM, events), e)).phase.Idle?
    ensures var s := Run(NEW_SYSTEM, events);
      var w := s.worker.value.work;
      && (exists t :: t in s.tasks && BackedUp(t, w.cycle, w.backupKey))
      && (exists t :: t in s.tasks && Verified(t, w.cycle, w.backupKey))
      && (w.drillDue ==> exists t :: t in s.tasks && Drilled(t, w.cycle, w.backupKey))
  {
    hide Run;
    CycleIsProven(events, e);
    forall t | t in Seen(events) && t.status.Succeeded? ensures t in Run(NEW_SYSTEM, events).tasks {
      SuccessStays(events, t);
    }
  }

  // ---------- what a poll leads to ----------

  /** The result the phase asks of its task. */
  predicate Proves(w: Work, status: Status) {
    status.Succeeded? && if w.phase.Backup? then SCHEME <= status.backupKey && status.destination == OBJECT else status.proven
  }

  /** A poll of the pending task whose save succeeds. A waiting task changes nothing; an ended one is prepared to be retried under its
      identity; a success that proves too little raises an error and changes nothing; any other moves on: from backup to the verification of
      its key, to a drill if one is due, and else to the end of the cycle. */
  lemma PollIsExact(s: System, i: nat, now: real, interval: real)
    requires Safe(s) && Enabled(s, Poll(i, now, interval, Saved)) && s.tasks[i].request == s.worker.value.work.pending.value.request
    ensures var t := Step(s, Poll(i, now, interval, Saved));
      var w, status := s.worker.value.work, s.tasks[i].status;
      && (status.Waiting? ==> t == s)
      && (status.Ended? ==> t == s.(worker := Some(Running(w.(pending := Some(Pending(w.pending.value.request.(retryOf := s.tasks[i].id), Prepared, ""))), Failing))))
      && (status.Succeeded? && !Proves(w, status) ==> t == s.(worker := Some(Running(w, Failing))))
      && (Proves(w, status) && w.phase.Backup? ==>
            var next := w.(backupKey := status.backupKey, backupVersion := status.version, phase := Verify,
              pending := Some(Pending(Request(TenantRestoreDrill, Params(w.cycle, Verify, "", status.backupKey, true, true), ""), Prepared, "")));
            t == s.(disk := next, worker := Some(Running(next, Ready))))
      && (Proves(w, status) && w.phase.Verify? && w.drillDue ==>
            var next := w.(phase := Drill, pending := Some(Pending(Request(TenantRestoreDrill, Params(w.cycle, Drill, "", w.backupKey, true, false), ""), Prepared, "")));
            t == s.(disk := next, worker := Some(Running(next, Ready))))
      && (Proves(w, status) && w.phase.Verify? && !w.drillDue ==>
            t == s.(disk := w.(phase := Idle, pending := None, failures := 0, lastSuccess := now, nextRun := now + interval), worker := None))
      && (Proves(w, status) && w.phase.Drill? ==>
            t == s.(disk := w.(phase := Idle, pending := None, failures := 0, lastSuccess := now, lastDrill := now, nextRun := now + interval), worker := None))
  {
    hide Clean, Unique;
  }

  // ---------- a cycle can finish ----------

  lemma RunThen(s: System, events: seq<Event>, e: Event)
    requires Possible(s, events) && Enabled(Run(s, events), e)
    ensures Possible(s, events + [e]) && Run(s, events + [e]) == Step(Run(s, events), e)
  {
    assert (events + [e])[..|events|] == events;
  }

  /** The worker is about to submit a request for the first time. */
  predicate Submitting(s: System, w: Work) {
    s.worker == Some(Running(w, Ready)) && w.pending.Some? && w.pending.value.outcome.Prepared?
  }

  /** The identity was never used. */
  ghost predicate Unused(s: System, id: string) {
    id != "" && (forall i :: 0 <= i < |s.tasks| ==> s.tasks[i].id != id) && forall slot :: slot in s.spent ==> slot.retryOf != id
  }

  /** The state when the pending request has become a task that ended so. */
  function Served(s: System, w: Work, id: string, status: Status): System
    requires w.pending.Some?
  {
    var next := Taken(w.(pending := Some(w.pending.value.(outcome := Unknown))), id);
    var request := w.pending.value.request;
    s.(disk := next, worker := Some(Running(next, Ready)), tasks := s.tasks + [Task(id, request, status)], spent := s.spent + {SlotOf(request)})
  }

  /** The request is under way, and the worker waits for the response. */
  function Flying(s: System, w: Work): System
    requires w.pending.Some?
  {
    var next, request := w.(pending := Some(w.pending.value.(outcome := Unknown))), w.pending.value.request;
    s.(disk := next, worker := Some(Running(next, Sent)), flying := s.flying + multiset{request}, spent := s.spent + {SlotOf(request)})
  }

  lemma Submits(start: System, events: seq<Event>, w: Work) returns (longer: seq<Event>)
    requires Possible(start, events) && Safe(Run(start, events)) && Submitting(Run(start, events), w)
    ensures Possible(start, longer) && Run(start, longer) == Flying(Run(start, events), w) && Safe(Run(start, longer))
  {
    hide Run, Possible, Safe;
    RunThen(start, events, Submit(Saved));
    SubmitKeepsSafe(Run(start, events), Saved);
    var submitted := events + [Submit(Saved)];
    RunThen(start, submitted, Send);
    SendKeepsSafe(Run(start, submitted));
    longer := submitted + [Send];
  }

  /** The server has executed the request. */
  function Made(s: System, w: Work, id: string): System
    requires w.pending.Some?
  {
    var next, request := w.(pending := Some(w.pending.value.(outcome := Unknown))), w.pending.value.request;
    s.(disk := next, worker := Some(Running(next, Sent)), tasks := s.tasks + [Task(id, request, Waiting)], spent := s.spent + {SlotOf(request)})
  }

  lemma Executes(start: System, events: seq<Event>, s: System, w: Work, id: string) returns (longer: seq<Event>)
    requires w.pending.Some? && Possible(start, events) && Run(start, events) == Flying(s, w) && Safe(Run(start, events)) && Unused(s, id)
    requires w.pending.value.request.retryOf != id
    ensures Possible(start, longer) && Run(start, longer) == Made(s, w, id) && Safe(Run(start, longer))
  {
    hide Run, Possible, Safe, SlotOf, Unused;
    StaysNew(s, w, id);
    var request := w.pending.value.request;
    RunThen(start, events, Execute(request, id));
    StepKeepsSafe(Run(start, events), Execute(request, id));
    longer := events + [Execute(request, id)];
    assert s.flying + multiset{request} - multiset{request} == s.flying;
  }

  lemma Answers(start: System, events: seq<Event>, s: System, w: Work, id: string, status: Status) returns (longer: seq<Event>)
    requires w.pending.Some? && Possible(start, events) && Run(start, events) == Made(s, w, id) && Safe(Run(start, events))
    ensures Possible(start, longer) && Run(start, longer) == Served(s, w, id, status) && Safe(Run(start, longer))
  {
    hide Run, Possible, Safe, SlotOf;
    var n, request := |s.tasks|, w.pending.value.request;
    RunThen(start, events, Answer(n, Saved));
    StepKeepsSafe(Run(start, events), Answer(n, Saved));
    var answered := events + [Answer(n, Saved)];
    RunThen(start, answered, Progress(n, status));
    StepKeepsSafe(Run(start, answered), Progress(n, status));
    longer := answered + [Progress(n, status)];
    assert Run(start, longer).tasks == s.tasks + [Task(id, request, status)];
  }

  lemma StaysNew(s: System, w: Work, id: string)
    requires w.pending.Some? && Unused(s, id) && w.pending.value.request.retryOf != id
    ensures Enabled(Flying(s, w), Execute(w.pending.value.request, id))
  {
  }

  /** A submission that goes well: the request becomes a task, which ends so. */
  lemma Serves(start: System, events: seq<Event>, w: Work, id: string, status: Status) returns (longer: seq<Event>)
    requires Possible(start, events) && Safe(Run(start, events)) && Submitting(Run(start, events), w) && Unused(Run(start, events), id)
    requires w.pending.value.request.retryOf != id
    ensures Possible(start, longer) && Run(start, longer) == Served(Run(start, events), w, id, status) && Safe(Run(start, longer))
  {
    hide Run, Possible, Safe, Unused, Flying, Made, Served;
    var flying := Submits(start, events, w);
    var made := Executes(start, flying, Run(start, events), w, id);
    longer := Answers(start, made, Run(start, events), w, id, status);
  }

  /** The poll of the task just served. */
  lemma Polls(start: System, events: seq<Event>, s: System, w: Work, id: string, status: Status, now: real, interval: real) returns (longer: seq<Event>)
    requires w.pending.Some? && Possible(start, events) && Run(start, events) == Served(s, w, id, status) && Safe(Run(start, events))
    requires Validates(w) && Proves(w, status) && now >= 0.0 && interval >= 0.0
    ensures Possible(start, longer) && Safe(Run(start, longer))
    ensures var t, served := Run(start, longer), Served(s, w, id, status);
      && t.tasks == served.tasks && t.spent == served.spent && t.flying == served.flying
      && (w.phase.Backup? ==> Submitting(t, PreparedFor(w.(backupKey := status.backupKey, backupVersion := status.version), Verify)))
      && (w.phase.Verify? && w.drillDue ==> Submitting(t, PreparedFor(w, Drill)))
      && (w.phase.Drill? || (w.phase.Verify? && !w.drillDue) ==> t.worker.None? && t.disk.phase.Idle? && t.disk.lastSuccess == now && t.disk.nextRun == now + interval && t.disk.failures == 0)
  {
    hide Run, Possible, Safe, Unused, Clean, Unique;
    var n := |s.tasks|;
    RunThen(start, events, Poll(n, now, interval, Saved));
    StepKeepsSafe(Run(start, events), Poll(n, now, interval, Saved));
    longer := events + [Poll(n, now, interval, Saved)];
  }

  /** Two identities, or three, that were never used stay so but for the one that is. */
  lemma StillUnused(s: System, w: Work, id: string, status: Status, other: string)
    requires w.pending.Some? && Unused(s, other) && other != id && w.pending.value.request.retryOf != other
    ensures Unused(Served(s, w, id, status), other)
  {
  }

  lemma UnusedSame(s: System, t: System, id: string)
    requires Unused(s, id) && t.tasks == s.tasks && t.spent == s.spent
    ensures Unused(t, id)
  {
  }

  /** From every safe state in which an idle worker is due, a cycle can run to its end: a backup, its verification, and a drill if one
      is due, each once; the worker then rests until the interval has passed. */
  lemma CycleCompletes(start: System, cycle: string, drillDue: bool, key: string, version: nat, ids: seq<string>, now: real, interval: real) returns (events: seq<Event>)
    requires Safe(start) && Enabled(start, NewCycle(cycle, drillDue, Saved)) && SCHEME <= key && now >= 0.0 && interval >= 0.0
    requires |ids| == 3 && Unused(start, ids[0]) && Unused(start, ids[1]) && Unused(start, ids[2])
    requires ids[0] != ids[1] && ids[0] != ids[2] && ids[1] != ids[2] && "" !in ids
    ensures Possible(start, events)
    ensures var t := Run(start, events);
      && t.worker.None? && t.disk.phase.Idle? && t.disk.lastSuccess == now && t.disk.nextRun == now + interval && t.disk.failures == 0
      && |t.tasks| == |start.tasks| + if drillDue then 3 else 2
  {
    hide Possible, Safe, Unused, Served, Run, Proves, Validates;
    Starts(start);
    RunThen(start, [], NewCycle(cycle, drillDue, Saved));
    StepKeepsSafe(start, NewCycle(cycle, drillDue, Saved));
    events := [] + [NewCycle(cycle, drillDue, Saved)];
    var w := PreparedFor(start.worker.value.work.(cycle := cycle, drillDue := drillDue), Backup);
    forall id | id in ids ensures Unused(Run(start, events), id) {
      UnusedSame(start, Run(start, events), id);
    }
    assert ids[0] in ids && ids[1] in ids && ids[2] in ids;
    events := Phases(start, events, w, key, version, ids, now, interval);
  }

  lemma Starts(start: System)
    ensures Possible(start, []) && Run(start, []) == start
  {
  }

  lemma Phases(start: System, events: seq<Event>, w: Work, key: string, version: nat, ids: seq<string>, now: real, interval: real) returns (longer: seq<Event>)
    requires Possible(start, events) && Safe(Run(start, events)) && Submitting(Run(start, events), w) && w == PreparedFor(w, Backup)
    requires SCHEME <= key && now >= 0.0 && interval >= 0.0
    requires |ids| == 3 && forall i :: 0 <= i < 3 ==> Unused(Run(start, events), ids[i])
    requires ids[0] != ids[1] && ids[0] != ids[2] && ids[1] != ids[2] && "" !in ids
    ensures Possible(start, longer)
    ensures var t := Run(start, longer);
      && t.worker.None? && t.disk.phase.Idle? && t.disk.lastSuccess == now && t.disk.nextRun == now + interval && t.disk.failures == 0
      && |t.tasks| == |Run(start, events).tasks| + if w.drillDue then 3 else 2
  {
    hide Possible, Safe, Unused, Run, Validates;
    var status := Status.Succeeded(key, version, OBJECT, true);
    var s := Run(start, events);
    WorkerIsValid(s, w);
    longer := Serves(start, events, w, ids[0], status);
    StillUnused(s, w, ids[0], status, ids[1]);
    StillUnused(s, w, ids[0], status, ids[2]);
    var polled := Polls(start, longer, s, w, ids[0], status, now, interval);
    var t := Run(start, polled);
    UnusedSame(Served(s, w, ids[0], status), t, ids[1]);
    UnusedSame(Served(s, w, ids[0], status), t, ids[2]);
    var v := PreparedFor(w.(backupKey := key, backupVersion := version), Verify);
    WorkerIsValid(t, v);
    longer := Serves(start, polled, v, ids[1], status);
    StillUnused(t, v, ids[1], status, ids[2]);
    polled := Polls(start, longer, t, v, ids[1], status, now, interval);
    longer := polled;
    if w.drillDue {
      var u := Run(start, polled);
      UnusedSame(Served(t, v, ids[1], status), u, ids[2]);
      var d := PreparedFor(v, Drill);
      WorkerIsValid(u, d);
      longer := Serves(start, polled, d, ids[2], status);
      longer := Polls(start, longer, u, d, ids[2], status, now, interval);
    }
  }

  lemma WorkerIsValid(s: System, w: Work)
    requires Safe(s) && s.worker.Some? && s.worker.value.work == w
    ensures Validates(w)
  {
  }
}
