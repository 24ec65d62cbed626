/** The backup worker's durable submissions: crashes, lost responses and failed writes may come between
    any two of its steps (scripts/backup_automation.py). */
module Backups {
  import opened GraphModel

  datatype Phase = Idle | Backup | Verify | Drill

  /** The task input. */
  datatype Params = Params(cycle: string, phase: Phase, destination: string, backupKey: string, cleanup: bool, dryRun: bool)

  datatype TaskType = TenantBackup | TenantRestoreDrill

  /** A submission: a fresh start, or a retry of an earlier task. */
  datatype Request = Request(typ: TaskType, params: Params, retryOf: string)

  datatype Outcome = Prepared | Unknown | Accepted

  datatype Pending = Pending(request: Request, outcome: Outcome, taskId: string)

  /** The persisted state. */
  datatype Work = Work(
    phase: Phase,
    cycle: string,
    pending: Option<Pending>,
    backupKey: string,
    backupVersion: int,
    drillDue: bool,
    nextRun: real,
    lastSuccess: real,
    lastDrill: real,
    failures: int)

  const OBJECT := "object"
  const SCHEME := "s3://"
  const MAX_FAILURES: nat := 64

  /** validate_state, for a state with the worker's own schema and identity. */
  predicate Validates(w: Work) {
    && w.nextRun >= 0.0 && w.lastSuccess >= 0.0 && w.lastDrill >= 0.0
    && 0 <= w.failures <= MAX_FAILURES
    && (w.phase.Idle? <==> w.pending.None?)
    && (w.pending.Some? ==>
          var p := w.pending.value;
          && w.cycle != ""
          && p.request.typ == (if w.phase.Backup? then TenantBackup else TenantRestoreDrill)
          && p.request.params.cycle == w.cycle && p.request.params.phase == w.phase
          && (p.outcome.Accepted? <==> p.taskId != "")
          && if w.phase.Backup? then p.request.params.destination == OBJECT
             else
               && SCHEME <= w.backupKey && p.request.params.backupKey == w.backupKey
               && p.request.params.cleanup && (p.request.params.dryRun <==> w.phase.Verify?)
               && w.backupVersion >= 0)
  }

  /** The input prepare gives a phase. */
  function ParamsOf(w: Work, phase: Phase): Params {
    if phase.Backup? then Params(w.cycle, phase, OBJECT, "", false, false)
    else Params(w.cycle, phase, "", w.backupKey, true, phase.Verify?)
  }

  function PreparedFor(w: Work, phase: Phase): Work {
    w.(phase := phase, pending := Some(Pending(Request(if phase.Backup? then TenantBackup else TenantRestoreDrill, ParamsOf(w, phase), ""), Prepared, "")))
  }

  // ---------- the server ----------

  datatype Status = Waiting | Succeeded(backupKey: string, version: nat, destination: string, proven: bool) | Ended

  /** A task is what one submission created. */
  datatype Task = Task(id: string, request: Request, status: Status)

  /** What a submission is for: tasks must be unique per slot. */
  datatype Slot = Slot(cycle: string, phase: Phase, retryOf: string)

  function SlotOf(r: Request): Slot {
    Slot(r.params.cycle, r.params.phase, r.retryOf)
  }

  // ---------- the worker ----------

  /** Where a running worker is: at the top of run, about to look at its pending task, about to send,
      waiting for the response, or handling an error. */
  datatype Place = Begin | Ready | Sending | Sent | Failing

  datatype Running = Running(work: Work, place: Place)

  /** The disk, the process if one runs, the server's tasks, submissions still under way, and the slots
      of all submissions that were not definitely rejected. */
  datatype System = System(disk: Work, worker: Option<Running>, tasks: seq<Task>, flying: multiset<Request>, spent: set<Slot>)

  /** How a save ends: done, failed without effect, or failed after the file was replaced. */
  datatype Save = Saved | Lost | Torn

  function Persist(s: System, w: Work, next: Place, save: Save): System {
    s.(disk := if save.Lost? then s.disk else w, worker := Some(Running(w, if save.Saved? then next else Failing)))
  }

  datatype Event =
    | Crash
    | Start
    | Defer(save: Save)
    | NewCycle(cycle: string, drillDue: bool, save: Save)
    | Resume
    | Submit(save: Save)
    | Send
    | Answer(task: nat, save: Save)
    | Reject(save: Save)
    | NoAnswer
    | Recover(task: nat, save: Save)
    | RecoverFails
    | Poll(task: nat, now: real, interval: real, save: Save)
    | GiveUp
    | Fail(now: real, delay: real, save: Save)
    | Execute(request: Request, id: string)
    | Progress(task: nat, status: Status)

  function Finished(w: Work, now: real, interval: real): Work {
    w.(phase := Idle, pending := None, lastSuccess := now, nextRun := now + interval, failures := 0)
  }

  /** What a poll of a finished task leads to: an error, the next phase, or the end of the cycle. */
  function AfterSuccess(w: Work, status: Status, now: real, interval: real): (Work, Place)
    requires status.Succeeded?
  {
    match w.phase
    case Backup =>
      if !(SCHEME <= status.backupKey) || status.destination != OBJECT then (w, Failing)
      else (PreparedFor(w.(backupKey := status.backupKey, backupVersion := status.version), Verify), Ready)
    case Verify =>
      if !status.proven then (w, Failing)
      else if w.drillDue then (PreparedFor(w, Drill), Ready)
      else (Finished(w, now, interval), Begin)
    case _ =>
      if !status.proven then (w, Failing) else (Finished(w.(lastDrill := now), now, interval), Begin)
  }

  predicate At(s: System, place: Place) {
    s.worker.Some? && s.worker.value.place == place
  }

  predicate Waits(s: System, place: Place, outcome: Outcome) {
    At(s, place) && s.worker.value.work.pending.Some? && s.worker.value.work.pending.value.outcome == outcome
  }

  predicate Enabled(s: System, e: Event) {
    match e
    case Crash => true
    case Start => s.worker.None? && Validates(s.disk)
    case Defer(_) => At(s, Begin)
    case NewCycle(cycle, _, _) =>
      // A fresh UUID.
      && At(s, Begin) && s.worker.value.work.phase.Idle? && cycle != ""
      && forall slot :: slot in s.spent ==> slot.cycle != cycle
    case Resume => At(s, Begin) && !s.worker.value.work.phase.Idle?
    case Submit(_) => Waits(s, Ready, Prepared)
    case Send => At(s, Sending) && s.worker.value.work.pending.Some?
    case Answer(i, _) =>
      // The response to the submission names the task it created.
      Waits(s, Sent, Unknown) && i < |s.tasks| && s.tasks[i].request == s.worker.value.work.pending.value.request
    case Reject(_) =>
      // A definite rejection means that no task was created and none will be.
      Waits(s, Sent, Unknown) && s.worker.value.work.pending.value.request in s.flying
    case NoAnswer => At(s, Sent)
    case Recover(i, _) =>
      // A listing that shows exactly one matching task.
      Waits(s, Ready, Unknown) && i < |s.tasks| && s.tasks[i].request == s.worker.value.work.pending.value.request
    case RecoverFails => Waits(s, Ready, Unknown)
    case Poll(i, now, interval, _) =>
      Waits(s, Ready, Accepted) && i < |s.tasks| && s.tasks[i].id == s.worker.value.work.pending.value.taskId && now >= 0.0 && interval >= 0.0
    case GiveUp => At(s, Ready)
    case Fail(now, delay, _) => At(s, Failing) && now >= 0.0 && delay >= 0.0
    case Execute(request, id) =>
      // The server gives every task a new identity.
      request in s.flying && id != "" && (forall i :: 0 <= i < |s.tasks| ==> s.tasks[i].id != id) && forall slot :: slot in s.spent ==> slot.retryOf != id
    case Progress(i, _) => i < |s.tasks|
  }

  function Polled(s: System, w: Work, task: Task, now: real, interval: real, save: Save): System
    requires w.pending.Some?
  {
    if task.request != w.pending.value.request then s.(worker := Some(Running(w, Failing)))
    else
      match task.status
      case Waiting => s
      case Ended =>
        // The retry is prepared in memory; the error handler persists it.
        s.(worker := Some(Running(w.(pending := Some(Pending(w.pending.value.request.(retryOf := task.id), Prepared, ""))), Failing)))
      case Succeeded(_, _, _, _) =>
        var (next, place) := AfterSuccess(w, task.status, now, interval);
        if place.Failing? then s.(worker := Some(Running(next, Failing)))
        else if place.Begin? && save.Saved? then s.(disk := next, worker := None)
        else Persist(s, next, place, save)
  }

  /** A definite rejection. */
  function Turned(s: System, w: Work, save: Save): System
    requires w.pending.Some?
  {
    var request := w.pending.value.request;
    var t := s.(flying := s.flying - multiset{request}, spent := s.spent - {SlotOf(request)});
    Persist(t, w.(pending := Some(w.pending.value.(outcome := Prepared))), Failing, save)
  }

  function Executed(s: System, request: Request, id: string): System {
    s.(flying := s.flying - multiset{request}, tasks := s.tasks + [Task(id, request, Waiting)])
  }

  function Step(s: System, e: Event): System
    requires Enabled(s, e)
  {
    match e
    case Crash => s.(worker := None)
    case Start => s.(worker := Some(Running(s.disk, Begin)))
    case Defer(save) => if save.Saved? then s.(disk := s.worker.value.work, worker := None) else Persist(s, s.worker.value.work, Begin, save)
    case NewCycle(cycle, drillDue, save) =>
      Persist(s, PreparedFor(s.worker.value.work.(cycle := cycle, drillDue := drillDue), Backup), Ready, save)
    case Resume => s.(worker := Some(s.worker.value.(place := Ready)))
    case Submit(save) =>
      // Unknown is on disk before the request goes out.
      var w := s.worker.value.work;
      Persist(s, w.(pending := Some(w.pending.value.(outcome := Unknown))), Sending, save)
    case Send =>
      var request := s.worker.value.work.pending.value.request;
      s.(worker := Some(s.worker.value.(place := Sent)), flying := s.flying + multiset{request}, spent := s.spent + {SlotOf(request)})
    case Answer(i, save) => Persist(s, Taken(s.worker.value.work, s.tasks[i].id), Ready, save)
    case Reject(save) => Turned(s, s.worker.value.work, save)
    case NoAnswer => s.(worker := Some(s.worker.value.(place := Failing)))
    case Recover(i, save) => Persist(s, Taken(s.worker.value.work, s.tasks[i].id), Ready, save)
    case RecoverFails => s.(worker := Some(s.worker.value.(place := Failing)))
    case Poll(i, now, interval, save) => Polled(s, s.worker.value.work, s.tasks[i], now, interval, save)
    case GiveUp => s.(worker := Some(s.worker.value.(place := Failing)))
    case Fail(now, delay, save) =>
      var w := s.worker.value.work;
      var next := w.(failures := if w.failures + 1 < MAX_FAILURES then w.failures + 1 else MAX_FAILURES, nextRun := now + delay);
      if save.Lost? then s.(worker := None) else s.(disk := next, worker := None)
    case Execute(request, id) => Executed(s, request, id)
    case Progress(i, status) => s.(tasks := s.tasks[i := s.tasks[i].(status := status)])
  }

  /** The submission is known to be the task. */
  function Taken(w: Work, id: string): Work
    requires w.pending.Some?
  {
    w.(pending := Some(w.pending.value.(outcome := Accepted, taskId := id)))
  }

  // ---------- what every step keeps ----------

  function Rank(p: Phase): nat {
    match p
    case Idle => 0
    case Backup => 1
    case Verify => 2
    case Drill => 3
  }

  /** The submissions a state can still lead to were never made. */
  ghost predicate Clean(w: Work, tasks: seq<Task>, spent: set<Slot>) {
    w.pending.Some? ==>
      var p := w.pending.value;
      && (p.outcome.Prepared? ==> SlotOf(p.request) !in spent)
      && (p.outcome.Accepted? ==> exists i :: 0 <= i < |tasks| && tasks[i].id == p.taskId && SlotOf(tasks[i].request) == SlotOf(p.request))
      && (forall slot :: slot in spent && slot.cycle == w.cycle ==> Rank(slot.phase) <= Rank(w.phase))
      && (forall i :: 0 <= i < |tasks| && SlotOf(tasks[i].request) == SlotOf(p.request) ==> Slot(w.cycle, w.phase, tasks[i].id) !in spent)
  }

  /** Every submission, made or under way, has a slot to itself. */
  ghost predicate Unique(s: System) {
    TasksUnique(s.tasks, s.spent) && FlyingUnique(s.flying, s.tasks, s.spent)
  }

  ghost predicate TasksUnique(tasks: seq<Task>, spent: set<Slot>) {
    && (forall i, j :: 0 <= i < j < |tasks| ==> SlotOf(tasks[i].request) != SlotOf(tasks[j].request) && tasks[i].id != tasks[j].id)
    && (forall i :: 0 <= i < |tasks| ==> SlotOf(tasks[i].request) in spent && tasks[i].id != "")
  }

  ghost predicate FlyingUnique(flying: multiset<Request>, tasks: seq<Task>, spent: set<Slot>) {
    && (forall r :: r in flying ==> SlotOf(r) in spent && flying[r] == 1 && NoTaskHas(tasks, SlotOf(r)))
    && (forall r, q :: r in flying && q in flying && r != q ==> SlotOf(r) != SlotOf(q))
  }

  /** No task has the slot. */
  ghost predicate NoTaskHas(tasks: seq<Task>, slot: Slot) {
    forall i :: 0 <= i < |tasks| ==> SlotOf(tasks[i].request) != slot
  }

  ghost predicate Safe(s: System) {
    && Validates(s.disk) && Clean(s.disk, s.tasks, s.spent) && Unique(s)
    && (s.worker.Some? ==>
          var w, place := s.worker.value.work, s.worker.value.place;
          && Validates(w) && Clean(w, s.tasks, s.spent)
          && (place.Ready? || place.Sending? || place.Sent? ==> w.pending.Some?)
          && (place.Sending? ==> s.disk == w && w.pending.value.outcome.Unknown? && SlotOf(w.pending.value.request) !in s.spent)
          && (place.Sent? ==> s.disk == w && w.pending.value.outcome.Unknown?))
  }

  lemma CleanWithLess(w: Work, tasks: seq<Task>, spent: set<Slot>, less: set<Slot>)
    requires Clean(w, tasks, spent) && less <= spent
    ensures Clean(w, tasks, less)
  {
  }

  lemma PreparedIsClean(w: Work, phase: Phase, tasks: seq<Task>, spent: set<Slot>)
    requires !phase.Idle? && forall i :: 0 <= i < |tasks| ==> SlotOf(tasks[i].request) in spent
    requires forall slot :: slot in spent && slot.cycle == w.cycle ==> Rank(slot.phase) < Rank(phase)
    ensures Clean(PreparedFor(w, phase), tasks, spent)
  {
  }

  /** A state saved, or an error raised instead, with the rest of the system as it was. */
  lemma PersistKeepsSafe(s: System, w: Work, next: Place, save: Save)
    requires Safe(s) && Validates(w) && Clean(w, s.tasks, s.spent) && !next.Sending? && !next.Sent? && (next.Ready? ==> w.pending.Some?)
    ensures Safe(Persist(s, w, next, save))
  {
  }

  lemma SubmitKeepsSafe(s: System, save: Save)
    requires Safe(s) && Enabled(s, Submit(save))
    ensures Safe(Step(s, Submit(save)))
  {
  }

  lemma SendKeepsSafe(s: System)
    requires Safe(s) && Enabled(s, Send)
    ensures Safe(Step(s, Send))
  {
    var w := s.worker.value.work;
    var request, after := w.pending.value.request, Step(s, Send);
    var slot := SlotOf(request);
    forall i | 0 <= i < |s.tasks| ensures SlotOf(s.tasks[i].request) != slot {
      assert SlotOf(s.tasks[i].request) in s.spent;
    }
    assert slot == Slot(w.cycle, w.phase, request.retryOf);
    assert Clean(w, after.tasks, after.spent);
    assert request !in s.flying;
  }

  lemma AnswerKeepsSafe(s: System, i: nat, save: Save)
    requires Safe(s) && s.worker.Some? && s.worker.value.work.pending.Some? && i < |s.tasks|
    requires s.tasks[i].request == s.worker.value.work.pending.value.request
    ensures Safe(Persist(s, Taken(s.worker.value.work, s.tasks[i].id), Ready, save))
  {
    PersistKeepsSafe(s, Taken(s.worker.value.work, s.tasks[i].id), Ready, save);
  }

  lemma TurnedIsClean(w: Work, tasks: seq<Task>, spent: set<Slot>)
    requires Validates(w) && Clean(w, tasks, spent) && w.pending.Some? && w.pending.value.outcome.Unknown? && SlotOf(w.pending.value.request) !in spent
    ensures var next := w.(pending := Some(w.pending.value.(outcome := Prepared))); Validates(next) && Clean(next, tasks, spent)
  {
  }

  lemma RejectKeepsSafe(s: System, w: Work, save: Save)
    requires Safe(s) && s.worker.Some? && s.worker.value.work == w && w.pending.Some? && w.pending.value.outcome.Unknown?
    requires w.pending.value.request in s.flying
    ensures Safe(Turned(s, w, save))
  {
    var request := w.pending.value.request;
    var t := s.(flying := s.flying - multiset{request}, spent := s.spent - {SlotOf(request)}, worker := None);
    CleanWithLess(s.disk, s.tasks, s.spent, t.spent);
    CleanWithLess(w, s.tasks, s.spent, t.spent);
    FlyingTurned(s.flying, s.tasks, s.spent, request);
    TurnedIsClean(w, s.tasks, t.spent);
    hide Validates, Clean, TasksUnique, FlyingUnique;
    assert Safe(t);
    PersistKeepsSafe(t, w.(pending := Some(w.pending.value.(outcome := Prepared))), Failing, save);
  }

  lemma SuccessIsClean(w: Work, status: Status, now: real, interval: real, tasks: seq<Task>, spent: set<Slot>)
    requires status.Succeeded? && Validates(w) && w.pending.Some? && Clean(w, tasks, spent) && now >= 0.0 && interval >= 0.0
    requires forall i :: 0 <= i < |tasks| ==> SlotOf(tasks[i].request) in spent
    ensures var (next, place) := AfterSuccess(w, status, now, interval);
      && Validates(next) && Clean(next, tasks, spent)
      && (place.Failing? || place.Begin? || (place.Ready? && next.pending.Some?))
  {
    if w.phase.Backup? {
      PreparedIsClean(w.(backupKey := status.backupKey, backupVersion := status.version), Verify, tasks, spent);
    } else if w.phase.Verify? {
      PreparedIsClean(w, Drill, tasks, spent);
    }
  }

  lemma RetryIsClean(w: Work, task: Task, tasks: seq<Task>, spent: set<Slot>)
    requires Validates(w) && w.pending.Some? && Clean(w, tasks, spent) && task in tasks && task.request == w.pending.value.request && task.id != ""
    requires forall i :: 0 <= i < |tasks| ==> SlotOf(tasks[i].request) in spent
    ensures var next := w.(pending := Some(Pending(w.pending.value.request.(retryOf := task.id), Prepared, "")));
      Validates(next) && Clean(next, tasks, spent)
  {
    assert Slot(w.cycle, w.phase, task.id) !in spent;
  }

  /** The end of a cycle: the state is on disk and the worker is done. */
  lemma EndKeepsSafe(s: System, w: Work)
    requires Safe(s) && Validates(w) && Clean(w, s.tasks, s.spent)
    ensures Safe(s.(disk := w, worker := None))
  {
  }

  lemma RaiseKeepsSafe(s: System, w: Work)
    requires Safe(s) && Validates(w) && Clean(w, s.tasks, s.spent)
    ensures Safe(s.(worker := Some(Running(w, Failing))))
  {
  }

  lemma TasksKnown(s: System)
    requires Safe(s)
    ensures forall j :: 0 <= j < |s.tasks| ==> SlotOf(s.tasks[j].request) in s.spent && s.tasks[j].id != ""
    ensures s.worker.Some? ==> Validates(s.worker.value.work) && Clean(s.worker.value.work, s.tasks, s.spent)
  {
  }

  lemma PollKeepsSafe(s: System, w: Work, task: Task, now: real, interval: real, save: Save)
    requires Safe(s) && s.worker.Some? && s.worker.value.work == w && w.pending.Some? && task in s.tasks && now >= 0.0 && interval >= 0.0
    ensures Safe(Polled(s, w, task, now, interval, save))
  {
    TasksKnown(s);
    hide Safe, Validates, Clean, AfterSuccess, Persist;
    RaiseKeepsSafe(s, w);
    if task.request == w.pending.value.request {
      if task.status.Succeeded? {
        SuccessIsClean(w, task.status, now, interval, s.tasks, s.spent);
        var (next, place) := AfterSuccess(w, task.status, now, interval);
        RaiseKeepsSafe(s, next);
        EndKeepsSafe(s, next);
        PersistKeepsSafe(s, next, place, save);
      } else if task.status.Ended? {
        RetryIsClean(w, task, s.tasks, s.spent);
        RaiseKeepsSafe(s, w.(pending := Some(Pending(w.pending.value.request.(retryOf := task.id), Prepared, ""))));
      }
    }
  }

  lemma FlyingLess(flying: multiset<Request>, request: Request)
    requires request in flying && forall r :: r in flying ==> flying[r] == 1
    ensures forall r :: r in flying - multiset{request} <==> r in flying && r != request
    ensures forall r :: r in flying - multiset{request} ==> (flying - multiset{request})[r] == 1
  {
  }

  lemma TaskComes(flying: multiset<Request>, tasks: seq<Task>, spent: set<Slot>, task: Task)
    requires TasksUnique(tasks, spent) && FlyingUnique(flying, tasks, spent) && task.request in flying && task.id != ""
    requires forall i :: 0 <= i < |tasks| ==> tasks[i].id != task.id
    ensures TasksUnique(tasks + [task], spent)
  {
    assert NoTaskHas(tasks, SlotOf(task.request));
    hide SlotOf, FlyingUnique;
  }

  lemma FlyingLands(flying: multiset<Request>, tasks: seq<Task>, spent: set<Slot>, task: Task)
    requires FlyingUnique(flying, tasks, spent) && task.request in flying
    ensures FlyingUnique(flying - multiset{task.request}, tasks + [task], spent)
  {
    var less, longer := flying - multiset{task.request}, tasks + [task];
    FlyingLess(flying, task.request);
    forall r | r in less ensures NoTaskHas(longer, SlotOf(r)) {
      assert NoTaskHas(tasks, SlotOf(r)) && SlotOf(r) != SlotOf(task.request);
    }
    hide SlotOf, NoTaskHas;
  }

  lemma FlyingTurned(flying: multiset<Request>, tasks: seq<Task>, spent: set<Slot>, request: Request)
    requires FlyingUnique(flying, tasks, spent) && request in flying && TasksUnique(tasks, spent)
    ensures FlyingUnique(flying - multiset{request}, tasks, spent - {SlotOf(request)}) && TasksUnique(tasks, spent - {SlotOf(request)})
  {
    FlyingLess(flying, request);
    assert NoTaskHas(tasks, SlotOf(request));
    hide SlotOf;
  }

  lemma ExecuteKeepsSafe(s: System, request: Request, id: string)
    requires Safe(s) && request in s.flying && id != "" && forall i :: 0 <= i < |s.tasks| ==> s.tasks[i].id != id
    requires forall slot :: slot in s.spent ==> slot.retryOf != id
    ensures Safe(Executed(s, request, id))
  {
    TaskComes(s.flying, s.tasks, s.spent, Task(id, request, Waiting));
    FlyingLands(s.flying, s.tasks, s.spent, Task(id, request, Waiting));
    CleanWithMore(s.disk, s.tasks, s.spent, Task(id, request, Waiting));
    if s.worker.Some? {
      CleanWithMore(s.worker.value.work, s.tasks, s.spent, Task(id, request, Waiting));
    }
    hide Validates, Clean, TasksUnique, FlyingUnique;
  }

  lemma CleanWithMore(w: Work, tasks: seq<Task>, spent: set<Slot>, task: Task)
    requires Clean(w, tasks, spent) && forall slot :: slot in spent ==> slot.retryOf != task.id
    ensures Clean(w, tasks + [task], spent)
  {
    var longer := tasks + [task];
    if w.pending.Some? && w.pending.value.outcome.Accepted? {
      var i :| 0 <= i < |tasks| && tasks[i].id == w.pending.value.taskId && SlotOf(tasks[i].request) == SlotOf(w.pending.value.request);
      assert longer[i] == tasks[i];
    }
  }

  lemma ProgressKeepsSafe(s: System, i: nat, status: Status)
    requires Safe(s) && i < |s.tasks|
    ensures Safe(Step(s, Progress(i, status)))
  {
    var after := Step(s, Progress(i, status));
    assert forall j :: 0 <= j < |s.tasks| ==> after.tasks[j].id == s.tasks[j].id && after.tasks[j].request == s.tasks[j].request;
    CleanProgress(s.disk, s.tasks, after.tasks, s.spent);
    if s.worker.Some? {
      CleanProgress(s.worker.value.work, s.tasks, after.tasks, s.spent);
    }
    forall r | r in s.flying ensures NoTaskHas(after.tasks, SlotOf(r)) {
      assert NoTaskHas(s.tasks, SlotOf(r));
    }
  }

  lemma CleanProgress(w: Work, tasks: seq<Task>, after: seq<Task>, spent: set<Slot>)
    requires Clean(w, tasks, spent) && |after| == |tasks|
    requires forall j :: 0 <= j < |tasks| ==> after[j].id == tasks[j].id && after[j].request == tasks[j].request
    ensures Clean(w, after, spent)
  {
    if w.pending.Some? && w.pending.value.outcome.Accepted? {
      var i :| 0 <= i < |tasks| && tasks[i].id == w.pending.value.taskId && SlotOf(tasks[i].request) == SlotOf(w.pending.value.request);
      assert after[i].id == tasks[i].id;
    }
  }

  lemma NewCycleKeepsSafe(s: System, cycle: string, drillDue: bool, save: Save)
    requires Safe(s) && Enabled(s, NewCycle(cycle, drillDue, save))
    ensures Safe(Step(s, NewCycle(cycle, drillDue, save)))
  {
    var w := s.worker.value.work.(cycle := cycle, drillDue := drillDue);
    PreparedIsClean(w, Backup, s.tasks, s.spent);
    PersistKeepsSafe(s, PreparedFor(w, Backup), Ready, save);
  }

  lemma DeferKeepsSafe(s: System, save: Save)
    requires Safe(s) && Enabled(s, Defer(save))
    ensures Safe(Step(s, Defer(save)))
  {
    PersistKeepsSafe(s, s.worker.value.work, Begin, save);
  }

  lemma OtherStepsKeepSafe(s: System, e: Event)
    requires Safe(s) && Enabled(s, e) && (e.Crash? || e.Start? || e.Resume? || e.NoAnswer? || e.RecoverFails? || e.GiveUp? || e.Fail?)
    ensures Safe(Step(s, e))
  {
  }

  lemma StepKeepsSafe(s: System, e: Event)
    requires Safe(s) && Enabled(s, e)
    ensures Safe(Step(s, e))
  {
    hide Safe, Clean, Unique, Validates, Polled, Turned, Executed, Persist;
    match e
    case Defer(save) => DeferKeepsSafe(s, save);
    case NewCycle(cycle, drillDue, save) => NewCycleKeepsSafe(s, cycle, drillDue, save);
    case Submit(save) => SubmitKeepsSafe(s, save);
    case Send => SendKeepsSafe(s);
    case Answer(i, save) => AnswerKeepsSafe(s, i, save);
    case Reject(save) => RejectKeepsSafe(s, s.worker.value.work, save);
    case Recover(i, save) => AnswerKeepsSafe(s, i, save);
    case Poll(i, now, interval, save) => PollKeepsSafe(s, s.worker.value.work, s.tasks[i], now, interval, save);
    case Execute(request, id) => ExecuteKeepsSafe(s, request, id);
    case Progress(i, status) => ProgressKeepsSafe(s, i, status);
    case _ => OtherStepsKeepSafe(s, e);
  }

  // ---------- runs ----------

  ghost predicate Possible(s: System, events: seq<Event>)
    decreases |events|, 0
  {
    events == [] || (Possible(s, events[..|events| - 1]) && Enabled(Run(s, events[..|events| - 1]), events[|events| - 1]))
  }

  ghost function Run(s: System, events: seq<Event>): System
    requires Possible(s, events)
    decreases |events|, 1
  {
    if events == [] then s else Step(Run(s, events[..|events| - 1]), events[|events| - 1])
  }

  const NEW_WORK := Work(Idle, "", None, "", 0, false, 0.0, 0.0, 0.0, 0)

  const NEW_SYSTEM := System(NEW_WORK, None, [], multiset{}, {})

  lemma {:induction false} EveryRunIsSafe(events: seq<Event>)
    requires Possible(NEW_SYSTEM, events)
    ensures Safe(Run(NEW_SYSTEM, events))
    decreases |events|
  {
    if events != [] {
      EveryRunIsSafe(events[..|events| - 1]);
      StepKeepsSafe(Run(NEW_SYSTEM, events[..|events| - 1]), events[|events| - 1]);
    }
  }

  /** Whatever crashes, losses and failed writes come in between, the server never has two tasks for one
      cycle, phase and retry. */
  lemma AtMostOneTask(events: seq<Event>, i: nat, j: nat)
    requires Possible(NEW_SYSTEM, events)
    requires var tasks := Run(NEW_SYSTEM, events).tasks; i < |tasks| && j < |tasks| && SlotOf(tasks[i].request) == SlotOf(tasks[j].request)
    ensures i == j
  {
    EveryRunIsSafe(events);
  }

  /** What is on disk always passes the worker's own validation, so a restart is never refused. */
  lemma RestartIsAccepted(events: seq<Event>)
    requires Possible(NEW_SYSTEM, events) && Run(NEW_SYSTEM, events).worker.None?
    ensures Enabled(Run(NEW_SYSTEM, events), Start)
  {
    EveryRunIsSafe(events);
  }
}
