/** The schedule store (packages/scheduler/src/index.ts): creating, updating and deleting schedules
    and running the due ones. Timestamps are moments in milliseconds; the order of their ISO texts
    is the order of the moments. */
module Scheduler {
  import opened Wrappers
  import opened Keyed
  import Payload
  import Sorting
  import Cron

  datatype Schedule = Schedule(
    id: string, name: string, cronExpression: string, timezone: string, jobType: string,
    payload: Payload.Fields, enabled: bool, lastRun: Option<int>, nextRun: Option<int>,
    createdBy: string, createdAt: int, updatedAt: int)

  /** A queued job. Its payload is `payload` with the entries `scheduleId` and `scheduledFor` set
      to the two fields of those names. */
  datatype Job = Job(
    jobType: string, payload: Payload.Fields, scheduleId: string, scheduledFor: int,
    createdBy: string, createdAt: int)

  datatype Level = Info | Warn

  datatype Event = Created(name: string) | Updated(name: string) | Deleted(name: string) | Triggered(jobType: string)

  datatype Log = Log(scheduleId: string, level: Level, event: Event, timestamp: int)

  datatype State = State(schedules: seq<Schedule>, logs: seq<Log>)

  datatype NewSchedule = NewSchedule(
    id: Option<string>, name: string, cronExpression: string, timezone: string, jobType: string,
    payload: Payload.Fields, enabled: bool, createdBy: string, createdAt: Option<int>)

  /** The fields a patch sets. A patched `nextRun` or `updatedAt` is always overwritten. */
  datatype Patch = Patch(
    name: Option<string>, cronExpression: Option<string>, timezone: Option<string>, jobType: Option<string>,
    payload: Option<Payload.Fields>, enabled: Option<bool>, lastRun: Option<Option<int>>)

  // ----- single records

  /** `generatedId` is the random id and `now` the clock, used where the input names neither. */
  function NewRecord(input: NewSchedule, generatedId: string, now: int, accepts: string -> bool): Schedule {
    var timestamp := OrElse(input.createdAt, now);
    Schedule(
      OrElse(input.id, generatedId), input.name, input.cronExpression, input.timezone, input.jobType,
      input.payload, input.enabled, None,
      if input.enabled then Cron.NextRun(input.cronExpression, Some(timestamp), input.timezone, accepts) else None,
      input.createdBy, timestamp, timestamp)
  }

  function Merged(existing: Schedule, patch: Patch, now: int, accepts: string -> bool): Schedule {
    var enabled := OrElse(patch.enabled, existing.enabled);
    var cronExpression := OrElse(patch.cronExpression, existing.cronExpression);
    var timezone := OrElse(patch.timezone, existing.timezone);
    existing.(
      name := OrElse(patch.name, existing.name),
      cronExpression := cronExpression,
      timezone := timezone,
      jobType := OrElse(patch.jobType, existing.jobType),
      payload := OrElse(patch.payload, existing.payload),
      enabled := enabled,
      lastRun := OrElse(patch.lastRun, existing.lastRun),
      updatedAt := now,
      nextRun :=
        if enabled then Cron.NextRun(cronExpression, Some(OrElse(existing.lastRun, now)), timezone, accepts) else None)
  }

  function Fired(schedule: Schedule, timestamp: int, accepts: string -> bool): Schedule {
    schedule.(
      lastRun := Some(timestamp),
      nextRun := Cron.NextRun(schedule.cronExpression, Some(timestamp), schedule.timezone, accepts),
      updatedAt := timestamp)
  }

  predicate IsDue(schedule: Schedule, timestamp: int) {
    schedule.enabled && schedule.nextRun.Some? && schedule.nextRun.value <= timestamp
  }

  function JobOf(schedule: Schedule, timestamp: int): Job
    requires schedule.nextRun.Some?
  {
    Job(schedule.jobType, schedule.payload, schedule.id, schedule.nextRun.value, "scheduler:" + schedule.id, timestamp)
  }

  // ----- the list of schedules

  function ScheduleId(s: Schedule): string { s.id }

  function DueOf(schedules: seq<Schedule>, timestamp: int): (due: seq<Schedule>)
    ensures forall s :: s in due <==> s in schedules && IsDue(s, timestamp)
  {
    if schedules == [] then []
    else (if IsDue(schedules[0], timestamp) then [schedules[0]] else []) + DueOf(schedules[1..], timestamp)
  }

  predicate NextRunNoLater(a: Schedule, b: Schedule) {
    a.nextRun.None? || (b.nextRun.Some? && a.nextRun.value <= b.nextRun.value)
  }

  /** The due schedules, the earliest slot first. */
  function DueInOrder(schedules: seq<Schedule>, timestamp: int): seq<Schedule> {
    Sorting.SortBy(DueOf(schedules, timestamp), NextRunNoLater)
  }

  ghost predicate AllDue(due: seq<Schedule>, timestamp: int) {
    forall i :: 0 <= i < |due| ==> IsDue(due[i], timestamp)
  }

  lemma DueInOrderFacts(schedules: seq<Schedule>, timestamp: int)
    ensures AllDue(DueInOrder(schedules, timestamp), timestamp)
    ensures forall s :: s in DueInOrder(schedules, timestamp) <==> s in schedules && IsDue(s, timestamp)
    ensures Sorting.Sorted(DueInOrder(schedules, timestamp), NextRunNoLater)
  {
    Sorting.SortByFacts(DueOf(schedules, timestamp), NextRunNoLater);
    var due := DueOf(schedules, timestamp);
    Sorting.SortBySorts(due, NextRunNoLater, set s | s in due);
  }

  function JobsOf(due: seq<Schedule>, timestamp: int): (jobs: seq<Job>)
    requires AllDue(due, timestamp)
    ensures |jobs| == |due| && forall i :: 0 <= i < |due| ==> jobs[i] == JobOf(due[i], timestamp)
  {
    seq(|due|, i requires 0 <= i < |due| => JobOf(due[i], timestamp))
  }

  function TriggerLogs(due: seq<Schedule>, timestamp: int): (logs: seq<Log>)
    ensures |logs| == |due|
    ensures forall i :: 0 <= i < |due| ==> logs[i] == Log(due[i].id, Info, Triggered(due[i].jobType), timestamp)
  {
    seq(|due|, i requires 0 <= i < |due| => Log(due[i].id, Info, Triggered(due[i].jobType), timestamp))
  }

  /** The map of updated schedules by id; a later entry replaces an earlier one. */
  function FiredMap(due: seq<Schedule>, timestamp: int, accepts: string -> bool): map<string, Schedule> {
    if due == [] then map[]
    else
      var last := due[|due| - 1];
      FiredMap(due[..|due| - 1], timestamp, accepts)[last.id := Fired(last, timestamp, accepts)]
  }

  function AfterRun(schedules: seq<Schedule>, fired: map<string, Schedule>): (r: seq<Schedule>)
    ensures |r| == |schedules|
    ensures forall i :: 0 <= i < |r| ==>
              r[i] == if schedules[i].id in fired then fired[schedules[i].id] else schedules[i]
  {
    seq(|schedules|, i requires 0 <= i < |schedules| =>
      if schedules[i].id in fired then fired[schedules[i].id] else schedules[i])
  }

  // ----- steps

  datatype Command =
    | Create(input: NewSchedule, generatedId: string, now: int)
    | Update(id: string, patch: Patch, now: int)
    | Delete(id: string, now: int)
    | RunDue(timestamp: int)

  /** The store and the jobs it has put into the queue so far. */
  datatype Machine = Machine(state: State, jobs: seq<Job>)

  function AfterCreate(state: State, input: NewSchedule, generatedId: string, now: int,
                       accepts: string -> bool): State {
    var record := NewRecord(input, generatedId, now, accepts);
    State(state.schedules + [record], state.logs + [Log(record.id, Info, Created(record.name), record.createdAt)])
  }

  function AfterUpdate(state: State, id: string, patch: Patch, now: int, accepts: string -> bool): State {
    var existing := First(state.schedules, ScheduleId, id);
    if existing.None? then state
    else
      var record := Merged(existing.value, patch, now, accepts);
      State(Replace(state.schedules, ScheduleId, id, record), state.logs + [Log(id, Info, Updated(record.name), now)])
  }

  function AfterDelete(state: State, id: string, now: int): State {
    var existing := First(state.schedules, ScheduleId, id);
    if existing.None? then state
    else
      State(Without(state.schedules, ScheduleId, Some(id)),
            state.logs + [Log(id, Warn, Deleted(existing.value.name), now)])
  }

  function AfterRunDue(state: State, timestamp: int, accepts: string -> bool): State {
    var due := DueInOrder(state.schedules, timestamp);
    State(AfterRun(state.schedules, FiredMap(due, timestamp, accepts)), state.logs + TriggerLogs(due, timestamp))
  }

  function RunJobs(schedules: seq<Schedule>, timestamp: int): seq<Job> {
    DueInOrderFacts(schedules, timestamp);
    JobsOf(DueInOrder(schedules, timestamp), timestamp)
  }

  function Step(m: Machine, c: Command, accepts: string -> bool): Machine {
    match c
    case Create(input, generatedId, now) => m.(state := AfterCreate(m.state, input, generatedId, now, accepts))
    case Update(id, patch, now) => m.(state := AfterUpdate(m.state, id, patch, now, accepts))
    case Delete(id, now) => m.(state := AfterDelete(m.state, id, now))
    case RunDue(timestamp) =>
      Machine(AfterRunDue(m.state, timestamp, accepts), m.jobs + RunJobs(m.state.schedules, timestamp))
  }

  function Run(m: Machine, commands: seq<Command>, accepts: string -> bool): Machine
    decreases |commands|
  {
    if commands == [] then m else Run(Step(m, commands[0], accepts), commands[1..], accepts)
  }

  // ----- where a record of the list after a run comes from

  /** Each entry of the map of updated schedules is one of the due schedules, fired. */
  lemma {:induction false} FiredMapFacts(due: seq<Schedule>, timestamp: int, accepts: string -> bool)
    ensures var fired := FiredMap(due, timestamp, accepts);
            && (forall s :: s in due ==> s.id in fired)
            && forall id :: id in fired ==>
                              exists s :: s in due && s.id == id && fired[id] == Fired(s, timestamp, accepts)
  {
    hide Fired;
    if due != [] {
      FiredMapFacts(due[..|due| - 1], timestamp, accepts);
      assert due == due[..|due| - 1] + [due[|due| - 1]];
    }
  }

  /** Where a record of the new list comes from: it was not due, or it is a due one, fired. */
  lemma {:induction false} AfterRunFacts(schedules: seq<Schedule>, timestamp: int, accepts: string -> bool, i: nat)
    requires i < |schedules|
    ensures var r := AfterRun(schedules, FiredMap(DueInOrder(schedules, timestamp), timestamp, accepts));
            || (r[i] == schedules[i] && !IsDue(schedules[i], timestamp))
            || exists s :: s in schedules && IsDue(s, timestamp) && s.id == schedules[i].id
                           && r[i] == Fired(s, timestamp, accepts)
  {
    hide DueInOrder, Fired, FiredMap, IsDue;
    DueInOrderFacts(schedules, timestamp);
    FiredMapFacts(DueInOrder(schedules, timestamp), timestamp, accepts);
  }

  lemma SameIdSame(schedules: seq<Schedule>, a: Schedule, b: Schedule)
    requires UniqueKeys(schedules, ScheduleId) && a in schedules && b in schedules
    ensures a.id == b.id ==> a == b
  {
  }

  /** With unique ids a run fires exactly the due records and leaves the others as they are. */
  lemma {:induction false} AfterRunPointwise(schedules: seq<Schedule>, timestamp: int, accepts: string -> bool, i: nat)
    requires UniqueKeys(schedules, ScheduleId) && i < |schedules|
    ensures AfterRun(schedules, FiredMap(DueInOrder(schedules, timestamp), timestamp, accepts))[i]
         == if IsDue(schedules[i], timestamp) then Fired(schedules[i], timestamp, accepts) else schedules[i]
  {
    hide DueInOrder, Fired, FiredMap, IsDue, UniqueKeys;
    AfterRunFacts(schedules, timestamp, accepts, i);
    var r := AfterRun(schedules, FiredMap(DueInOrder(schedules, timestamp), timestamp, accepts));
    if r[i] != schedules[i] || IsDue(schedules[i], timestamp) {
      var s :| s in schedules && IsDue(s, timestamp) && s.id == schedules[i].id && r[i] == Fired(s, timestamp, accepts);
      SameIdSame(schedules, s, schedules[i]);
    }
  }

  // ----- what the store promises, told without the steps

  /** The record is made of the input; an absent id or creation time is filled in. */
  ghost predicate CreatedFrom(input: NewSchedule, generatedId: string, now: int, accepts: string -> bool, r: Schedule) {
    && r.id == (if input.id.Some? then input.id.value else generatedId)
    && r.name == input.name && r.cronExpression == input.cronExpression && r.timezone == input.timezone
    && r.jobType == input.jobType && r.payload == input.payload && r.enabled == input.enabled
    && r.createdBy == input.createdBy
    && r.createdAt == (if input.createdAt.Some? then input.createdAt.value else now)
    && r.updatedAt == r.createdAt && r.lastRun == None
    && (r.enabled ==> r.nextRun == Cron.NextRun(r.cronExpression, Some(r.createdAt), r.timezone, accepts))
    && (!r.enabled ==> r.nextRun == None)
  }

  /** Each field the patch sets is set, each other field is kept, and the next run is searched again from
      the last run before the patch. */
  ghost predicate PatchedFrom(was: Schedule, patch: Patch, now: int, accepts: string -> bool, r: Schedule) {
    && r.id == was.id && r.createdBy == was.createdBy && r.createdAt == was.createdAt && r.updatedAt == now
    && (if patch.name.Some? then Some(r.name) == patch.name else r.name == was.name)
    && (if patch.cronExpression.Some? then Some(r.cronExpression) == patch.cronExpression
        else r.cronExpression == was.cronExpression)
    && (if patch.timezone.Some? then Some(r.timezone) == patch.timezone else r.timezone == was.timezone)
    && (if patch.jobType.Some? then Some(r.jobType) == patch.jobType else r.jobType == was.jobType)
    && (if patch.payload.Some? then Some(r.payload) == patch.payload else r.payload == was.payload)
    && (if patch.enabled.Some? then Some(r.enabled) == patch.enabled else r.enabled == was.enabled)
    && (if patch.lastRun.Some? then Some(r.lastRun) == patch.lastRun else r.lastRun == was.lastRun)
    && (!r.enabled ==> r.nextRun == None)
    && (r.enabled ==> r.nextRun ==
                      Cron.NextRun(r.cronExpression, Some(if was.lastRun.Some? then was.lastRun.value else now),
                                   r.timezone, accepts))
  }

  /** The first record with the id is the one patched, and its new version stands wherever the id stood. */
  ghost predicate PatchedIn(schedules: seq<Schedule>, after: seq<Schedule>, id: string, patch: Patch, now: int,
                            accepts: string -> bool, r: Schedule) {
    && (exists k :: 0 <= k < |schedules| && schedules[k].id == id
                    && (forall j :: 0 <= j < k ==> schedules[j].id != id)
                    && PatchedFrom(schedules[k], patch, now, accepts, r))
    && |after| == |schedules|
    && forall i :: 0 <= i < |schedules| ==> after[i] == if schedules[i].id == id then r else schedules[i]
  }

  /** An enabled schedule whose next run has come. */
  ghost predicate Due(s: Schedule, timestamp: int) {
    s.enabled && exists slot :: s.nextRun == Some(slot) && slot <= timestamp
  }

  /** The job carries the schedule's own type and payload, its id and its slot. */
  ghost predicate JobFor(s: Schedule, timestamp: int, job: Job) {
    && job.jobType == s.jobType && job.payload == s.payload
    && job.scheduleId == s.id && Some(job.scheduledFor) == s.nextRun
    && job.createdBy == "scheduler:" + s.id && job.createdAt == timestamp
  }

  /** One job for every due schedule and no other, the earliest slot first. */
  ghost predicate JobsFor(schedules: seq<Schedule>, timestamp: int, jobs: seq<Job>) {
    && (forall s :: s in schedules && Due(s, timestamp) ==> exists job :: job in jobs && JobFor(s, timestamp, job))
    && (forall job :: job in jobs ==> exists s :: s in schedules && Due(s, timestamp) && JobFor(s, timestamp, job))
    && (forall j, k :: 0 <= j < k < |jobs| ==> jobs[j].scheduledFor <= jobs[k].scheduledFor)
    && (UniqueKeys(schedules, ScheduleId) ==>
          forall j, k :: 0 <= j < k < |jobs| ==> jobs[j].scheduleId != jobs[k].scheduleId)
  }

  /** A due schedule has its last run, its next run and its update time moved; nothing else changes. */
  ghost predicate FiredFrom(s: Schedule, timestamp: int, accepts: string -> bool, r: Schedule) {
    r == if Due(s, timestamp) then
      Schedule(s.id, s.name, s.cronExpression, s.timezone, s.jobType, s.payload, s.enabled, Some(timestamp),
               Cron.NextRun(s.cronExpression, Some(timestamp), s.timezone, accepts),
               s.createdBy, s.createdAt, timestamp)
    else s
  }

  ghost predicate AllFired(schedules: seq<Schedule>, timestamp: int, accepts: string -> bool, after: seq<Schedule>) {
    && |after| == |schedules|
    && forall i :: 0 <= i < |schedules| ==> FiredFrom(schedules[i], timestamp, accepts, after[i])
  }

  /** One more log entry for every job. */
  ghost predicate LogsFor(jobs: seq<Job>, timestamp: int, before: seq<Log>, after: seq<Log>) {
    && |after| == |before| + |jobs| && before <= after
    && forall k :: 0 <= k < |jobs| ==>
                     after[|before| + k] == Log(jobs[k].scheduleId, Info, Triggered(jobs[k].jobType), timestamp)
  }

  lemma DueIff(s: Schedule, timestamp: int)
    ensures Due(s, timestamp) <==> IsDue(s, timestamp)
  {
  }

  lemma {:induction false} RunQueues(schedules: seq<Schedule>, timestamp: int)
    ensures JobsFor(schedules, timestamp, RunJobs(schedules, timestamp))
  {
    var due := DueInOrder(schedules, timestamp);
    var jobs := RunJobs(schedules, timestamp);
    DueInOrderFacts(schedules, timestamp);
    forall s ensures Due(s, timestamp) <==> IsDue(s, timestamp) {
      DueIff(s, timestamp);
    }
    if UniqueKeys(schedules, ScheduleId) {
      DueUnique(schedules, timestamp);
    }
    hide DueInOrder, Due, UniqueKeys;
    forall s | s in schedules && Due(s, timestamp) ensures exists job :: job in jobs && JobFor(s, timestamp, job) {
      var k :| 0 <= k < |due| && due[k] == s;
      assert jobs[k] in jobs && JobFor(s, timestamp, jobs[k]);
    }
    forall job | job in jobs ensures exists s :: s in schedules && Due(s, timestamp) && JobFor(s, timestamp, job) {
      var k :| 0 <= k < |jobs| && jobs[k] == job;
      assert due[k] in due && JobFor(due[k], timestamp, job);
    }
  }

  /** Of unique ids no two due schedules share one. */
  lemma {:induction false} DueUnique(schedules: seq<Schedule>, timestamp: int)
    requires UniqueKeys(schedules, ScheduleId)
    ensures var due := DueInOrder(schedules, timestamp);
            forall j, k :: 0 <= j < k < |due| ==> due[j].id != due[k].id
  {
    var due := DueInOrder(schedules, timestamp);
    DueDistinct(schedules, timestamp);
    Sorting.SortByFacts(DueOf(schedules, timestamp), NextRunNoLater);
    hide DueInOrder, DueOf, IsDue;
    forall j, k | 0 <= j < k < |due| ensures due[j].id != due[k].id {
      assert due[j] in due && due[k] in due;
      if due[j].id == due[k].id {
        SameIdSame(schedules, due[j], due[k]);
      }
    }
  }

  lemma {:induction false} DueDistinct(schedules: seq<Schedule>, timestamp: int)
    requires UniqueKeys(schedules, ScheduleId)
    ensures Sorting.NoDuplicates(DueOf(schedules, timestamp))
  {
    hide IsDue;
    if schedules != [] {
      DueDistinct(schedules[1..], timestamp);
    }
  }

  lemma {:induction false} RunFires(state: State, timestamp: int, accepts: string -> bool)
    ensures UniqueKeys(state.schedules, ScheduleId) ==>
              AllFired(state.schedules, timestamp, accepts, AfterRunDue(state, timestamp, accepts).schedules)
  {
    hide DueInOrder, FiredMap, UniqueKeys, Cron.NextRun;
    var after := AfterRunDue(state, timestamp, accepts).schedules;
    if UniqueKeys(state.schedules, ScheduleId) {
      forall i | 0 <= i < |after| ensures FiredFrom(state.schedules[i], timestamp, accepts, after[i]) {
        DueIff(state.schedules[i], timestamp);
        AfterRunPointwise(state.schedules, timestamp, accepts, i);
      }
    }
  }

  lemma RunLogs(state: State, timestamp: int, accepts: string -> bool)
    ensures LogsFor(RunJobs(state.schedules, timestamp), timestamp, state.logs,
                    AfterRunDue(state, timestamp, accepts).logs)
  {
    DueInOrderFacts(state.schedules, timestamp);
    hide DueInOrder, FiredMap;
  }

  // ----- the store

  class JobQueue {
    var jobs: seq<Job>

    constructor ()
      ensures jobs == []
    {
      jobs := [];
    }

    method Enqueue(job: Job)
      modifies this
      ensures jobs == old(jobs) + [job]
    {
      jobs := jobs + [job];
    }
  }

  class FileBackedSchedulerStore {
    var state: State
    const accepts: string -> bool

    constructor (accepts: string -> bool)
      ensures state == State([], []) && this.accepts == accepts
    {
      this.accepts := accepts;
      state := State([], []);
    }

    method CreateSchedule(input: NewSchedule, generatedId: string, now: int) returns (schedule: Schedule)
      modifies this
      ensures state == AfterCreate(old(state), input, generatedId, now, accepts)
      ensures schedule == NewRecord(input, generatedId, now, accepts)
      ensures CreatedFrom(input, generatedId, now, accepts, schedule)
      ensures state.schedules == old(state).schedules + [schedule]
      ensures state.logs == old(state).logs + [Log(schedule.id, Info, Created(schedule.name), schedule.createdAt)]
    {
      var timestamp := OrElse(input.createdAt, now);
      var nextRun := None;
      if input.enabled {
        nextRun := Cron.CalculateNextRun(input.cronExpression, Some(timestamp), input.timezone, accepts);
      }
      schedule := Schedule(
        OrElse(input.id, generatedId), input.name, input.cronExpression, input.timezone, input.jobType,
        input.payload, input.enabled, None, nextRun, input.createdBy, timestamp, timestamp);
      state := State(
        state.schedules + [schedule],
        state.logs + [Log(schedule.id, Info, Created(schedule.name), timestamp)]);
    }

    method UpdateSchedule(id: string, patch: Patch, now: int) returns (updated: Option<Schedule>)
      modifies this
      ensures state == AfterUpdate(old(state), id, patch, now, accepts)
      ensures updated.Some? <==> First(old(state).schedules, ScheduleId, id).Some?
      ensures updated.Some? ==>
                updated.value == Merged(First(old(state).schedules, ScheduleId, id).value, patch, now, accepts)
      ensures updated.None? ==> state == old(state)
      ensures updated.Some? ==>
                && PatchedIn(old(state).schedules, state.schedules, id, patch, now, accepts, updated.value)
                && state.logs == old(state).logs + [Log(id, Info, Updated(updated.value.name), now)]
    {
      hide Cron.NextRun;
      var found := First(state.schedules, ScheduleId, id);
      if found.None? {
        return None;
      }
      var existing := found.value;
      var nextRun := None;
      if OrElse(patch.enabled, existing.enabled) {
        nextRun := Cron.CalculateNextRun(
          OrElse(patch.cronExpression, existing.cronExpression), Some(OrElse(existing.lastRun, now)),
          OrElse(patch.timezone, existing.timezone), accepts);
      }
      var record := Schedule(
        existing.id, OrElse(patch.name, existing.name), OrElse(patch.cronExpression, existing.cronExpression),
        OrElse(patch.timezone, existing.timezone), OrElse(patch.jobType, existing.jobType),
        OrElse(patch.payload, existing.payload), OrElse(patch.enabled, existing.enabled),
        OrElse(patch.lastRun, existing.lastRun), nextRun, existing.createdBy, existing.createdAt, now);
      state := State(Replace(state.schedules, ScheduleId, id, record),
                     state.logs + [Log(id, Info, Updated(record.name), now)]);
      FirstAt(old(state).schedules, ScheduleId, id);
      assert PatchedFrom(existing, patch, now, accepts, record);
      return Some(record);
    }

    method DeleteSchedule(id: string, now: int) returns (deleted: bool)
      modifies this
      ensures state == AfterDelete(old(state), id, now)
      ensures deleted <==> exists s :: s in old(state).schedules && s.id == id
      ensures forall s :: s in state.schedules <==> s in old(state).schedules && s.id != id
      ensures !deleted ==> state == old(state)
      ensures deleted && UniqueKeys(old(state).schedules, ScheduleId) ==>
                CutOut(old(state).schedules, state.schedules, ScheduleId, id)
      ensures deleted ==> exists s :: s in old(state).schedules && s.id == id
                                      && state.logs == old(state).logs + [Log(id, Warn, Deleted(s.name), now)]
    {
      var existing := First(state.schedules, ScheduleId, id);
      if existing.None? {
        return false;
      }
      if UniqueKeys(state.schedules, ScheduleId) {
        WithoutCutsOut(state.schedules, ScheduleId, id);
      }
      state := State(Without(state.schedules, ScheduleId, Some(id)),
                     state.logs + [Log(id, Warn, Deleted(existing.value.name), now)]);
      return true;
    }

    method RunDueSchedules(queue: JobQueue, timestamp: int) returns (enqueued: seq<Job>)
      modifies this, queue
      ensures state == AfterRunDue(old(state), timestamp, accepts)
      ensures enqueued == RunJobs(old(state).schedules, timestamp)
      ensures queue.jobs == old(queue.jobs) + enqueued
      ensures JobsFor(old(state).schedules, timestamp, enqueued)
      ensures UniqueKeys(old(state).schedules, ScheduleId) ==>
                AllFired(old(state).schedules, timestamp, accepts, state.schedules)
      ensures LogsFor(enqueued, timestamp, old(state).logs, state.logs)
    {
      RunQueues(state.schedules, timestamp);
      RunFires(state, timestamp, accepts);
      RunLogs(state, timestamp, accepts);
      hide DueInOrder, Cron.NextRun, FiredMap, AllFired, JobsFor, LogsFor, UniqueKeys;
      var due := DueInOrder(state.schedules, timestamp);
      DueInOrderFacts(state.schedules, timestamp);
      enqueued := [];
      if |due| == 0 {
        IdleRun(state, timestamp, accepts);
        return;
      }
      var logs: seq<Log> := [];
      var updated: map<string, Schedule> := map[];
      FiredMapStarts(due, timestamp, accepts);
      for i := 0 to |due|
        invariant state == old(state)
        invariant enqueued == JobsOf(due, timestamp)[..i]
        invariant queue.jobs == old(queue.jobs) + enqueued
        invariant logs == TriggerLogs(due, timestamp)[..i]
        invariant updated == FiredMap(due[..i], timestamp, accepts)
      {
        var schedule := due[i];
        var job := Job(
          schedule.jobType, schedule.payload, schedule.id, schedule.nextRun.value,
          "scheduler:" + schedule.id, timestamp);
        queue.Enqueue(job);
        var nextRun := Cron.CalculateNextRun(schedule.cronExpression, Some(timestamp), schedule.timezone, accepts);
        var record := schedule.(lastRun := Some(timestamp), nextRun := nextRun, updatedAt := timestamp);
        enqueued := enqueued + [job];
        FiredMapStep(due, i, timestamp, accepts);
        updated := updated[schedule.id := record];
        logs := logs + [Log(schedule.id, Info, Triggered(schedule.jobType), timestamp)];
      }
      assert due[..|due|] == due;
      state := State(AfterRun(state.schedules, updated), state.logs + logs);
    }
  }

  lemma {:induction false} FiredMapStarts(due: seq<Schedule>, timestamp: int, accepts: string -> bool)
    ensures FiredMap(due[..0], timestamp, accepts) == map[]
  {
  }

  lemma {:induction false} FiredMapStep(due: seq<Schedule>, i: nat, timestamp: int, accepts: string -> bool)
    requires i < |due|
    ensures FiredMap(due[..i + 1], timestamp, accepts)
         == FiredMap(due[..i], timestamp, accepts)[due[i].id := Fired(due[i], timestamp, accepts)]
  {
    hide Fired;
    assert due[..i + 1][..i] == due[..i];
  }

  /** When nothing is due a run changes nothing. */
  lemma IdleRun(state: State, timestamp: int, accepts: string -> bool)
    requires DueInOrder(state.schedules, timestamp) == []
    ensures AfterRunDue(state, timestamp, accepts) == state
    ensures RunJobs(state.schedules, timestamp) == []
  {
    hide DueInOrder;
    assert AfterRun(state.schedules, map[]) == state.schedules;
  }
}
