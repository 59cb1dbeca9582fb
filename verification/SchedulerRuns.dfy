/** What holds over every run of schedule steps: which next runs are stored, that no slot is queued
    twice, and the one kind of update that breaks this. */
module SchedulerRuns {
  import opened Wrappers
  import opened Keyed
  import opened Scheduler
  import CronGuarantee
  import Sorting
  import Cron

  // ----- every stored next run is one the schedule asks for

  /** A stored next run belongs to an enabled UTC schedule whose expression it matches. */
  predicate Sound(s: Schedule, accepts: string -> bool) {
    s.nextRun.Some? ==>
      && s.enabled && s.timezone == "UTC"
      && Cron.ParseCron(s.cronExpression, accepts).Some?
      && Cron.RunsAt(Cron.ParseCron(s.cronExpression, accepts).value, s.nextRun.value)
  }

  ghost predicate AllSound(schedules: seq<Schedule>, accepts: string -> bool) {
    forall s :: s in schedules ==> Sound(s, accepts)
  }

  lemma NextRunFacts(expression: string, after: int, timezone: string, accepts: string -> bool)
    ensures var next := Cron.NextRun(expression, Some(after), timezone, accepts);
            next.Some? ==>
              && timezone == "UTC" && Cron.ParseCron(expression, accepts).Some? && after < next.value
              && Cron.RunsAt(Cron.ParseCron(expression, accepts).value, next.value)
  {
    hide Cron.ParseCron, Cron.Matches, Cron.FirstMatch;
    if timezone == "UTC" && Cron.ParseCron(expression, accepts).Some? {
      Cron.NextRunIsLeast(expression, after, accepts);
    }
  }

  lemma RecordsSound(input: NewSchedule, generatedId: string, now: int, accepts: string -> bool)
    ensures Sound(NewRecord(input, generatedId, now, accepts), accepts)
  {
    hide Cron.ParseCron, Cron.RunsAt, Cron.NextRun;
    NextRunFacts(input.cronExpression, OrElse(input.createdAt, now), input.timezone, accepts);
  }

  lemma MergedSound(existing: Schedule, patch: Patch, now: int, accepts: string -> bool)
    ensures Sound(Merged(existing, patch, now, accepts), accepts)
  {
    hide Cron.ParseCron, Cron.RunsAt, Cron.NextRun;
    NextRunFacts(
      OrElse(patch.cronExpression, existing.cronExpression), OrElse(existing.lastRun, now),
      OrElse(patch.timezone, existing.timezone), accepts);
  }

  lemma FiredSound(s: Schedule, timestamp: int, accepts: string -> bool)
    requires s.enabled
    ensures Sound(Fired(s, timestamp, accepts), accepts)
    ensures Fired(s, timestamp, accepts).nextRun.Some? ==> timestamp < Fired(s, timestamp, accepts).nextRun.value
  {
    hide Cron.ParseCron, Cron.RunsAt, Cron.NextRun;
    NextRunFacts(s.cronExpression, timestamp, s.timezone, accepts);
  }

  lemma {:induction false} RunKeepsSound(schedules: seq<Schedule>, timestamp: int, accepts: string -> bool)
    requires AllSound(schedules, accepts)
    ensures AllSound(AfterRun(schedules, FiredMap(DueInOrder(schedules, timestamp), timestamp, accepts)), accepts)
  {
    hide DueInOrder, FiredMap, Sound, Fired;
    var after := AfterRun(schedules, FiredMap(DueInOrder(schedules, timestamp), timestamp, accepts));
    forall r | r in after ensures Sound(r, accepts) {
      var i :| 0 <= i < |after| && after[i] == r;
      AfterRunFacts(schedules, timestamp, accepts, i);
      if r != schedules[i] {
        var s :| s in schedules && IsDue(s, timestamp) && s.id == schedules[i].id && r == Fired(s, timestamp, accepts);
        FiredSound(s, timestamp, accepts);
      }
    }
  }

  /** Every step keeps every stored next run sound, from any state. */
  lemma StepKeepsSound(m: Machine, c: Command, accepts: string -> bool)
    requires AllSound(m.state.schedules, accepts)
    ensures AllSound(Step(m, c, accepts).state.schedules, accepts)
  {
    hide Sound, NewRecord, Merged, First, FiredMap, DueInOrder;
    match c
    case Create(input, generatedId, now) =>
      RecordsSound(input, generatedId, now, accepts);
    case Update(id, patch, now) =>
      if First(m.state.schedules, ScheduleId, id).Some? {
        MergedSound(First(m.state.schedules, ScheduleId, id).value, patch, now, accepts);
      }
    case Delete(id, now) =>
    case RunDue(timestamp) =>
      RunKeepsSound(m.state.schedules, timestamp, accepts);
  }

  /** From a sound store, every run of steps ends in a sound store. */
  lemma {:induction false} RunsKeepSound(m: Machine, commands: seq<Command>, accepts: string -> bool)
    requires AllSound(m.state.schedules, accepts)
    ensures AllSound(Run(m, commands, accepts).state.schedules, accepts)
    decreases |commands|
  {
    hide AllSound, Step;
    if commands != [] {
      StepKeepsSound(m, commands[0], accepts);
      RunsKeepSound(Step(m, commands[0], accepts), commands[1..], accepts);
    }
  }

  // ----- a schedule that always has a next run keeps one

  /** An enabled UTC schedule whose expression runs after every moment has a next run stored. */
  ghost predicate Live(s: Schedule, accepts: string -> bool) {
    s.enabled && s.timezone == "UTC" && CronGuarantee.AlwaysRuns(s.cronExpression, accepts) ==> s.nextRun.Some?
  }

  ghost predicate AllLive(schedules: seq<Schedule>, accepts: string -> bool) {
    forall s :: s in schedules ==> Live(s, accepts)
  }

  lemma AlwaysNext(expression: string, after: int, timezone: string, accepts: string -> bool)
    ensures timezone == "UTC" && CronGuarantee.AlwaysRuns(expression, accepts) ==>
              Cron.NextRun(expression, Some(after), timezone, accepts).Some?
  {
    hide Cron.NextRun;
    if timezone == "UTC" && CronGuarantee.AlwaysRuns(expression, accepts) {
      assert Cron.NextRun(expression, Some(after), "UTC", accepts).Some?;
    }
  }

  lemma RecordsLive(input: NewSchedule, generatedId: string, now: int, accepts: string -> bool)
    ensures Live(NewRecord(input, generatedId, now, accepts), accepts)
  {
    hide Cron.NextRun, CronGuarantee.AlwaysRuns;
    AlwaysNext(input.cronExpression, OrElse(input.createdAt, now), input.timezone, accepts);
  }

  lemma MergedLive(existing: Schedule, patch: Patch, now: int, accepts: string -> bool)
    ensures Live(Merged(existing, patch, now, accepts), accepts)
  {
    hide Cron.NextRun, CronGuarantee.AlwaysRuns;
    AlwaysNext(
      OrElse(patch.cronExpression, existing.cronExpression), OrElse(existing.lastRun, now),
      OrElse(patch.timezone, existing.timezone), accepts);
  }

  lemma FiredLive(s: Schedule, timestamp: int, accepts: string -> bool)
    ensures Live(Fired(s, timestamp, accepts), accepts)
  {
    hide Cron.NextRun, CronGuarantee.AlwaysRuns;
    AlwaysNext(s.cronExpression, timestamp, s.timezone, accepts);
  }

  lemma {:induction false} RunKeepsLive(schedules: seq<Schedule>, timestamp: int, accepts: string -> bool)
    requires AllLive(schedules, accepts)
    ensures AllLive(AfterRun(schedules, FiredMap(DueInOrder(schedules, timestamp), timestamp, accepts)), accepts)
  {
    hide DueInOrder, FiredMap, Live, Fired;
    var after := AfterRun(schedules, FiredMap(DueInOrder(schedules, timestamp), timestamp, accepts));
    forall r | r in after ensures Live(r, accepts) {
      var i :| 0 <= i < |after| && after[i] == r;
      AfterRunFacts(schedules, timestamp, accepts, i);
      if r != schedules[i] {
        var s :| s in schedules && IsDue(s, timestamp) && s.id == schedules[i].id && r == Fired(s, timestamp, accepts);
        FiredLive(s, timestamp, accepts);
      }
    }
  }

  lemma StepKeepsLive(m: Machine, c: Command, accepts: string -> bool)
    requires AllLive(m.state.schedules, accepts)
    ensures AllLive(Step(m, c, accepts).state.schedules, accepts)
  {
    hide Live, NewRecord, Merged, First, FiredMap, DueInOrder;
    match c
    case Create(input, generatedId, now) =>
      RecordsLive(input, generatedId, now, accepts);
    case Update(id, patch, now) =>
      if First(m.state.schedules, ScheduleId, id).Some? {
        MergedLive(First(m.state.schedules, ScheduleId, id).value, patch, now, accepts);
      }
    case Delete(id, now) =>
    case RunDue(timestamp) =>
      RunKeepsLive(m.state.schedules, timestamp, accepts);
  }

  /** Over every run of steps such a schedule never silently stops: while it is enabled it has a
      next run. */
  lemma {:induction false} RunsKeepLive(m: Machine, commands: seq<Command>, accepts: string -> bool)
    requires AllLive(m.state.schedules, accepts)
    ensures AllLive(Run(m, commands, accepts).state.schedules, accepts)
    decreases |commands|
  {
    hide AllLive, Step;
    if commands != [] {
      StepKeepsLive(m, commands[0], accepts);
      RunsKeepLive(Step(m, commands[0], accepts), commands[1..], accepts);
    }
  }

  // ----- after a run nothing is due any more

  lemma {:induction false} NoneDueAfterRun(schedules: seq<Schedule>, timestamp: int, accepts: string -> bool)
    ensures forall s :: s in AfterRun(schedules, FiredMap(DueInOrder(schedules, timestamp), timestamp, accepts)) ==>
                          !IsDue(s, timestamp)
  {
    hide DueInOrder, FiredMap, Fired;
    var after := AfterRun(schedules, FiredMap(DueInOrder(schedules, timestamp), timestamp, accepts));
    forall r | r in after ensures !IsDue(r, timestamp) {
      var i :| 0 <= i < |after| && after[i] == r;
      AfterRunFacts(schedules, timestamp, accepts, i);
      if r != schedules[i] || IsDue(r, timestamp) {
        var s :| s in schedules && IsDue(s, timestamp) && s.id == schedules[i].id && r == Fired(s, timestamp, accepts);
        FiredSound(s, timestamp, accepts);
      }
    }
  }

  lemma {:induction false} NothingDue(schedules: seq<Schedule>, timestamp: int)
    requires forall s :: s in schedules ==> !IsDue(s, timestamp)
    ensures DueInOrder(schedules, timestamp) == []
  {
    if schedules != [] {
      NothingDue(schedules[1..], timestamp);
    }
  }

  /** Running again at the same or an earlier timestamp queues nothing and changes nothing. */
  lemma RepeatIsIdle(m: Machine, timestamp: int, again: int, accepts: string -> bool)
    requires again <= timestamp
    ensures var once := Step(m, RunDue(timestamp), accepts); Step(once, RunDue(again), accepts) == once
  {
    hide DueInOrder, FiredMap, RunJobs;
    var once := Step(m, RunDue(timestamp), accepts);
    NoneDueAfterRun(m.state.schedules, timestamp, accepts);
    NothingDue(once.state.schedules, again);
    IdleRun(once.state, again, accepts);
  }

  // ----- no slot fires twice

  /** The slots queued for a schedule, in queue order. */
  function FiredSlots(jobs: seq<Job>, id: string): seq<int> {
    if jobs == [] then []
    else
      var last := jobs[|jobs| - 1];
      FiredSlots(jobs[..|jobs| - 1], id) + if last.scheduleId == id then [last.scheduledFor] else []
  }

  predicate Increasing(slots: seq<int>) {
    forall i, j :: 0 <= i < j < |slots| ==> slots[i] < slots[j]
  }

  /** Every slot already queued for the schedule lies before its next run and not after its last. */
  predicate SlotsPast(s: Schedule, slots: seq<int>) {
    forall k :: 0 <= k < |slots| ==> SlotPast(s, slots[k])
  }

  predicate SlotPast(s: Schedule, slot: int) {
    && s.lastRun.Some? && slot <= s.lastRun.value
    && (s.nextRun.Some? ==> slot < s.nextRun.value)
  }

  ghost predicate SlotsIncrease(jobs: seq<Job>) {
    forall id :: Increasing(FiredSlots(jobs, id))
  }

  ghost predicate AllSlotsPast(m: Machine) {
    forall s :: s in m.state.schedules ==> SlotsPast(s, FiredSlots(m.jobs, s.id))
  }

  ghost predicate NoRefire(m: Machine) {
    UniqueKeys(m.state.schedules, ScheduleId) && SlotsIncrease(m.jobs) && AllSlotsPast(m)
  }

  /** An update must not move a schedule's last run back. The HTTP handler never sets it. */
  predicate KeepsLastRun(existing: Schedule, patch: Patch) {
    patch.lastRun.None? || existing.lastRun.None?
    || (patch.lastRun.value.Some? && existing.lastRun.value <= patch.lastRun.value.value)
  }

  /** A created id is new, and updates do not move a last run back. */
  ghost predicate GoodStep(m: Machine, c: Command) {
    match c
    case Create(input, generatedId, now) =>
      var id := OrElse(input.id, generatedId);
      (forall s :: s in m.state.schedules ==> s.id != id) && FiredSlots(m.jobs, id) == []
    case Update(id, patch, now) =>
      First(m.state.schedules, ScheduleId, id).Some? ==>
        KeepsLastRun(First(m.state.schedules, ScheduleId, id).value, patch)
    case Delete(id, now) => true
    case RunDue(timestamp) => true
  }

  ghost predicate GoodRun(m: Machine, commands: seq<Command>, accepts: string -> bool)
    decreases |commands|
  {
    commands == [] || (GoodStep(m, commands[0]) && GoodRun(Step(m, commands[0], accepts), commands[1..], accepts))
  }

  lemma {:induction false} SlotsOfConcat(a: seq<Job>, b: seq<Job>, id: string)
    ensures FiredSlots(a + b, id) == FiredSlots(a, id) + FiredSlots(b, id)
    decreases |b|
  {
    if b == [] {
      assert a + b == a;
    } else {
      var init := b[..|b| - 1];
      SlotsOfConcat(a, init, id);
      assert (a + b)[..|a + b| - 1] == a + init;
    }
  }

  lemma JobsOfInit(due: seq<Schedule>, timestamp: int)
    requires AllDue(due, timestamp) && due != []
    ensures AllDue(due[..|due| - 1], timestamp)
    ensures JobsOf(due, timestamp)[..|due| - 1] == JobsOf(due[..|due| - 1], timestamp)
  {
  }

  lemma {:induction false} NoSlotsForOthers(due: seq<Schedule>, timestamp: int, id: string)
    requires AllDue(due, timestamp) && forall s :: s in due ==> s.id != id
    ensures FiredSlots(JobsOf(due, timestamp), id) == []
    decreases |due|
  {
    hide IsDue, AllDue;
    if due != [] {
      JobsOfInit(due, timestamp);
      NoSlotsForOthers(due[..|due| - 1], timestamp, id);
      assert due[|due| - 1] in due;
    }
  }

  /** With distinct ids, a list of due schedules queues one job for each. */
  lemma {:induction false} OneSlotEach(due: seq<Schedule>, timestamp: int, i: nat)
    requires AllDue(due, timestamp) && UniqueKeys(due, ScheduleId) && i < |due|
    ensures FiredSlots(JobsOf(due, timestamp), due[i].id) == [due[i].nextRun.value]
    decreases |due|
  {
    var n := |due| - 1;
    JobsOfInit(due, timestamp);
    if i == n {
      NoSlotsForOthers(due[..n], timestamp, due[i].id);
    } else {
      OneSlotEach(due[..n], timestamp, i);
    }
  }

  lemma DueDistinct(schedules: seq<Schedule>, timestamp: int)
    requires UniqueKeys(schedules, ScheduleId)
    ensures UniqueKeys(DueInOrder(schedules, timestamp), ScheduleId)
  {
    DueNoDuplicates(schedules, timestamp);
    Sorting.SortByFacts(DueOf(schedules, timestamp), NextRunNoLater);
    var due := DueInOrder(schedules, timestamp);
    DueInOrderFacts(schedules, timestamp);
    hide *;
    forall i, j | 0 <= i < j < |due| ensures due[i].id != due[j].id {
      assert due[i] in schedules && due[j] in schedules;
      SameIdSame(schedules, due[i], due[j]);
      DifferentAt(due, i, j);
    }
  }

  lemma DifferentAt(due: seq<Schedule>, i: nat, j: nat)
    requires Sorting.NoDuplicates(due) && i < j < |due|
    ensures due[i] != due[j]
  {
  }

  lemma {:induction false} DueNoDuplicates(schedules: seq<Schedule>, timestamp: int)
    requires UniqueKeys(schedules, ScheduleId)
    ensures Sorting.NoDuplicates(DueOf(schedules, timestamp))
  {
    hide IsDue;
    if schedules != [] {
      DueNoDuplicates(schedules[1..], timestamp);
      assert schedules[0] !in schedules[1..];
    }
  }

  /** One run queues exactly one job for each due schedule, for its stored next run, however many
      slots have gone by, and none for any other id. */
  lemma {:induction false} RunFiresEachDueOnce(schedules: seq<Schedule>, timestamp: int, id: string)
    requires UniqueKeys(schedules, ScheduleId)
    ensures var slots := FiredSlots(RunJobs(schedules, timestamp), id);
            && (forall s :: s in schedules && s.id == id ==>
                              slots == if IsDue(s, timestamp) then [s.nextRun.value] else [])
            && ((forall s :: s in schedules ==> s.id != id) ==> slots == [])
  {
    hide DueInOrder, FiredSlots, UniqueKeys;
    DueInOrderFacts(schedules, timestamp);
    DueDistinct(schedules, timestamp);
    var due := DueInOrder(schedules, timestamp);
    if forall s :: s in due ==> s.id != id {
      NoSlotsForOthers(due, timestamp, id);
    }
    forall s | s in schedules && s.id == id
      ensures FiredSlots(RunJobs(schedules, timestamp), id) == if IsDue(s, timestamp) then [s.nextRun.value] else []
    {
      if IsDue(s, timestamp) {
        var i :| 0 <= i < |due| && due[i] == s;
        OneSlotEach(due, timestamp, i);
      } else {
        forall t | t in due ensures t.id != id {
          SameIdSame(schedules, s, t);
        }
      }
    }
  }

  // ----- the steps keep the invariant

  lemma {:induction false} FindIsSome(schedules: seq<Schedule>, s: Schedule)
    requires UniqueKeys(schedules, ScheduleId) && s in schedules
    ensures First(schedules, ScheduleId, s.id) == Some(s)
  {
    SameIdSame(schedules, s, First(schedules, ScheduleId, s.id).value);
  }

  lemma NewRecordPast(input: NewSchedule, generatedId: string, now: int, accepts: string -> bool)
    ensures SlotsPast(NewRecord(input, generatedId, now, accepts), [])
  {
  }

  lemma CreateKeeps(m: Machine, input: NewSchedule, generatedId: string, now: int, accepts: string -> bool)
    requires NoRefire(m) && GoodStep(m, Create(input, generatedId, now))
    ensures NoRefire(Step(m, Create(input, generatedId, now), accepts))
  {
    hide Cron.NextRun, FiredSlots, SlotsPast, SlotsIncrease;
    NewRecordPast(input, generatedId, now, accepts);
  }

  /** The merged record searches from the existing last run, so it cannot return to a slot already
      queued. */
  lemma MergedPast(existing: Schedule, patch: Patch, now: int, accepts: string -> bool, slots: seq<int>)
    requires SlotsPast(existing, slots) && KeepsLastRun(existing, patch)
    ensures SlotsPast(Merged(existing, patch, now, accepts), slots)
  {
    hide Cron.NextRun, Cron.ParseCron, Cron.RunsAt;
    NextRunFacts(
      OrElse(patch.cronExpression, existing.cronExpression), OrElse(existing.lastRun, now),
      OrElse(patch.timezone, existing.timezone), accepts);
    SearchedPast(existing, Merged(existing, patch, now, accepts), slots);
  }

  lemma SearchedPast(s: Schedule, t: Schedule, slots: seq<int>)
    requires SlotsPast(s, slots)
    requires s.lastRun.Some? ==> t.lastRun.Some? && s.lastRun.value <= t.lastRun.value
    requires s.lastRun.Some? && t.nextRun.Some? ==> s.lastRun.value < t.nextRun.value
    ensures SlotsPast(t, slots)
  {
    forall k | 0 <= k < |slots| ensures SlotPast(t, slots[k]) {
      assert SlotPast(s, slots[k]);
    }
  }

  lemma UpdateKeeps(m: Machine, id: string, patch: Patch, now: int, accepts: string -> bool)
    requires NoRefire(m) && GoodStep(m, Update(id, patch, now))
    ensures NoRefire(Step(m, Update(id, patch, now), accepts))
  {
    hide Merged, FiredSlots, SlotsPast, SlotsIncrease, KeepsLastRun, First;
    var existing := First(m.state.schedules, ScheduleId, id);
    if existing.Some? {
      MergedPast(existing.value, patch, now, accepts, FiredSlots(m.jobs, id));
      MergedId(existing.value, patch, now, accepts);
    }
  }

  lemma MergedId(existing: Schedule, patch: Patch, now: int, accepts: string -> bool)
    ensures Merged(existing, patch, now, accepts).id == existing.id
  {
  }

  lemma DeleteKeeps(m: Machine, id: string, now: int, accepts: string -> bool)
    requires NoRefire(m)
    ensures NoRefire(Step(m, Delete(id, now), accepts))
  {
    hide FiredSlots, SlotsPast, SlotsIncrease, UniqueKeys, First;
  }

  lemma FiredPast(s: Schedule, timestamp: int, accepts: string -> bool, slots: seq<int>)
    requires SlotsPast(s, slots) && IsDue(s, timestamp) && Increasing(slots)
    ensures SlotsPast(Fired(s, timestamp, accepts), slots + [s.nextRun.value])
    ensures Increasing(slots + [s.nextRun.value])
  {
    hide Cron.NextRun;
    FiredSound(s, timestamp, accepts);
  }

  /** The slots of one id after a run: the record with the id, if it is due, adds its next run. */
  lemma RunSlots(m: Machine, timestamp: int, accepts: string -> bool, s: Schedule)
    requires NoRefire(m) && s in m.state.schedules
    ensures var slots := FiredSlots(Step(m, RunDue(timestamp), accepts).jobs, s.id);
            && Increasing(slots)
            && SlotsPast(if IsDue(s, timestamp) then Fired(s, timestamp, accepts) else s, slots)
  {
    hide FiredSlots, SlotsPast, Increasing, UniqueKeys, Fired, RunJobs;
    SlotsOfConcat(m.jobs, RunJobs(m.state.schedules, timestamp), s.id);
    RunFiresEachDueOnce(m.state.schedules, timestamp, s.id);
    var slots := FiredSlots(m.jobs, s.id);
    assert slots + [] == slots;
    if IsDue(s, timestamp) {
      FiredPast(s, timestamp, accepts, slots);
    }
  }

  lemma RunSlotsIncrease(m: Machine, timestamp: int, accepts: string -> bool)
    requires NoRefire(m)
    ensures SlotsIncrease(Step(m, RunDue(timestamp), accepts).jobs)
  {
    hide FiredSlots, SlotsPast, Increasing, UniqueKeys, Fired, RunJobs, IsDue;
    forall id ensures Increasing(FiredSlots(Step(m, RunDue(timestamp), accepts).jobs, id)) {
      if exists s :: s in m.state.schedules && s.id == id {
        var s :| s in m.state.schedules && s.id == id;
        RunSlots(m, timestamp, accepts, s);
      } else {
        SlotsOfConcat(m.jobs, RunJobs(m.state.schedules, timestamp), id);
        RunFiresEachDueOnce(m.state.schedules, timestamp, id);
        assert FiredSlots(m.jobs, id) + [] == FiredSlots(m.jobs, id);
      }
    }
  }

  lemma RunDueKeeps(m: Machine, timestamp: int, accepts: string -> bool)
    requires NoRefire(m)
    ensures NoRefire(Step(m, RunDue(timestamp), accepts))
  {
    hide FiredSlots, SlotsPast, SlotsIncrease, FiredMap, DueInOrder, RunJobs, IsDue, Cron.NextRun;
    var schedules, after := m.state.schedules, Step(m, RunDue(timestamp), accepts);
    RunSlotsIncrease(m, timestamp, accepts);
    forall i | 0 <= i < |schedules|
      ensures after.state.schedules[i].id == schedules[i].id
      ensures SlotsPast(after.state.schedules[i], FiredSlots(after.jobs, schedules[i].id))
    {
      AfterRunPointwise(schedules, timestamp, accepts, i);
      RunSlots(m, timestamp, accepts, schedules[i]);
    }
  }

  lemma StepKeepsNoRefire(m: Machine, c: Command, accepts: string -> bool)
    requires NoRefire(m) && GoodStep(m, c)
    ensures NoRefire(Step(m, c, accepts))
  {
    hide NoRefire, GoodStep, Step;
    match c
    case Create(input, generatedId, now) => CreateKeeps(m, input, generatedId, now, accepts);
    case Update(id, patch, now) => UpdateKeeps(m, id, patch, now, accepts);
    case Delete(id, now) => DeleteKeeps(m, id, now, accepts);
    case RunDue(timestamp) => RunDueKeeps(m, timestamp, accepts);
  }

  /** Over every run of steps that create under new ids and move no last run back, with any
      timestamps at all, the slots queued for each schedule are strictly increasing: none is queued
      twice. */
  lemma {:induction false} NoSlotFiresTwice(m: Machine, commands: seq<Command>, accepts: string -> bool)
    requires NoRefire(m) && GoodRun(m, commands, accepts)
    ensures NoRefire(Run(m, commands, accepts))
    decreases |commands|
  {
    hide NoRefire, GoodStep, Step;
    if commands != [] {
      StepKeepsNoRefire(m, commands[0], accepts);
      NoSlotFiresTwice(Step(m, commands[0], accepts), commands[1..], accepts);
    }
  }

  lemma EmptyStoreStarts()
    ensures NoRefire(Machine(State([], []), []))
  {
  }

  /** So from the empty store every good run queues strictly increasing slots for every schedule. */
  lemma {:induction false} SlotsIncreaseFromEmpty(commands: seq<Command>, accepts: string -> bool)
    requires GoodRun(Machine(State([], []), []), commands, accepts)
    ensures SlotsIncrease(Run(Machine(State([], []), []), commands, accepts).jobs)
  {
    EmptyStoreStarts();
    NoSlotFiresTwice(Machine(State([], []), []), commands, accepts);
  }
}
