/** Two consequences of `updateSchedule` searching from the last run stored before the patch: a
    patched last run decides whether slots can fire again, and leaves the next run where it was. */
module SchedulerFindings {
  import opened Wrappers
  import opened Keyed
  import opened Scheduler
  import opened SchedulerRuns
  import Calendar
  import Cron
  import CronGuarantee

  // ----- moving a last run back

  function SetLastRun(lastRun: Option<int>): Patch {
    Patch(None, None, None, None, None, None, Some(lastRun))
  }

  /** Enable a schedule in UTC under an expression. */
  function Restart(expression: string): Patch {
    Patch(None, Some(expression), Some("UTC"), None, None, Some(true), None)
  }

  /** An enabled UTC schedule with a valid expression. */
  predicate Runs(s: Schedule, accepts: string -> bool) {
    s.enabled && s.timezone == "UTC" && Cron.ParseCron(s.cronExpression, accepts).Some?
  }

  /** The expression is valid and names the slot. */
  predicate Names(expression: string, slot: int, accepts: string -> bool) {
    && Cron.ParseCron(expression, accepts).Some?
    && Cron.RunsAt(Cron.ParseCron(expression, accepts).value, slot)
  }

  /** Some valid expression names the slot, as holds of every slot that is ever queued. */
  ghost predicate Nameable(slot: int, accepts: string -> bool) {
    exists expression :: Names(expression, slot, accepts)
  }

  /** The last run a patched record has. */
  function PatchedLastRun(existing: Schedule, patch: Patch): Option<int> {
    OrElse(patch.lastRun, existing.lastRun)
  }

  /** Whatever good steps follow, the slots of every schedule stay increasing. */
  ghost predicate StaysIncreasing(m: Machine, accepts: string -> bool) {
    forall commands :: GoodRun(m, commands, accepts) ==> SlotsIncrease(Run(m, commands, accepts).jobs)
  }

  lemma {:induction false} FindReplaced(schedules: seq<Schedule>, id: string, record: Schedule)
    requires UniqueKeys(schedules, ScheduleId) && First(schedules, ScheduleId, id).Some? && record.id == id
    ensures UniqueKeys(Replace(schedules, ScheduleId, id, record), ScheduleId)
    ensures First(Replace(schedules, ScheduleId, id, record), ScheduleId, id) == Some(record)
  {
    var i :| 0 <= i < |schedules| && schedules[i] == First(schedules, ScheduleId, id).value;
    var replaced := Replace(schedules, ScheduleId, id, record);
    assert replaced[i] == record && record in replaced;
    FindIsSome(replaced, record);
  }

  /** The state of one schedule after an update of it. */
  lemma {:induction false} UpdatedRecord(m: Machine, id: string, patch: Patch, now: int, accepts: string -> bool)
    requires UniqueKeys(m.state.schedules, ScheduleId) && First(m.state.schedules, ScheduleId, id).Some?
    ensures var after := Step(m, Update(id, patch, now), accepts);
            && after.jobs == m.jobs && UniqueKeys(after.state.schedules, ScheduleId)
            && First(after.state.schedules, ScheduleId, id)
               == Some(Merged(First(m.state.schedules, ScheduleId, id).value, patch, now, accepts))
  {
    hide Merged, UniqueKeys, First;
    MergedId(First(m.state.schedules, ScheduleId, id).value, patch, now, accepts);
    FindReplaced(m.state.schedules, id, Merged(First(m.state.schedules, ScheduleId, id).value, patch, now, accepts));
  }

  /** A search that starts within the minute before a named slot finds that one. */
  lemma NextRunIsNextMinute(expression: string, after: int, slot: int, accepts: string -> bool)
    requires Names(expression, slot, accepts) && slot - Cron.MINUTE <= after < slot
    ensures Cron.NextRun(expression, Some(after), "UTC", accepts) == Some(slot)
  {
    hide Cron.ParseCron, Cron.Matches;
    assert Cron.MinuteAfter(after) == slot / Cron.MINUTE;
  }

  /** With the last run set just before a slot, restarting the schedule under an expression that names
      the slot, and a run at the slot, queue it. */
  lemma {:induction false} SlotReturns(m: Machine, id: string, slot: int, expression: string, now: int,
                                       accepts: string -> bool)
    requires UniqueKeys(m.state.schedules, ScheduleId) && First(m.state.schedules, ScheduleId, id).Some?
    requires Names(expression, slot, accepts)
    requires var lastRun := First(m.state.schedules, ScheduleId, id).value.lastRun;
             lastRun.Some? && slot - Cron.MINUTE <= lastRun.value < slot
    ensures var restarted := Step(m, Update(id, Restart(expression), now), accepts);
            FiredSlots(Step(restarted, RunDue(slot), accepts).jobs, id) == FiredSlots(m.jobs, id) + [slot]
  {
    hide UniqueKeys, First, Names, Cron.NextRun, FiredSlots, RunJobs;
    var s := First(m.state.schedules, ScheduleId, id).value;
    NextRunIsNextMinute(expression, s.lastRun.value, slot, accepts);
    UpdatedRecord(m, id, Restart(expression), now, accepts);
    var restarted := Step(m, Update(id, Restart(expression), now), accepts);
    RunFiresEachDueOnce(restarted.state.schedules, slot, id);
    SlotsOfConcat(m.jobs, RunJobs(restarted.state.schedules, slot), id);
  }

  lemma RestartIsGood(m: Machine, id: string, expression: string, now: int)
    ensures GoodStep(m, Update(id, Restart(expression), now))
  {
  }

  lemma {:induction false} ThreeSteps(m: Machine, a: Command, b: Command, c: Command, accepts: string -> bool)
    requires GoodStep(m, a) && GoodStep(Step(m, a, accepts), b)
    requires GoodStep(Step(Step(m, a, accepts), b, accepts), c)
    ensures GoodRun(m, [a, b, c], accepts)
    ensures Run(m, [a, b, c], accepts) == Step(Step(Step(m, a, accepts), b, accepts), c, accepts)
  {
    hide GoodStep, Step;
    var m1 := Step(m, a, accepts);
    var m2 := Step(m1, b, accepts);
    var m3 := Step(m2, c, accepts);
    assert [a, b, c][1..] == [b, c] && [b, c][1..] == [c] && [c][1..] == [];
    assert Run(m3, [], accepts) == m3;
    assert Run(m2, [c], accepts) == m3;
    assert Run(m1, [b, c], accepts) == m3;
    assert GoodRun(m3, [], accepts);
    assert GoodRun(m2, [c], accepts);
    assert GoodRun(m1, [b, c], accepts);
  }

  lemma LastSlotRepeats(slots: seq<int>, slot: int)
    requires slots != [] && slots[|slots| - 1] == slot
    ensures !Increasing(slots + [slot])
  {
    var longer := slots + [slot];
    assert longer[|slots| - 1] == longer[|slots|];
  }

  /** With no last run, or one before the latest queued slot, good steps queue that slot again. */
  lemma {:induction false} BackdatedRefires(m: Machine, id: string, slot: int, now: int, accepts: string -> bool)
    requires UniqueKeys(m.state.schedules, ScheduleId) && First(m.state.schedules, ScheduleId, id).Some?
    requires Nameable(slot, accepts)
    requires var lastRun := First(m.state.schedules, ScheduleId, id).value.lastRun;
             lastRun.None? || lastRun.value < slot
    requires FiredSlots(m.jobs, id) != [] && FiredSlots(m.jobs, id)[|FiredSlots(m.jobs, id)| - 1] == slot
    ensures !StaysIncreasing(m, accepts)
  {
    hide UniqueKeys, First, Names, Cron.NextRun, FiredSlots, Increasing, GoodRun, Run, Step;
    var lastRun := First(m.state.schedules, ScheduleId, id).value.lastRun;
    var w := if lastRun.None? || lastRun.value < slot - Cron.MINUTE then slot - Cron.MINUTE else lastRun.value;
    var expression :| Names(expression, slot, accepts);
    var forward, restart := Update(id, SetLastRun(Some(w)), now), Update(id, Restart(expression), now);
    UpdatedRecord(m, id, SetLastRun(Some(w)), now, accepts);
    var m1 := Step(m, forward, accepts);
    RestartIsGood(m1, id, expression, now);
    SlotReturns(m1, id, slot, expression, now, accepts);
    var commands := [forward, restart, RunDue(slot)];
    ThreeSteps(m, forward, restart, RunDue(slot), accepts);
    LastSlotRepeats(FiredSlots(m.jobs, id), slot);
    assert GoodRun(m, commands, accepts) && !Increasing(FiredSlots(Run(m, commands, accepts).jobs, id));
  }

  lemma ForwardPatchPast(existing: Schedule, patch: Patch, now: int, accepts: string -> bool, slots: seq<int>)
    requires SlotsPast(existing, slots) && Increasing(slots) && slots != []
    requires PatchedLastRun(existing, patch).Some? && slots[|slots| - 1] <= PatchedLastRun(existing, patch).value
    ensures SlotsPast(Merged(existing, patch, now, accepts), slots)
  {
    hide Cron.NextRun, Cron.ParseCron, Cron.RunsAt;
    NextRunFacts(OrElse(patch.cronExpression, existing.cronExpression), OrElse(existing.lastRun, now),
                 OrElse(patch.timezone, existing.timezone), accepts);
  }

  lemma {:induction false} PatchKeepsNoRefire(m: Machine, id: string, patch: Patch, now: int, accepts: string -> bool)
    requires NoRefire(m) && First(m.state.schedules, ScheduleId, id).Some?
    requires var slots := FiredSlots(m.jobs, id);
             var lastRun := PatchedLastRun(First(m.state.schedules, ScheduleId, id).value, patch);
             slots != [] && lastRun.Some? && slots[|slots| - 1] <= lastRun.value
    ensures NoRefire(Step(m, Update(id, patch, now), accepts))
  {
    hide Merged, FiredSlots, SlotsPast, First, Increasing, PatchedLastRun;
    var existing := First(m.state.schedules, ScheduleId, id).value;
    ForwardPatchPast(existing, patch, now, accepts, FiredSlots(m.jobs, id));
    MergedId(existing, patch, now, accepts);
  }

  lemma NoRefireStays(m: Machine, accepts: string -> bool)
    requires NoRefire(m)
    ensures StaysIncreasing(m, accepts)
  {
    hide GoodRun, Run, SlotsIncrease;
    forall commands | GoodRun(m, commands, accepts) ensures SlotsIncrease(Run(m, commands, accepts).jobs) {
      NoSlotFiresTwice(m, commands, accepts);
    }
  }

  /** A schedule that has never fired can be patched in any way. */
  lemma {:induction false} UnfiredPatchKeepsNoRefire(m: Machine, id: string, patch: Patch, now: int,
                                                     accepts: string -> bool)
    requires NoRefire(m) && First(m.state.schedules, ScheduleId, id).Some? && FiredSlots(m.jobs, id) == []
    ensures NoRefire(Step(m, Update(id, patch, now), accepts))
  {
    var existing := First(m.state.schedules, ScheduleId, id).value;
    assert SlotsPast(Merged(existing, patch, now, accepts), []);
    MergedId(existing, patch, now, accepts);
    hide Merged, FiredSlots, SlotsPast, Increasing;
  }

  /** Any patch of any schedule, fired or not, enabled or not, is safe for every continuation exactly when
      nothing has been queued for it yet, or the patched record has a last run that is not before the
      latest slot queued for it. */
  lemma {:induction false} LastRunPatchIsSafeIff(m: Machine, id: string, patch: Patch, now: int,
                                                 accepts: string -> bool)
    requires NoRefire(m) && First(m.state.schedules, ScheduleId, id).Some?
    requires var slots := FiredSlots(m.jobs, id); slots != [] ==> Nameable(slots[|slots| - 1], accepts)
    ensures var slots := FiredSlots(m.jobs, id);
            var lastRun := PatchedLastRun(First(m.state.schedules, ScheduleId, id).value, patch);
            StaysIncreasing(Step(m, Update(id, patch, now), accepts), accepts) <==>
            slots == [] || (lastRun.Some? && slots[|slots| - 1] <= lastRun.value)
  {
    hide FiredSlots, First, UniqueKeys, SlotsIncrease, AllSlotsPast, StaysIncreasing, Nameable, Cron.NextRun;
    var slots := FiredSlots(m.jobs, id);
    var patched := Step(m, Update(id, patch, now), accepts);
    var lastRun := PatchedLastRun(First(m.state.schedules, ScheduleId, id).value, patch);
    if slots == [] {
      UnfiredPatchKeepsNoRefire(m, id, patch, now, accepts);
      NoRefireStays(patched, accepts);
    } else if lastRun.Some? && slots[|slots| - 1] <= lastRun.value {
      PatchKeepsNoRefire(m, id, patch, now, accepts);
      NoRefireStays(patched, accepts);
    } else {
      UpdatedRecord(m, id, patch, now, accepts);
      BackdatedRefires(patched, id, slots[|slots| - 1], now, accepts);
    }
  }

  // ----- every queued slot has an expression that names it

  ghost predicate SlotsNameable(jobs: seq<Job>, accepts: string -> bool) {
    forall k :: 0 <= k < |jobs| ==> Nameable(jobs[k].scheduledFor, accepts)
  }

  lemma RunJobsNameable(schedules: seq<Schedule>, timestamp: int, accepts: string -> bool)
    requires AllSound(schedules, accepts)
    ensures SlotsNameable(RunJobs(schedules, timestamp), accepts)
  {
    hide DueInOrder, Cron.ParseCron, Cron.RunsAt;
    DueInOrderFacts(schedules, timestamp);
    var due, jobs := DueInOrder(schedules, timestamp), RunJobs(schedules, timestamp);
    forall k | 0 <= k < |jobs| ensures Nameable(jobs[k].scheduledFor, accepts) {
      assert due[k] in schedules && Sound(due[k], accepts) && IsDue(due[k], timestamp);
      assert Names(due[k].cronExpression, jobs[k].scheduledFor, accepts);
    }
  }

  /** Over every run from a sound store, every slot ever queued is one that a valid expression names. */
  lemma {:induction false} RunsKeepNameable(m: Machine, commands: seq<Command>, accepts: string -> bool)
    requires AllSound(m.state.schedules, accepts) && SlotsNameable(m.jobs, accepts)
    ensures SlotsNameable(Run(m, commands, accepts).jobs, accepts)
    decreases |commands|
  {
    hide AllSound, AfterCreate, AfterUpdate, AfterDelete, AfterRunDue, RunJobs, Nameable;
    if commands != [] {
      StepKeepsSound(m, commands[0], accepts);
      if commands[0].RunDue? {
        RunJobsNameable(m.state.schedules, commands[0].timestamp, accepts);
      }
      RunsKeepNameable(Step(m, commands[0], accepts), commands[1..], accepts);
    }
  }

  // ----- a patch that is not safe

  const FRIDAY := (Calendar.DayFromYear(2000) + 286) * 1440 * Cron.MINUTE

  const THIRTEENTH := Schedule("s", "report", "0 0 13 * 5", "UTC", "report", map[], true, Some(FRIDAY), None,
                               "ops", 0, 0)

  /** One schedule that has fired once, at midnight on Friday 13 October 2000. */
  const FIRED := Machine(State([THIRTEENTH], []), [Job("report", map[], "s", FRIDAY, "scheduler:s", FRIDAY)])

  /** Clearing the last run of a schedule that has fired, or setting it a millisecond too early, lets its
      slot fire again. */
  lemma {:induction false} ClearedLastRunRefires(now: int, accepts: string -> bool)
    requires accepts("0 0 13 * 5")
    ensures NoRefire(FIRED)
    ensures !StaysIncreasing(Step(FIRED, Update("s", SetLastRun(None), now), accepts), accepts)
    ensures !StaysIncreasing(Step(FIRED, Update("s", SetLastRun(Some(FRIDAY - 1)), now), accepts), accepts)
  {
    FiredFacts();
    CronGuarantee.RestrictingBothCanMiss(accepts);
    hide StaysIncreasing, Step, NoRefire, First, FiredSlots;
    hide Cron.ParseCron, Cron.RunsAt, Cron.NextRun, Calendar.DayFromYear;
    assert Names("0 0 13 * 5", FRIDAY, accepts);
    LastRunPatchIsSafeIff(FIRED, "s", SetLastRun(None), now, accepts);
    LastRunPatchIsSafeIff(FIRED, "s", SetLastRun(Some(FRIDAY - 1)), now, accepts);
  }

  lemma FiredFacts()
    ensures NoRefire(FIRED) && First(FIRED.state.schedules, ScheduleId, "s") == Some(THIRTEENTH)
    ensures FiredSlots(FIRED.jobs, "s") == [FRIDAY]
  {
    assert FIRED.jobs[..0] == [];
    forall id ensures FiredSlots(FIRED.jobs, id) == if id == "s" then [FRIDAY] else [] {
    }
  }

  // ----- recording a run made elsewhere

  /** Recording a run leaves the next run where the search from the old last run puts it, or the search from
      the clock where there is none: the schedule is due at the recorded moment exactly when it runs at
      all and one of its minutes lies after the start of that search and not after the recorded moment
      (and inside the search window). */
  lemma RecordedRunStaysDueIff(existing: Schedule, moment: int, now: int, accepts: string -> bool)
    ensures var r := Merged(existing, SetLastRun(Some(moment)), now, accepts);
            && r.lastRun == Some(moment)
            && (IsDue(r, moment) <==>
                  Runs(existing, accepts)
                  && MissedSlot(existing.cronExpression, OrElse(existing.lastRun, now), moment, accepts))
  {
    hide Cron.ParseCron, Cron.RunsAt, Cron.FirstMatch, MissedSlot;
    var after := OrElse(existing.lastRun, now);
    if Runs(existing, accepts) {
      if Cron.NextRun(existing.cronExpression, Some(after), "UTC", accepts).Some? {
        FoundIsMissedSlot(existing.cronExpression, after, moment, accepts);
      } else {
        NotFoundIsNoMissedSlot(existing.cronExpression, after, moment, accepts);
      }
    }
  }

  lemma FoundIsMissedSlot(expression: string, after: int, moment: int, accepts: string -> bool)
    requires Cron.ParseCron(expression, accepts).Some?
    requires Cron.NextRun(expression, Some(after), "UTC", accepts).Some?
    ensures Cron.NextRun(expression, Some(after), "UTC", accepts).value <= moment <==>
            MissedSlot(expression, after, moment, accepts)
  {
    hide Cron.ParseCron, Cron.Matches, Cron.RunsAt;
    var cron, from := Cron.ParseCron(expression, accepts).value, Cron.MinuteAfter(after);
    var next := Cron.NextRun(expression, Some(after), "UTC", accepts).value;
    Cron.NextRunIsLeast(expression, after, accepts);
    Cron.FirstMatchIsEarliest(cron, from, from + Cron.WINDOW);
    assert next / Cron.MINUTE < from + Cron.WINDOW;
  }

  lemma NotFoundIsNoMissedSlot(expression: string, after: int, moment: int, accepts: string -> bool)
    requires Cron.ParseCron(expression, accepts).Some?
    requires Cron.NextRun(expression, Some(after), "UTC", accepts).None?
    ensures !MissedSlot(expression, after, moment, accepts)
  {
    hide Cron.ParseCron, Cron.Matches;
    Cron.NextRunIsLeast(expression, after, accepts);
    forall t | after < t <= moment && t / Cron.MINUTE < Cron.MinuteAfter(after) + Cron.WINDOW
      ensures !Cron.RunsAt(Cron.ParseCron(expression, accepts).value, t)
    {
      assert Cron.IsMinute(t) ==> Cron.MinuteAfter(after) <= t / Cron.MINUTE;
    }
  }

  /** Some minute of the expression lies after one moment, not after another, and inside the window that is
      searched from the first. */
  ghost predicate MissedSlot(expression: string, after: int, moment: int, accepts: string -> bool)
    requires Cron.ParseCron(expression, accepts).Some?
  {
    exists t :: after < t <= moment
                && t / Cron.MINUTE < Cron.MinuteAfter(after) + Cron.WINDOW
                && Cron.RunsAt(Cron.ParseCron(expression, accepts).value, t)
  }

  /** The first run of a schedule, recorded no earlier than it was made, leaves nothing due. */
  lemma FirstRecordedRunIsDone(existing: Schedule, moment: int, now: int, accepts: string -> bool)
    requires existing.lastRun.None? && moment <= now
    ensures !IsDue(Merged(existing, SetLastRun(Some(moment)), now, accepts), moment)
  {
    RecordedRunStaysDueIff(existing, moment, now, accepts);
    hide Merged, IsDue, Cron.ParseCron, Cron.RunsAt;
  }

  /** A run recorded at the very slot it served leaves the schedule due for that slot. */
  lemma RecordedRunIsServedAgain(now: int, accepts: string -> bool)
    requires accepts("0 0 13 * 5")
    ensures var existing := THIRTEENTH.(lastRun := Some(FRIDAY - 1));
            IsDue(Merged(existing, SetLastRun(Some(FRIDAY)), now, accepts), FRIDAY)
  {
    var existing := THIRTEENTH.(lastRun := Some(FRIDAY - 1));
    CronGuarantee.RestrictingBothCanMiss(accepts);
    hide Cron.ParseCron, Cron.RunsAt, Cron.NextRun, Calendar.DayFromYear, Merged;
    assert FRIDAY / Cron.MINUTE == Cron.MinuteAfter(FRIDAY - 1);
    assert MissedSlot("0 0 13 * 5", FRIDAY - 1, FRIDAY, accepts);
    RecordedRunStaysDueIff(existing, FRIDAY, now, accepts);
  }
}
