/**
 Concurrent saves of the backup settings: every save that wrote the schedule then
 stops and starts the scheduler, and the start reads what is stored, key by key.
 */
module BackupSchedule {
  import opened Wrappers

  /** backup_schedule_interval, _mode, _time and _days, in the order a start reads them. */
  const KEYS: nat := 4

  type Schedule = seq<string>

  // ----------------------------------------------------------------- one save alone

  class BackupService {
    var stored: Schedule
    /** the running scheduler's timetable; None when it is stopped */
    var running: Option<string>
    /** the last start could not read the settings, and refused */
    var refused: bool
    const plan: Schedule -> Option<string>

    constructor (stored: Schedule, plan: Schedule -> Option<string>)
      ensures this.stored == stored && this.plan == plan && running == None && !refused
    {
      this.stored, this.plan, running, refused := stored, plan, None, false;
    }

    method StopScheduler()
      modifies this`running
      ensures running == None
    {
      running := None;
    }

    /** Resolves the stored schedule key by key; a key that cannot be read refuses the start. */
    method StartScheduler(failsAt: Option<nat>)
      requires running == None
      modifies this`running, this`refused
      ensures refused <==> failsAt.Some? && failsAt.value < |stored|
      ensures running == if refused then None else plan(stored)
    {
      var draft: Schedule := [];
      while |draft| < |stored|
        invariant draft <= stored && running == None
        invariant failsAt.Some? ==> failsAt.value >= |draft|
      {
        if failsAt == Some(|draft|) {
          refused := true;
          return;
        }
        draft := draft + [stored[|draft|]];
      }
      assert draft == stored;
      running, refused := plan(draft), false;
    }

    /** A save that changes the schedule restarts the scheduler from what it stored; a failed one touches nothing. */
    method UpdateSettings(schedule: Option<Schedule>, saveFails: bool, failsAt: Option<nat>) returns (saved: bool)
      modifies this
      ensures saved <==> !saveFails
      ensures saved && schedule.Some? ==> (refused <==> failsAt.Some? && failsAt.value < |schedule.value|)
      ensures !saved || schedule == None ==> stored == old(stored) && running == old(running) && refused == old(refused)
      ensures saved && schedule.Some? ==> stored == schedule.value && running == if refused then None else plan(stored)
    {
      if saveFails { return false; }
      saved := true;
      if schedule.Some? {
        stored := schedule.value;
        StopScheduler();
        StartScheduler(failsAt);
      }
    }
  }

  // ----------------------------------------------------------------- interleavings

  datatype Stage =
    | Editing
    /** the settings are written; schedulerMu is not taken yet */
    | Written
    /** schedulerMu is held; the scheduler is not stopped yet */
    | Locked
    /** stopped; the start has read this much of the stored schedule */
    | Reading(draft: Schedule)
    /** the start is over, armed or refused; schedulerMu is still held */
    | Started
    | Finished

  datatype State = State(
    stage: nat -> Stage,
    stored: Schedule,
    holder: Option<nat>,
    /** the running scheduler's timetable; None when it is stopped */
    running: Option<string>,
    /** the last start could not read the settings, and refused */
    refused: bool)

  datatype Event =
    /** a save's transaction: the schedule it leaves, or a failure; a save of other keys starts nothing */
    | Save(p: nat, schedule: Schedule, ok: bool)
    | SaveOther(p: nat)
    | Lock(p: nat)
    | Stop(p: nat)
    | ReadKey(p: nat, ok: bool)
    | Arm(p: nat)
    | Unlock(p: nat)

  function To(s: State, p: nat, stage: Stage): State {
    s.(stage := (q: nat) => if q == p then stage else s.stage(q))
  }

  /** plan: the timetable a stored schedule asks for, if any. An event that cannot happen yet changes nothing. */
  function Next(s: State, plan: Schedule -> Option<string>, e: Event): State {
    match e
    case Save(p, schedule, ok) =>
      if s.stage(p) != Editing || |schedule| != KEYS then s
      else if ok then To(s, p, Written).(stored := schedule) else To(s, p, Finished)
    case SaveOther(p) => if s.stage(p) == Editing then To(s, p, Finished) else s
    case Lock(p) => if s.stage(p) == Written && s.holder == None then To(s, p, Locked).(holder := Some(p)) else s
    case Stop(p) => if s.stage(p) == Locked then To(s, p, Reading([])).(running := None) else s
    case ReadKey(p, ok) =>
      if !s.stage(p).Reading? || |s.stage(p).draft| >= |s.stored| then s
      else if ok then To(s, p, Reading(s.stage(p).draft + [s.stored[|s.stage(p).draft|]]))
      else To(s, p, Started).(refused := true)
    case Arm(p) =>
      if s.stage(p).Reading? && |s.stage(p).draft| == KEYS then
        To(s, p, Started).(running := plan(s.stage(p).draft), refused := false)
      else s
    case Unlock(p) => if s.stage(p) == Started then To(s, p, Finished).(holder := None) else s
  }

  function Run(s: State, plan: Schedule -> Option<string>, events: seq<Event>): State {
    if events == [] then s else Next(Run(s, plan, events[..|events| - 1]), plan, events[|events| - 1])
  }

  predicate HoldsMutex(g: Stage) {
    g.Locked? || g.Reading? || g.Started?
  }

  /** The scheduler runs as the stored schedule asks, or the last start refused and said so. */
  predicate InStep(s: State, plan: Schedule -> Option<string>) {
    if s.refused then s.running == None else s.running == plan(s.stored)
  }

  /** A save that has written has its own stop and start still to come. */
  ghost predicate RearmDue(s: State) {
    exists p :: s.stage(p) == Written || s.stage(p) == Locked
  }

  /** A start under way has so far read what is stored now. */
  predicate ReadingCurrent(s: State) {
    s.holder.Some? && s.stage(s.holder.value).Reading? && s.stage(s.holder.value).draft <= s.stored
  }

  predicate NotReading(s: State) {
    s.holder == None || s.stage(s.holder.value).Started?
  }

  ghost predicate Inv(s: State, plan: Schedule -> Option<string>) {
    && |s.stored| == KEYS
    && (forall p: nat :: HoldsMutex(s.stage(p)) <==> s.holder == Some(p))
    && (forall p :: s.stage(p).Reading? ==> s.running == None)
    && (RearmDue(s) || ReadingCurrent(s) || (NotReading(s) && InStep(s, plan)))
  }

  lemma WholeDraft(draft: Schedule, stored: Schedule)
    requires draft <= stored && |draft| == |stored|
    ensures draft == stored
  {
    assert stored == stored[..|draft|];
  }

  lemma StepKeepsInv(s: State, plan: Schedule -> Option<string>, e: Event)
    requires Inv(s, plan)
    ensures Inv(Next(s, plan, e), plan)
  {
    var after := Next(s, plan, e);
    if RearmDue(s) {
      var q :| s.stage(q) == Written || s.stage(q) == Locked;
      if after.stage(q) == Written || after.stage(q) == Locked {
        assert RearmDue(after);
      } else {
        assert e == Stop(q);
        assert after.stage(q) == Reading([]);
      }
    } else if e.Save? && after.stage(e.p) == Written {
      assert RearmDue(after);
    } else if e.Arm? && after != s {
      WholeDraft(s.stage(e.p).draft, s.stored);
    }
  }

  lemma {:induction false} RunKeepsInv(s: State, plan: Schedule -> Option<string>, events: seq<Event>)
    requires Inv(s, plan)
    ensures Inv(Run(s, plan, events), plan)
    decreases |events|
  {
    if events != [] {
      RunKeepsInv(s, plan, events[..|events| - 1]);
      StepKeepsInv(Run(s, plan, events[..|events| - 1]), plan, events[|events| - 1]);
    }
  }

  /** Nothing under way, the scheduler as the stored schedule asks. */
  ghost predicate Settled(s: State, plan: Schedule -> Option<string>) {
    |s.stored| == KEYS && s.holder == None && InStep(s, plan) && forall p :: s.stage(p) == Editing
  }

  /**
   Any number of saves, in any interleaving: once each has finished or never got
   to write, the running schedule is the stored one, unless the last start could
   not read it and refused.
   */
  lemma RunningMatchesStored(s: State, plan: Schedule -> Option<string>, events: seq<Event>)
    requires Settled(s, plan)
    requires forall p :: Run(s, plan, events).stage(p) == Editing || Run(s, plan, events).stage(p) == Finished
    ensures InStep(Run(s, plan, events), plan)
  {
    RunKeepsInv(s, plan, events);
  }

  // --------------------------------------------------------------------- progress

  lemma OneMore(s: State, plan: Schedule -> Option<string>, events: seq<Event>, e: Event)
    ensures Run(s, plan, events + [e]) == Next(Run(s, plan, events), plan, e)
  {
    assert (events + [e])[..|events|] == events;
  }

  /** A save that wrote, and whose turn it is. */
  predicate MayRestart(s: State, p: nat) {
    |s.stored| == KEYS && s.holder == None && s.stage(p) == Written
  }

  function Restart(p: nat): seq<Event> { [Lock(p)] + [Stop(p)] }
  function ReadAll(p: nat): seq<Event> {
    Restart(p) + [ReadKey(p, true)] + [ReadKey(p, true)] + [ReadKey(p, true)] + [ReadKey(p, true)]
  }

  lemma StopsFirst(s: State, plan: Schedule -> Option<string>, p: nat)
    requires MayRestart(s, p)
    ensures var now := Run(s, plan, Restart(p));
            now.stage(p) == Reading([]) && now.running == None && now.stored == s.stored && now.holder == Some(p)
  {
    assert [] + [Lock(p)] == [Lock(p)];
    OneMore(s, plan, [], Lock(p));
    OneMore(s, plan, [Lock(p)], Stop(p));
  }

  lemma ReadsEveryKey(s: State, plan: Schedule -> Option<string>, p: nat)
    requires MayRestart(s, p)
    ensures var now := Run(s, plan, ReadAll(p));
            now.stage(p) == Reading(s.stored) && now.running == None && now.stored == s.stored && now.holder == Some(p)
  {
    hide Run;
    StopsFirst(s, plan, p);
    var one := Restart(p) + [ReadKey(p, true)];
    OneMore(s, plan, Restart(p), ReadKey(p, true));
    OneMore(s, plan, one, ReadKey(p, true));
    OneMore(s, plan, one + [ReadKey(p, true)], ReadKey(p, true));
    OneMore(s, plan, one + [ReadKey(p, true)] + [ReadKey(p, true)], ReadKey(p, true));
    assert [s.stored[0]] + [s.stored[1]] + [s.stored[2]] + [s.stored[3]] == s.stored;
    assert [] + [s.stored[0]] == [s.stored[0]];
  }

  /** A save whose turn it is stops the scheduler, starts it as stored, and lets the next one in. */
  lemma RestartGetsThrough(s: State, plan: Schedule -> Option<string>, p: nat)
    requires MayRestart(s, p)
    ensures var end := Run(s, plan, ReadAll(p) + [Arm(p)] + [Unlock(p)]);
            && end.stage(p) == Finished && end.holder == None && end.stored == s.stored
            && end.running == plan(s.stored) && !end.refused
  {
    hide Run, ReadAll;
    ReadsEveryKey(s, plan, p);
    OneMore(s, plan, ReadAll(p), Arm(p));
    OneMore(s, plan, ReadAll(p) + [Arm(p)], Unlock(p));
  }

  /** A restart that cannot read a key leaves the scheduler stopped, says so, and lets the next one in. */
  lemma RefusedRestartGetsThrough(s: State, plan: Schedule -> Option<string>, p: nat)
    requires MayRestart(s, p)
    ensures var end := Run(s, plan, Restart(p) + [ReadKey(p, false)] + [Unlock(p)]);
            && end.stage(p) == Finished && end.holder == None && end.stored == s.stored
            && end.running == None && end.refused
  {
    hide Run, Restart;
    StopsFirst(s, plan, p);
    OneMore(s, plan, Restart(p), ReadKey(p, false));
    OneMore(s, plan, Restart(p) + [ReadKey(p, false)], Unlock(p));
  }

  /** What a save's transaction does: all of it, or nothing but an answer. */
  lemma SaveWrites(s: State, plan: Schedule -> Option<string>, p: nat, schedule: Schedule, ok: bool)
    requires s.stage(p) == Editing && |schedule| == KEYS
    ensures var now := Next(s, plan, Save(p, schedule, ok));
            && now.stage(p) == (if ok then Written else Finished) && now.stored == (if ok then schedule else s.stored)
            && now.running == s.running && now.holder == s.holder
    ensures var now := Next(s, plan, SaveOther(p));
            now.stage(p) == Finished && now.stored == s.stored && now.running == s.running && now.holder == s.holder
  {
  }
}
