/**
 Concurrent saves of the update scan interval: reading the old interval, writing
 the new one and restarting the scanner are one section under scanIntervalMu.
 */
module ScanInterval {
  import opened Wrappers

  function Wanted(minutes: int): Option<int> {
    if minutes > 0 then Some(minutes) else None
  }

  // ----------------------------------------------------------------- one save alone

  class Settings {
    /** the stored interval in minutes, 0 when none or not a number is stored */
    var stored: int
    /** the scanner's interval; None when it is stopped */
    var running: Option<int>

    /** At boot the scanner is started at the stored interval, unless a fault in reading it leaves the scanner off. */
    constructor (stored: int, readFails: bool)
      ensures this.stored == stored && running == if readFails || stored <= 0 then None else Some(stored)
    {
      this.stored, running := stored, if readFails then None else Wanted(stored);
    }

    /** Read, write, and restart or stop only on a change; a fault before the commit leaves both as they were. */
    method UpdateScanInterval(minutes: int, readFails: bool, writeFails: bool) returns (saved: bool)
      modifies this
      ensures saved <==> !readFails && !writeFails
      ensures !saved ==> stored == old(stored) && running == old(running)
      ensures saved ==> stored == minutes && running == if minutes != old(stored) then Wanted(minutes) else old(running)
      ensures running == Wanted(stored) <==> old(running) == Wanted(old(stored)) || (saved && minutes != old(stored))
    {
      if readFails { return false; }
      var before := stored;
      if writeFails { return false; }
      stored := minutes;
      if minutes != before {
        if minutes > 0 { running := Some(minutes); } else { running := None; }
      }
      saved := true;
    }
  }

  // ----------------------------------------------------------------- interleavings

  datatype Stage =
    | Waiting
    | Locked
    /** the old interval, 0 when none or not a number is stored */
    | HasOld(before: int)
    | HasWritten(before: int)
    | Rearmed
    | Finished

  datatype State = State(
    stage: nat -> Stage,
    /** the stored interval in minutes, 0 when none or not a number is stored */
    stored: int,
    holder: Option<nat>,
    /** the scanner's interval; None when it is stopped */
    running: Option<int>)

  /** The next action of the request that wants this interval, which succeeds or fails. */
  datatype Event = Act(p: nat, ok: bool)

  function To(s: State, p: nat, stage: Stage): State {
    s.(stage := (q: nat) => if q == p then stage else s.stage(q))
  }

  /** The handler returns: the deferred unlock. */
  function Leave(s: State, p: nat): State {
    To(s, p, Finished).(holder := None)
  }

  function Next(s: State, interval: nat -> int, e: Event): State {
    var p, minutes := e.p, interval(e.p);
    match s.stage(p)
    case Waiting => if s.holder == None then To(s, p, Locked).(holder := Some(p)) else s
    case Locked => if e.ok then To(s, p, HasOld(s.stored)) else Leave(s, p)
    case HasOld(before) => if e.ok then To(s, p, HasWritten(before)).(stored := minutes) else Leave(s, p)
    case HasWritten(before) => To(s, p, Rearmed).(running := if minutes != before then Wanted(minutes) else s.running)
    case Rearmed => Leave(s, p)
    case Finished => s
  }

  function Run(s: State, interval: nat -> int, events: seq<Event>): State {
    if events == [] then s else Next(Run(s, interval, events[..|events| - 1]), interval, events[|events| - 1])
  }

  predicate Inside(g: Stage) {
    g.Locked? || g.HasOld? || g.HasWritten? || g.Rearmed?
  }

  /** A save commits an interval other than the one it read. */
  predicate CommitsChange(s: State, interval: nat -> int, e: Event) {
    s.stage(e.p).HasOld? && e.ok && interval(e.p) != s.stage(e.p).before
  }

  predicate AnyChange(s: State, interval: nat -> int, events: seq<Event>) {
    && events != []
    && (AnyChange(s, interval, events[..|events| - 1])
        || CommitsChange(Run(s, interval, events[..|events| - 1]), interval, events[|events| - 1]))
  }

  /** What the holder knows: the interval it read is the stored one until it writes its own. */
  predicate HolderKnows(s: State, p: nat, minutes: int) {
    match s.stage(p)
    case HasOld(before) => before == s.stored
    case HasWritten(_) => s.stored == minutes
    case _ => true
  }

  /** The holder has committed a change that it has not yet passed on to the scanner. */
  predicate RearmDue(s: State, interval: nat -> int) {
    && s.holder.Some? && s.stage(s.holder.value).HasWritten?
    && s.stage(s.holder.value).before != interval(s.holder.value)
  }

  /** `cured`: the scanner was in step at the start, or a change has been committed since. */
  ghost predicate Inv(s: State, interval: nat -> int, cured: bool) {
    && (forall p: nat :: Inside(s.stage(p)) <==> s.holder == Some(p))
    && (s.holder.Some? ==> HolderKnows(s, s.holder.value, interval(s.holder.value)))
    && (RearmDue(s, interval) ==> cured)
    && (!RearmDue(s, interval) ==> (s.running == Wanted(s.stored) <==> cured))
  }

  lemma StepKeepsInv(s: State, interval: nat -> int, e: Event, cured: bool)
    requires Inv(s, interval, cured)
    ensures Inv(Next(s, interval, e), interval, cured || CommitsChange(s, interval, e))
  {
    assert Inside(s.stage(e.p)) <==> s.holder == Some(e.p);
  }

  lemma {:induction false} RunKeepsInv(s: State, interval: nat -> int, events: seq<Event>)
    requires Quiet(s)
    ensures Inv(Run(s, interval, events), interval, s.running == Wanted(s.stored) || AnyChange(s, interval, events))
    decreases |events|
  {
    if events != [] {
      var front := events[..|events| - 1];
      RunKeepsInv(s, interval, front);
      StepKeepsInv(Run(s, interval, front), interval, events[|events| - 1],
                   s.running == Wanted(s.stored) || AnyChange(s, interval, front));
    }
  }

  ghost predicate Quiet(s: State) {
    s.holder == None && forall p :: s.stage(p) == Waiting
  }

  /**
   From any start, and whatever requests have come, interleaved or failed on the
   way: whenever the mutex is free the scanner runs at the stored interval
   exactly when it did at the start, or some save has committed an interval other
   than the one it read.
   */
  lemma RunningMatchesStored(s: State, interval: nat -> int, events: seq<Event>)
    requires Quiet(s) && Run(s, interval, events).holder == None
    ensures var end := Run(s, interval, events);
            end.running == Wanted(end.stored) <==>
              s.running == Wanted(s.stored) || AnyChange(s, interval, events)
  {
    RunKeepsInv(s, interval, events);
  }

  /** Every request so far has met the interval it wants already stored. */
  predicate Unchanged(s: State, start: State, p: nat) {
    match s.stage(p)
    case HasOld(before) => before == start.stored
    case HasWritten(before) => before == start.stored
    case _ => true
  }

  /**
   The witness: a scanner left off at boot although an interval is stored stays
   off however often the same interval is saved, since only a change restarts it.
   */
  lemma {:induction false} SameIntervalNeverRestarts(s: State, interval: nat -> int, events: seq<Event>)
    requires Quiet(s) && forall p :: interval(p) == s.stored
    ensures Run(s, interval, events).running == s.running && Run(s, interval, events).stored == s.stored
    ensures forall p :: Unchanged(Run(s, interval, events), s, p)
    decreases |events|
  {
    if events != [] {
      SameIntervalNeverRestarts(s, interval, events[..|events| - 1]);
      var before, e := Run(s, interval, events[..|events| - 1]), events[|events| - 1];
      assert Unchanged(before, s, e.p);
      forall p ensures Unchanged(Next(before, interval, e), s, p) { assert Unchanged(before, s, p); }
    }
  }

  lemma OneMore(s: State, interval: nat -> int, events: seq<Event>, e: Event)
    ensures Run(s, interval, events + [e]) == Next(Run(s, interval, events), interval, e)
  {
    assert (events + [e])[..|events|] == events;
  }

  /** A save whose turn it is, with no call failing, from taking the mutex to giving it back. */
  function Turn(p: nat): seq<Event> {
    [Act(p, true)] + [Act(p, true)] + [Act(p, true)] + [Act(p, true)] + [Act(p, true)]
  }

  /** It stores its interval, restarts or stops the scanner on a change, and lets the next one in. */
  lemma SaveGetsThrough(s: State, interval: nat -> int, p: nat)
    requires s.holder == None && s.stage(p) == Waiting
    ensures var end := Run(s, interval, Turn(p));
            && end.stage(p) == Finished && end.holder == None && end.stored == interval(p)
            && end.running == if interval(p) == s.stored then s.running
                              else if interval(p) > 0 then Some(interval(p)) else None
  {
    var one := [Act(p, true)];
    assert [] + one == one;
    OneMore(s, interval, [], Act(p, true));
    OneMore(s, interval, one, Act(p, true));
    OneMore(s, interval, one + one, Act(p, true));
    OneMore(s, interval, one + one + one, Act(p, true));
    OneMore(s, interval, one + one + one + one, Act(p, true));
  }

  /** A failed read or write changes neither interval and lets the next one in. */
  lemma FailedSaveGetsThrough(s: State, interval: nat -> int, p: nat, e: Event)
    requires e == Act(p, false) && (s.stage(p).Locked? || s.stage(p).HasOld?)
    ensures var end := Next(s, interval, e);
            end.stage(p) == Finished && end.holder == None && end.stored == s.stored && end.running == s.running
  {
  }
}
