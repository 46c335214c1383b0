/**
 The history retention pass: four tables pruned by comparing stored text with a
 cutoff, each under its own setting.
 */
module Retention {
  import opened Wrappers
  import opened Calendar
  import opened Decimals
  import opened StoredInstants
  import opened Text
  import opened Timestamps

  const DEFAULT_RETENTION_DAYS: int := 90
  const MIN_RETENTION_DAYS: int := 7

  // -------------------------------------------------------------------- settings

  /** strconv.Atoi: an optional sign and digits, within 64 bits. */
  function Atoi(s: string): Option<int> {
    var digits := if s != "" && (s[0] == '+' || s[0] == '-') then s[1..] else s;
    if digits == "" || !AllDigits(digits) then None
    else
      var n := if s[0] == '-' then -Value(digits) else Value(digits);
      if -0x8000_0000_0000_0000 <= n < 0x8000_0000_0000_0000 then Some(n) else None
  }

  /** The days a stored setting asks for: never below the floor. */
  function RetentionDays(value: string): (days: int)
    ensures MIN_RETENTION_DAYS <= days
  {
    var trimmed := Trim(value);
    if trimmed == "" || Atoi(trimmed) == None then DEFAULT_RETENTION_DAYS
    else if Atoi(trimmed).value < MIN_RETENTION_DAYS then MIN_RETENTION_DAYS
    else Atoi(trimmed).value
  }

  /** A day count an operator saved, with any white space around it, is honoured as far as the floor. */
  lemma SavedDaysAreHonoured(left: string, days: int, width: nat, right: string)
    requires AllSpaces(left) && AllSpaces(right)
    requires 0 <= days < Power10(width) && 1 <= width && days < 0x8000_0000_0000_0000
    ensures RetentionDays(left + Decimal(days, width) + right)
         == if days < MIN_RETENTION_DAYS then MIN_RETENTION_DAYS else days
  {
    hide Trim;
    var text := Decimal(days, width);
    TrimOfDigits(left, text, right);
    ValueOfDecimal(days, width);
  }

  /** Anything but a number, nothing included, is 90 days, and so is a setting never saved. */
  lemma DefaultIsNinety(value: string, i: nat)
    requires Trim(value) == "" || (i < |Trim(value)| && NoDigitOrSign(Trim(value), i))
    ensures RetentionDays(value) == 90 && ResolvedDays(Stored(value)) == Some(90) && ResolvedDays(Absent) == Some(90)
    ensures ResolvedDays(Unreadable) == None
  {
    var trimmed := Trim(value);
    if trimmed != "" && i > 0 { assert trimmed[1..][i - 1] == trimmed[i]; }
  }

  predicate NoDigitOrSign(s: string, i: nat)
    requires i < |s|
  {
    !IsDigit(s[i]) && (i > 0 || (s[i] != '+' && s[i] != '-'))
  }

  /** A negative day count is seven. */
  lemma NegativeIsSeven(days: int, width: nat)
    requires 1 <= width && 0 <= days < Power10(width) && days < 0x8000_0000_0000_0000
    ensures RetentionDays("-" + Decimal(days, width)) == 7
  {
    hide Trim, Decimal;
    var text := Decimal(days, width);
    ValueOfDecimal(days, width);
    var negative := "-" + text;
    assert negative[1..] == text && IsDigit(text[|text| - 1]) && negative[|negative| - 1] == text[|text| - 1];
    TrimOfTrimmed(negative);
  }

  lemma TrimOfDigits(left: string, digits: string, right: string)
    requires AllSpaces(left) && AllSpaces(right) && AllDigits(digits) && digits != ""
    ensures Trim(left + digits + right) == digits
    ensures IsDigit(digits[0])
  {
    assert IsDigit(digits[0]) && IsDigit(digits[|digits| - 1]);
    TrimOfPadded(left, digits, right);
  }

  /** GetSetting on a retention key: a value, no such row, or a failed read. */
  datatype SettingRead = Stored(value: string) | Absent | Unreadable

  /** None when the setting could not be read: the table must be left alone. */
  function ResolvedDays(read: SettingRead): (days: Option<int>)
    ensures days.Some? ==> MIN_RETENTION_DAYS <= days.value
    ensures days.None? <==> read.Unreadable?
  {
    match read
    case Stored(value) => Some(RetentionDays(value))
    case Absent => Some(DEFAULT_RETENTION_DAYS)
    case Unreadable => None
  }

  // ---------------------------------------------------------------------- cutoff

  /**
   strftime('%Y-%m-%dT%H:%M:%SZ', 'now', '-N days').  A cutoff before year 0000
   is NULL or begins with '-', and no canonical text is below either: None.
   */
  function Cutoff(now: int, days: int): (s: Option<string>) {
    var second := now - days * SECONDS_PER_DAY;
    if InFourDigitYears(second) then Some(SecondText(second, 'T') + "Z") else None
  }

  predicate OlderThan(started: string, cutoff: Option<string>) {
    cutoff.Some? && Before(started, cutoff.value)
  }

  /** The second a canonical timestamp names. */
  function StampOf(s: string): int {
    match ReadCivil(s, 'T')
    case Some(c) => SecondNumber(c)
    case None => 0
  }

  lemma CanonicalFromStamp(s: string)
    requires IsCanonical(s)
    ensures InFourDigitYears(StampOf(s)) && SecondText(StampOf(s), 'T') + "Z" == s
  {
    CanonicalMeaning(s);
    CanonicalIsWritten(s);
  }

  lemma CanonicalBeforeSecond(started: string, second: int)
    requires IsCanonical(started) && InFourDigitYears(second)
    ensures Before(started, SecondText(second, 'T') + "Z") <==> StampOf(started) < second
  {
    var stamp := StampOf(started);
    CanonicalFromStamp(started);
    SecondTextsInOrder(stamp, second, 'T');
    BeforeByHead(SecondText(stamp, 'T'), SecondText(second, 'T'), "Z", "Z");
    BeforeIrreflexive("Z");
  }

  /** The text comparison decides on instants: a canonical row is old iff its instant is. */
  lemma CutoffComparesInstants(started: string, now: int, days: int)
    requires IsCanonical(started) && InFourDigitYears(now) && 0 <= days
    ensures OlderThan(started, Cutoff(now, days)) <==> StampOf(started) < now - days * SECONDS_PER_DAY
  {
    hide IsCanonical, StampOf, SecondText, Before;
    var second := now - days * SECONDS_PER_DAY;
    if InFourDigitYears(second) {
      assert Cutoff(now, days) == Some(SecondText(second, 'T') + "Z");
      CanonicalBeforeSecond(started, second);
    } else {
      CanonicalFromStamp(started);
    }
  }

  // ---------------------------------------------------------------------- tables

  datatype Update = Update(completedAt: Option<string>)
  datatype Run = Run(startedAt: string)

  /** DELETE ... WHERE completed_at IS NOT NULL AND completed_at < cutoff */
  function UpdatesKept(rows: map<string, Update>, cutoff: Option<string>): map<string, Update> {
    map id | id in rows && !(rows[id].completedAt.Some? && OlderThan(rows[id].completedAt.value, cutoff)) :: rows[id]
  }

  /** DELETE ... WHERE started_at < cutoff */
  function RunsKept(rows: map<string, Run>, cutoff: Option<string>): map<string, Run> {
    map id | id in rows && !OlderThan(rows[id].startedAt, cutoff) :: rows[id]
  }

  /** ON DELETE CASCADE from backup_runs: items map to the run they belong to. */
  function ItemsKept(items: map<string, string>, runs: map<string, Run>): map<string, string> {
    map id | id in items && items[id] in runs :: items[id]
  }

  /** actionLogCutoff; before year 0 its text begins with "-", below every stored one, and is no cutoff. */
  function LogCutoff(t: Instant): Option<string> {
    if InFourDigitYears(t.second) then Some(StoredInstant(t)) else None
  }

  /** DELETE FROM action_log WHERE created_at < ?; entries by id, their column the stored text. */
  function LogsKept(entries: map<string, string>, cutoff: Option<string>): map<string, string> {
    map id | id in entries && !OlderThan(entries[id], cutoff) :: entries[id]
  }

  /** What a statement run with the given days leaves behind, by instant. */
  lemma UpdatesByAge(rows: map<string, Update>, now: int, days: int, id: string)
    requires InFourDigitYears(now) && 0 <= days && id in rows
    ensures rows[id].completedAt.None? ==> id in UpdatesKept(rows, Cutoff(now, days))
    ensures rows[id].completedAt.Some? && IsCanonical(rows[id].completedAt.value) ==>
      (id in UpdatesKept(rows, Cutoff(now, days)) <==>
       StampOf(rows[id].completedAt.value) >= now - days * SECONDS_PER_DAY)
  {
    if rows[id].completedAt.Some? && IsCanonical(rows[id].completedAt.value) {
      CutoffComparesInstants(rows[id].completedAt.value, now, days);
    }
  }

  lemma RunsByAge(rows: map<string, Run>, now: int, days: int, id: string)
    requires InFourDigitYears(now) && 0 <= days && id in rows && IsCanonical(rows[id].startedAt)
    ensures id in RunsKept(rows, Cutoff(now, days)) <==> StampOf(rows[id].startedAt) >= now - days * SECONDS_PER_DAY
  {
    CutoffComparesInstants(rows[id].startedAt, now, days);
  }

  datatype Table = ActionLogs | Updates | Backups | Cleanups

  /**
   What the pass meets: how each setting reads, which statements fail, the clock,
   and the same time of day so many days ago in the server's zone.
   */
  datatype Pass = Pass(logs: SettingRead, updates: SettingRead, backups: SettingRead, cleanups: SettingRead,
                       failing: set<Table>, now: int, daysAgo: int -> Instant)

  function SettingOf(p: Pass, t: Table): SettingRead {
    match t
    case ActionLogs => p.logs
    case Updates => p.updates
    case Backups => p.backups
    case Cleanups => p.cleanups
  }

  /** The table is pruned: its setting was read and its statement ran. */
  predicate Prunes(p: Pass, t: Table) {
    !SettingOf(p, t).Unreadable? && t !in p.failing
  }

  function CutoffOf(p: Pass, t: Table): Option<string> {
    match ResolvedDays(SettingOf(p, t))
    case Some(days) => Cutoff(p.now, days)
    case None => None
  }

  function AfterPass(rows: map<string, Update>, p: Pass): map<string, Update> {
    if Prunes(p, Updates) then UpdatesKept(rows, CutoffOf(p, Updates)) else rows
  }

  function RunsAfterPass(rows: map<string, Run>, p: Pass, t: Table): map<string, Run> {
    if Prunes(p, t) then RunsKept(rows, CutoffOf(p, t)) else rows
  }

  function LogsAfterPass(entries: map<string, string>, p: Pass): map<string, string> {
    if Prunes(p, ActionLogs) then LogsKept(entries, LogCutoff(p.daysAgo(ResolvedDays(p.logs).value))) else entries
  }

  /** Each table goes by its own setting, and by no other. */
  lemma EachByItsOwnSetting(entries: map<string, string>, updates: map<string, Update>, runs: map<string, Run>, p: Pass)
    ensures LogsAfterPass(entries, p)
         == if p.logs.Unreadable? || ActionLogs in p.failing then entries
            else LogsKept(entries, LogCutoff(p.daysAgo(ResolvedDays(p.logs).value)))
    ensures AfterPass(updates, p)
         == if p.updates.Unreadable? || Updates in p.failing then updates
            else UpdatesKept(updates, Cutoff(p.now, ResolvedDays(p.updates).value))
    ensures RunsAfterPass(runs, p, Backups)
         == if p.backups.Unreadable? || Backups in p.failing then runs
            else RunsKept(runs, Cutoff(p.now, ResolvedDays(p.backups).value))
    ensures RunsAfterPass(runs, p, Cleanups)
         == if p.cleanups.Unreadable? || Cleanups in p.failing then runs
            else RunsKept(runs, Cutoff(p.now, ResolvedDays(p.cleanups).value))
  {
    hide LogsKept, UpdatesKept, RunsKept, Cutoff, LogCutoff, ResolvedDays;
  }

  class History {
    var actions: map<string, string>
    var updates: map<string, Update>
    var runs: map<string, Run>
    var items: map<string, string>
    var cleanups: map<string, Run>

    constructor ()
      ensures actions == map[] && updates == map[] && runs == map[] && items == map[] && cleanups == map[]
    {
      actions, updates, runs, items, cleanups := map[], map[], map[], map[], map[];
    }

    ghost predicate Valid()
      reads this
    {
      forall id :: id in items ==> items[id] in runs
    }

    /** False: refused below the floor, or the statement failed; nothing is deleted then. */
    method DeleteOldActionLogs(days: int, cutoff: Instant, fails: bool) returns (ok: bool)
      modifies this`actions
      ensures ok <==> MIN_RETENTION_DAYS <= days && !fails
      ensures actions == if ok then LogsKept(old(actions), LogCutoff(cutoff)) else old(actions)
    {
      ok := MIN_RETENTION_DAYS <= days && !fails;
      if ok { actions := LogsKept(actions, LogCutoff(cutoff)); }
    }

    /** None: refused below the floor, or the statement failed; nothing is deleted then. */
    method DeleteOldUpdateHistory(days: int, now: int, fails: bool) returns (deleted: Option<nat>)
      requires InFourDigitYears(now)
      modifies this`updates
      ensures deleted.None? <==> days < MIN_RETENTION_DAYS || fails
      ensures updates == if deleted.None? then old(updates) else UpdatesKept(old(updates), Cutoff(now, days))
      ensures deleted.Some? ==> deleted.value == |old(updates)| - |updates|
    {
      if days < MIN_RETENTION_DAYS || fails { return None; }
      var kept := UpdatesKept(updates, Cutoff(now, days));
      SubmapIsSmaller(kept, updates);
      deleted := Some(|updates| - |kept|);
      updates := kept;
    }

    method DeleteOldBackupRuns(days: int, now: int, fails: bool) returns (deleted: Option<nat>)
      requires Valid() && InFourDigitYears(now)
      modifies this`runs, this`items
      ensures Valid()
      ensures deleted.None? <==> days < MIN_RETENTION_DAYS || fails
      ensures runs == if deleted.None? then old(runs) else RunsKept(old(runs), Cutoff(now, days))
      ensures items == ItemsKept(old(items), runs)
      ensures deleted.Some? ==> deleted.value == |old(runs)| - |runs|
    {
      if days < MIN_RETENTION_DAYS || fails {
        assert items == ItemsKept(items, runs);
        return None;
      }
      var kept := RunsKept(runs, Cutoff(now, days));
      SubmapIsSmaller(kept, runs);
      deleted := Some(|runs| - |kept|);
      runs, items := kept, ItemsKept(items, kept);
    }

    method DeleteOldDockerCleanupRuns(days: int, now: int, fails: bool) returns (deleted: Option<nat>)
      requires InFourDigitYears(now)
      modifies this`cleanups
      ensures deleted.None? <==> days < MIN_RETENTION_DAYS || fails
      ensures cleanups == if deleted.None? then old(cleanups) else RunsKept(old(cleanups), Cutoff(now, days))
      ensures deleted.Some? ==> deleted.value == |old(cleanups)| - |cleanups|
    {
      if days < MIN_RETENTION_DAYS || fails { return None; }
      var kept := RunsKept(cleanups, Cutoff(now, days));
      SubmapIsSmaller(kept, cleanups);
      deleted := Some(|cleanups| - |kept|);
      cleanups := kept;
    }

    method PruneActions(p: Pass)
      modifies this`actions
      ensures actions == LogsAfterPass(old(actions), p)
    {
      var days := ResolvedDays(SettingOf(p, ActionLogs));
      if days.None? { return; }
      var _ := DeleteOldActionLogs(days.value, p.daysAgo(days.value), ActionLogs in p.failing);
    }

    method PruneUpdates(p: Pass) returns (deleted: nat)
      requires InFourDigitYears(p.now)
      modifies this`updates
      ensures updates == AfterPass(old(updates), p)
      ensures deleted == |old(updates)| - |updates|
    {
      var days := ResolvedDays(SettingOf(p, Updates));
      if days.None? { return 0; }
      var n := DeleteOldUpdateHistory(days.value, p.now, Updates in p.failing);
      deleted := if n.Some? then n.value else 0;
    }

    method PruneBackups(p: Pass) returns (deleted: nat)
      requires Valid() && InFourDigitYears(p.now)
      modifies this`runs, this`items
      ensures Valid()
      ensures runs == RunsAfterPass(old(runs), p, Backups)
      ensures items == ItemsKept(old(items), runs)
      ensures deleted == |old(runs)| - |runs|
    {
      var days := ResolvedDays(SettingOf(p, Backups));
      if days.None? {
        assert items == ItemsKept(items, runs);
        return 0;
      }
      var n := DeleteOldBackupRuns(days.value, p.now, Backups in p.failing);
      deleted := if n.Some? then n.value else 0;
    }

    method PruneCleanups(p: Pass) returns (deleted: nat)
      requires InFourDigitYears(p.now)
      modifies this`cleanups
      ensures cleanups == RunsAfterPass(old(cleanups), p, Cleanups)
      ensures deleted == |old(cleanups)| - |cleanups|
    {
      var days := ResolvedDays(SettingOf(p, Cleanups));
      if days.None? { return 0; }
      var n := DeleteOldDockerCleanupRuns(days.value, p.now, Cleanups in p.failing);
      deleted := if n.Some? then n.value else 0;
    }

    /** Each table is pruned, or left exactly as it was, by its own setting and statement alone. */
    method PruneHistory(p: Pass) returns (deletedUpdates: nat, deletedRuns: nat, deletedCleanups: nat)
      requires Valid() && InFourDigitYears(p.now)
      modifies this
      ensures Valid()
      ensures actions == LogsAfterPass(old(actions), p) && updates == AfterPass(old(updates), p)
      ensures runs == RunsAfterPass(old(runs), p, Backups) && cleanups == RunsAfterPass(old(cleanups), p, Cleanups)
      ensures items == ItemsKept(old(items), runs)
      ensures deletedUpdates == |old(updates)| - |updates|
      ensures deletedRuns == |old(runs)| - |runs|
      ensures deletedCleanups == |old(cleanups)| - |cleanups|
    {
      PruneActions(p);
      deletedUpdates := PruneUpdates(p);
      deletedRuns := PruneBackups(p);
      deletedCleanups := PruneCleanups(p);
    }
  }

  lemma SubmapIsSmaller<V>(part: map<string, V>, whole: map<string, V>)
    requires part.Keys <= whole.Keys
    ensures |part| <= |whole|
  {
    SubsetIsSmaller(part.Keys, whole.Keys);
    assert |part| == |part.Keys| && |whole| == |whole.Keys|;
  }

  lemma {:induction false} SubsetIsSmaller(part: set<string>, whole: set<string>)
    requires part <= whole
    ensures |part| <= |whole|
  {
    if part != {} {
      var x :| x in part;
      SubsetIsSmaller(part - {x}, whole - {x});
    }
  }

  /** The age below which no pass deletes a canonically stamped row. */
  const GUARANTEED_SECONDS: int := MIN_RETENTION_DAYS * SECONDS_PER_DAY

  /**
   Whatever the settings hold: an update younger than seven days, or unfinished,
   survives the pass, and so does every update when the setting is unreadable.
   */
  lemma YoungUpdatesSurvive(rows: map<string, Update>, p: Pass, id: string)
    requires InFourDigitYears(p.now) && id in rows
    requires
      || rows[id].completedAt.None?
      || p.updates.Unreadable?
      || (IsCanonical(rows[id].completedAt.value) && StampOf(rows[id].completedAt.value) >= p.now - GUARANTEED_SECONDS)
    ensures id in AfterPass(rows, p) && AfterPass(rows, p)[id] == rows[id]
  {
    if Prunes(p, Updates) {
      UpdatesByAge(rows, p.now, ResolvedDays(p.updates).value, id);
    }
  }

  /** The same for a backup or cleanup run. */
  lemma YoungRunsSurvive(rows: map<string, Run>, p: Pass, t: Table, id: string)
    requires InFourDigitYears(p.now) && id in rows
    requires
      || SettingOf(p, t).Unreadable?
      || (IsCanonical(rows[id].startedAt) && StampOf(rows[id].startedAt) >= p.now - GUARANTEED_SECONDS)
    ensures id in RunsAfterPass(rows, p, t) && RunsAfterPass(rows, p, t)[id] == rows[id]
  {
    if Prunes(p, t) {
      RunsByAge(rows, p.now, ResolvedDays(SettingOf(p, t)).value, id);
    }
  }

  /** An action is kept exactly when its table is not pruned, or it is no older than the cutoff, to the millisecond. */
  lemma LogsByInstant(entries: map<string, string>, p: Pass, id: string)
    requires id in entries && IsStored(entries[id])
    requires Prunes(p, ActionLogs) ==> ValidInstant(p.daysAgo(ResolvedDays(p.logs).value))
    ensures id in LogsAfterPass(entries, p)
       <==> (!Prunes(p, ActionLogs)
             || MillisecondOf(entries[id]) >= Milliseconds(p.daysAgo(ResolvedDays(p.logs).value)))
  {
    hide StoredInstant, MillisecondOf, IsStored;
    if Prunes(p, ActionLogs) { StoredTextComparesInstants(entries[id], p.daysAgo(ResolvedDays(p.logs).value)); }
  }

  /**
   An action younger than seven days survives the pass, provided that the same time
   of day so many days ago is no later than seven days ago.
   */
  lemma YoungActionsSurvive(entries: map<string, string>, p: Pass, id: string)
    requires InFourDigitYears(p.now) && id in entries
    requires p.logs.Unreadable?
          || (IsStored(entries[id]) && MillisecondOf(entries[id]) >= (p.now - GUARANTEED_SECONDS) * 1000)
    requires Prunes(p, ActionLogs) ==>
      var cutoff := p.daysAgo(ResolvedDays(p.logs).value);
      0 <= cutoff.nanosecond < 1000000000 && Milliseconds(cutoff) <= (p.now - GUARANTEED_SECONDS) * 1000
    ensures id in LogsAfterPass(entries, p) && LogsAfterPass(entries, p)[id] == entries[id]
  {
    hide StoredInstant, MillisecondOf, IsStored;
    if Prunes(p, ActionLogs) && InFourDigitYears(p.daysAgo(ResolvedDays(p.logs).value).second) {
      LogsByInstant(entries, p, id);
    }
  }
}
