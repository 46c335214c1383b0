/**
 The schema migration runner: each migration in its own transaction, its version
 recorded in the same commit, over boots by binaries of different ages.
 */
module MigrationRunner {
  import opened Wrappers

  /** The script and the pre-check are functions of the data they find; a script may fail on it. */
  datatype Migration<!S> = Migration(version: int, preCheck: S -> bool, script: S -> Option<S>)

  /** The data and the schema_migrations table. */
  datatype Db<S> = Db(data: S, recorded: set<int>)

  /** Where one turn of the loop is cut short, if at all. */
  datatype Fault =
    | NoFault
    | StatusUnreadable
    | BeginFails
    | PreCheckFails
    | ScriptFails
    | RecordFails
    | CommitFails
    | CrashBeforeCommit
    | CrashAfterCommit

  datatype Outcome = Started | RefusedNewer | Failed | Crashed

  /** One turn of the loop: what is committed, and how the boot ended if it ended here. */
  datatype Turn<S> = Turn(db: Db<S>, ended: Option<Outcome>)

  function RunOne<S>(db: Db<S>, m: Migration<S>, fault: Fault): Turn<S> {
    if fault == StatusUnreadable then Turn(db, Some(Failed))
    else if m.version in db.recorded then
      Turn(db, if fault == CrashBeforeCommit || fault == CrashAfterCommit then Some(Crashed) else None)
    else if fault == BeginFails || fault == PreCheckFails || !m.preCheck(db.data) then Turn(db, Some(Failed))
    else
      match m.script(db.data)
      case None => Turn(db, Some(Failed))
      case Some(data) =>
        if fault == ScriptFails || fault == RecordFails || fault == CommitFails then Turn(db, Some(Failed))
        else if fault == CrashBeforeCommit then Turn(db, Some(Crashed))
        else Turn(Db(data, db.recorded + {m.version}), if fault == CrashAfterCommit then Some(Crashed) else None)
  }

  /** A migration takes effect exactly when new, allowed by its pre-check, run by its script and committed. */
  lemma AppliedExactly<S>(db: Db<S>, m: Migration<S>, fault: Fault)
    ensures var turn := RunOne(db, m, fault);
            var applies := m.version !in db.recorded && m.preCheck(db.data) && m.script(db.data).Some?
                           && (fault == NoFault || fault == CrashAfterCommit);
            && turn.db == (if applies then Db(m.script(db.data).value, db.recorded + {m.version}) else db)
            && (m.version !in db.recorded && !applies ==> turn.ended == Some(Failed) || turn.ended == Some(Crashed))
            && (m.version !in db.recorded && !m.preCheck(db.data) ==> turn.ended == Some(Failed))
            && (fault == NoFault && (applies || m.version in db.recorded) ==> turn.ended == None)
  {
  }

  /** The apply loop from migration i on. */
  function RunFrom<S>(db: Db<S>, migrations: seq<Migration<S>>, i: nat, faults: nat -> Fault): Turn<S>
    requires i <= |migrations|
    decreases |migrations| - i
  {
    if i == |migrations| then Turn(db, Some(Started))
    else
      var turn := RunOne(db, migrations[i], faults(i));
      if turn.ended.Some? then turn else RunFrom(turn.db, migrations, i + 1, faults)
  }

  /** Some recorded version is beyond the binary's last: MAX(version) is, and an empty table counts as 0. */
  predicate Newer<S>(db: Db<S>, migrations: seq<Migration<S>>)
    requires migrations != []
  {
    exists v :: v in db.recorded && v > migrations[|migrations| - 1].version
  }

  function RunMigrations<S>(db: Db<S>, migrations: seq<Migration<S>>, allowDowngrade: bool,
                            faults: nat -> Fault): Turn<S>
    requires migrations != []
  {
    if Newer(db, migrations) && !allowDowngrade then Turn(db, Some(RefusedNewer))
    else RunFrom(db, migrations, 0, faults)
  }

  class Database<S> {
    var data: S
    var recorded: set<int>

    constructor (initial: S)
      ensures State() == Db(initial, {})
    {
      data, recorded := initial, {};
    }

    function State(): Db<S>
      reads this
    {
      Db(data, recorded)
    }

    /** One transaction: script and version together, or neither. */
    method Transact(m: Migration<S>, fault: Fault) returns (ended: Option<Outcome>)
      modifies this
      ensures m.version !in old(recorded) && fault != StatusUnreadable ==>
        Turn(State(), ended) == RunOne(old(State()), m, fault)
    {
      if fault == BeginFails { return Some(Failed); }
      if !m.preCheck(data) || fault == PreCheckFails { return Some(Failed); }
      var script := m.script(data);
      if script.None? || fault == ScriptFails { return Some(Failed); }
      var transactionVersions := recorded + {m.version};
      if fault == RecordFails { return Some(Failed); }
      if fault == CommitFails { return Some(Failed); }
      if fault == CrashBeforeCommit { return Some(Crashed); }
      data, recorded := script.value, transactionVersions;
      ended := if fault == CrashAfterCommit then Some(Crashed) else None;
    }

    method Boot(migrations: seq<Migration<S>>, allowDowngrade: bool, faults: nat -> Fault) returns (outcome: Outcome)
      requires migrations != []
      modifies this
      ensures Turn(State(), Some(outcome)) == RunMigrations(old(State()), migrations, allowDowngrade, faults)
    {
      if Newer(State(), migrations) && !allowDowngrade { return RefusedNewer; }
      var i := 0;
      while i < |migrations|
        invariant 0 <= i <= |migrations|
        invariant RunFrom(State(), migrations, i, faults) == RunFrom(old(State()), migrations, 0, faults)
      {
        if faults(i) == StatusUnreadable { return Failed; }
        if migrations[i].version in recorded {
          if faults(i) == CrashBeforeCommit || faults(i) == CrashAfterCommit { return Crashed; }
        } else {
          var ended := Transact(migrations[i], faults(i));
          if ended.Some? { return ended.value; }
        }
        i := i + 1;
      }
      return Started;
    }
  }

  // ------------------------------------------------------------------------ runs

  /** One development line: versions 1, 2, 3, ... */
  predicate Line<S>(line: seq<Migration<S>>) {
    forall i :: 0 <= i < |line| ==> line[i].version == i + 1
  }

  /** The data after the first k migrations, each run once and in order. */
  function AfterFirst<S>(initial: S, line: seq<Migration<S>>, k: nat): Option<S>
    requires k <= |line|
  {
    if k == 0 then Some(initial)
    else
      match AfterFirst(initial, line, k - 1)
      case None => None
      case Some(data) => line[k - 1].script(data)
  }

  function Versions(k: nat): set<int> {
    if k == 0 then {} else Versions(k - 1) + {k}
  }

  lemma {:induction false} VersionsUpTo(k: nat, v: int)
    ensures v in Versions(k) <==> 1 <= v <= k
  {
    if k > 0 { VersionsUpTo(k - 1, v); }
  }

  /** Exactly the first k migrations are recorded and their effects, once each and in order, are the data. */
  predicate At<S(==)>(db: Db<S>, initial: S, line: seq<Migration<S>>, k: nat) {
    k <= |line| && db.recorded == Versions(k) && AfterFirst(initial, line, k) == Some(db.data)
  }

  /** A boot by the binary that knows the first `size` migrations. */
  datatype Boot = Boot(size: nat, allowDowngrade: bool, faults: nat -> Fault)

  predicate ValidBoot<S>(b: Boot, line: seq<Migration<S>>) {
    1 <= b.size <= |line|
  }

  function BootOnce<S>(db: Db<S>, line: seq<Migration<S>>, b: Boot): Turn<S>
    requires ValidBoot(b, line)
  {
    RunMigrations(db, line[..b.size], b.allowDowngrade, b.faults)
  }

  function BootAll<S>(db: Db<S>, line: seq<Migration<S>>, boots: seq<Boot>): Db<S>
    requires forall i :: 0 <= i < |boots| ==> ValidBoot(boots[i], line)
  {
    if boots == [] then db else BootOnce(BootAll(db, line, boots[..|boots| - 1]), line, boots[|boots| - 1]).db
  }

  lemma RunOneKeepsPlace<S>(db: Db<S>, initial: S, line: seq<Migration<S>>, k: nat, i: nat, fault: Fault)
    requires Line(line) && At(db, initial, line, k) && i < |line| && i <= k
    ensures var turn := RunOne(db, line[i], fault);
            || (turn.db == db && (turn.ended.Some? || i < k))
            || (i == k && At(turn.db, initial, line, k + 1))
    ensures RunOne(db, line[i], fault).ended != Some(Started)
  {
    VersionsUpTo(k, i + 1);
  }

  /** The loop ends at some k' between its start and where it may reach; finished, at least at its own length. */
  lemma {:induction false} RunFromKeepsPlace<S>(
      db: Db<S>, initial: S, line: seq<Migration<S>>, size: nat, k: nat, i: nat, faults: nat -> Fault)
    returns (reached: nat)
    requires Line(line) && At(db, initial, line, k) && i <= size <= |line| && i <= k
    ensures k <= reached <= (if k < size then size else k)
    ensures At(RunFrom(db, line[..size], i, faults).db, initial, line, reached)
    ensures RunFrom(db, line[..size], i, faults).ended == Some(Started) ==> reached >= size
    decreases size - i
  {
    hide RunOne, AfterFirst, Versions, At;
    if i == size { return k; }
    RunOneKeepsPlace(db, initial, line, k, i, faults(i));
    var turn := RunOne(db, line[i], faults(i));
    var next := if i < k || (turn.ended.Some? && turn.db == db) then k else k + 1;
    assert RunFrom(db, line[..size], i, faults)
        == if turn.ended.Some? then turn else RunFrom(turn.db, line[..size], i + 1, faults);
    if turn.ended.Some? { return next; }
    reached := RunFromKeepsPlace(turn.db, initial, line, size, next, i + 1, faults);
  }

  lemma NewerMeansShorter<S>(db: Db<S>, initial: S, line: seq<Migration<S>>, k: nat, size: nat)
    requires Line(line) && At(db, initial, line, k) && 1 <= size <= |line|
    ensures Newer(db, line[..size]) <==> size < k
  {
    VersionsUpTo(k, k);
    forall v | v in db.recorded ensures v <= k { VersionsUpTo(k, v); }
    if size < k { assert k in db.recorded && k > line[..size][size - 1].version; }
  }

  /**
   An older binary leaves the database exactly as it is: refused without the
   override, and with it every one of its migrations is already recorded.
   */
  lemma OlderBinaryAppliesNothing<S>(db: Db<S>, initial: S, line: seq<Migration<S>>, k: nat, b: Boot)
    requires Line(line) && At(db, initial, line, k) && ValidBoot(b, line) && b.size < k
    ensures BootOnce(db, line, b).db == db
    ensures !b.allowDowngrade ==> BootOnce(db, line, b).ended == Some(RefusedNewer)
    ensures b.allowDowngrade && (forall i :: 0 <= i < b.size ==> b.faults(i) == NoFault) ==>
              BootOnce(db, line, b).ended == Some(Started)
  {
    NewerMeansShorter(db, initial, line, k, b.size);
    forall i | 0 <= i < b.size ensures line[..b.size][i].version in db.recorded { VersionsUpTo(k, i + 1); }
    if b.allowDowngrade { SkipsRecorded(db, line[..b.size], 0, b.faults); }
  }

  lemma {:induction false} SkipsRecorded<S>(db: Db<S>, migrations: seq<Migration<S>>, i: nat, faults: nat -> Fault)
    requires i <= |migrations|
    requires forall j :: i <= j < |migrations| ==> migrations[j].version in db.recorded
    ensures RunFrom(db, migrations, i, faults).db == db
    ensures (forall j :: i <= j < |migrations| ==> faults(j) == NoFault) ==>
              RunFrom(db, migrations, i, faults).ended == Some(Started)
    decreases |migrations| - i
  {
    if i < |migrations| { SkipsRecorded(db, migrations, i + 1, faults); }
  }

  /** One boot moves the database forward along the line, never back, and never past its own binary. */
  lemma BootKeepsPlace<S>(db: Db<S>, initial: S, line: seq<Migration<S>>, k: nat, b: Boot) returns (reached: nat)
    requires Line(line) && At(db, initial, line, k) && ValidBoot(b, line)
    ensures k <= reached <= (if k < b.size then b.size else k)
    ensures At(BootOnce(db, line, b).db, initial, line, reached)
    ensures BootOnce(db, line, b).ended == Some(Started) ==> reached >= b.size
  {
    NewerMeansShorter(db, initial, line, k, b.size);
    if Newer(db, line[..b.size]) && !b.allowDowngrade { return k; }
    reached := RunFromKeepsPlace(db, initial, line, b.size, k, 0, b.faults);
  }

  /**
   Over every sequence of boots, by older and newer binaries, cut short anywhere:
   the recorded versions are 1..k for some k, and the data is what the first k
   migrations make of the initial data, each run exactly once and in order.
   */
  lemma {:induction false} EveryRunIsAPrefix<S>(initial: S, line: seq<Migration<S>>, boots: seq<Boot>) returns (k: nat)
    requires Line(line)
    requires forall i :: 0 <= i < |boots| ==> ValidBoot(boots[i], line)
    ensures At(BootAll(Db(initial, {}), line, boots), initial, line, k)
    decreases |boots|
  {
    if boots == [] {
      assert Versions(0) == {};
      return 0;
    }
    var before := EveryRunIsAPrefix(initial, line, boots[..|boots| - 1]);
    k := BootKeepsPlace(BootAll(Db(initial, {}), line, boots[..|boots| - 1]), initial, line, before,
                        boots[|boots| - 1]);
  }

  /** The j-th migration's pre-check and script succeed on what the ones before it leave. */
  predicate Passes<S>(initial: S, line: seq<Migration<S>>, j: nat) {
    && j < |line| && AfterFirst(initial, line, j).Some?
    && line[j].preCheck(AfterFirst(initial, line, j).value)
    && line[j].script(AfterFirst(initial, line, j).value).Some?
  }

  lemma RunOneAdvances<S>(db: Db<S>, initial: S, line: seq<Migration<S>>, k: nat, i: nat)
    requires Line(line) && At(db, initial, line, k) && i < |line| && i <= k
    requires i == k ==> Passes(initial, line, k)
    ensures RunOne(db, line[i], NoFault).ended == None
    ensures At(RunOne(db, line[i], NoFault).db, initial, line, if i == k then k + 1 else k)
  {
    VersionsUpTo(k, i + 1);
  }

  /** A boot nothing interrupts, whose scripts and pre-checks succeed, completes the binary's own schema. */
  lemma {:induction false} CleanBootCompletes<S>(
      db: Db<S>, initial: S, line: seq<Migration<S>>, size: nat, k: nat, i: nat, faults: nat -> Fault)
    requires Line(line) && At(db, initial, line, k) && i <= size <= |line| && i <= k
    requires forall j :: i <= j < size ==> faults(j) == NoFault
    requires forall j :: k <= j < size ==> Passes(initial, line, j)
    ensures RunFrom(db, line[..size], i, faults).ended == Some(Started)
    ensures At(RunFrom(db, line[..size], i, faults).db, initial, line, if k < size then size else k)
    decreases size - i
  {
    hide AfterFirst, Versions;
    if i < size {
      RunOneAdvances(db, initial, line, k, i);
      CleanBootCompletes(RunOne(db, line[i], NoFault).db, initial, line, size,
                         if i == k then k + 1 else k, i + 1, faults);
    }
  }
}
