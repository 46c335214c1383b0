/**
 Saving a compose file and its env file together: env first, then compose, each
 rolled back if what follows fails.
 */
module ComposeSave {
  import opened Wrappers
  import opened AtomicWrite

  /** What readers of the two paths get. */
  datatype Pair = Pair(compose: Option<string>, env: Option<string>)

  function View(names: Names, compose: string, env: string): Pair {
    Pair(Read(names, compose), Read(names, env))
  }

  /** Every disk state since the first n showed one of these pairs. */
  ghost predicate Seen(history: seq<Disk>, n: nat, compose: string, env: string, allowed: set<Pair>) {
    forall i :: n <= i < |history| ==> View(history[i].names, compose, env) in allowed
  }

  ghost predicate Extends(before: seq<Disk>, after: seq<Disk>) {
    |before| <= |after| && after[..|before|] == before
  }

  lemma SeenSoFar(first: seq<Disk>, later: seq<Disk>, n: nat, compose: string, env: string, a: set<Pair>, b: set<Pair>)
    requires Extends(first, later) && n <= |first|
    requires Seen(first, n, compose, env, a) && Seen(later, |first|, compose, env, b)
    ensures Seen(later, n, compose, env, a + b)
  {
    forall i | n <= i < |later| ensures View(later[i].names, compose, env) in a + b {
      if i < |first| { assert later[i] == later[..|first|][i] == first[i]; }
    }
  }

  method WriteEnv(fs: FileSystem, compose: string, env: string, content: string) returns (ok: bool)
    requires Apart(fs.names, env, compose)
    modifies fs
    ensures Extends(old(fs.history), fs.history)
    ensures Apart(fs.names, env, compose)
    ensures ok ==> View(fs.names, compose, env) == Pair(Read(old(fs.names), compose), Some(content))
    ensures old(fs.refused) <= fs.refused <= old(fs.refused) + 1
    ensures ok ==> fs.refused == old(fs.refused)
    ensures !ok ==> WriteTarget(old(fs.names), env) == None || fs.refused == old(fs.refused) + 1
    ensures WriteTarget(old(fs.names), env).Some? ==> WriteTarget(fs.names, env).Some?
    ensures ok ==> WriteTarget(old(fs.names), env).Some? && WriteTarget(fs.names, env).Some?
    ensures ok ==> fs.names == old(fs.names)[WriteTarget(old(fs.names), env).value := Regular(content, ENV_MODE, true)]
    ensures !ok ==> fs.names == old(fs.names)
    ensures Seen(fs.history, |old(fs.history)|, compose, env,
                 {View(old(fs.names), compose, env), View(fs.names, compose, env)})
  {
    ghost var before := fs.names;
    ok := fs.WriteFileAtomic(env, content, ENV_MODE);
    if ok { WriteIsSeen(before, env, compose, Regular(content, ENV_MODE, true)); }
  }

  method WriteCompose(fs: FileSystem, compose: string, env: string, content: string) returns (ok: bool)
    requires Apart(fs.names, compose, env)
    modifies fs
    ensures Extends(old(fs.history), fs.history)
    ensures Apart(fs.names, compose, env)
    ensures ok ==> View(fs.names, compose, env) == Pair(Some(content), Read(old(fs.names), env))
    ensures old(fs.refused) <= fs.refused <= old(fs.refused) + 1
    ensures ok ==> fs.refused == old(fs.refused)
    ensures !ok ==> WriteTarget(old(fs.names), compose) == None || fs.refused == old(fs.refused) + 1
    ensures ok ==> WriteTarget(old(fs.names), compose).Some?
    ensures WriteTarget(old(fs.names), compose).Some? ==> WriteTarget(fs.names, compose).Some?
    ensures WriteTarget(old(fs.names), env).Some? && env in old(fs.names) ==>
      WriteTarget(fs.names, env).Some? && env in fs.names
    ensures !ok ==> fs.names == old(fs.names)
    ensures Seen(fs.history, |old(fs.history)|, compose, env,
                 {View(old(fs.names), compose, env), View(fs.names, compose, env)})
    ensures env in old(fs.names) && !old(fs.names)[env].Link? ==> env in fs.names && !fs.names[env].Link?
  {
    ghost var before := fs.names;
    ok := fs.WriteComposeFileAtomic(compose, content);
    if ok {
      var target := WriteTarget(before, compose).value;
      WriteIsSeen(before, compose, env, Regular(content, ComposeMode(before, target), true));
    }
  }

  /** The env file can be put back: what was there is to be written over what is, or the file is to go. */
  predicate CanRestore(names: Names, env: string, original: Option<string>) {
    env in names && WriteTarget(names, env).Some? && (original == None ==> !names[env].Link?)
  }

  /** restoreEnv: the old bytes, or no file if there was none; a failed call is swallowed and leaves it undone. */
  method RestoreEnv(fs: FileSystem, compose: string, env: string, original: Option<string>)
    requires Apart(fs.names, env, compose) && CanRestore(fs.names, env, original)
    modifies fs
    ensures Extends(old(fs.history), fs.history)
    ensures Apart(fs.names, env, compose) && old(fs.refused) <= fs.refused
    ensures View(fs.names, compose, env) == Pair(Read(old(fs.names), compose),
              if fs.refused == old(fs.refused) then original else Read(old(fs.names), env))
    ensures Seen(fs.history, |old(fs.history)|, compose, env,
                 {View(old(fs.names), compose, env), View(fs.names, compose, env)})
  {
    match original {
      case None =>
        RemoveIsSeen(fs.names, env, compose);
        fs.Remove(env);
        assert fs.history[..|old(fs.history)|] == old(fs.history);
      case Some(content) =>
        var _ := WriteEnv(fs, compose, env, content);
    }
  }

  datatype Outcome =
    | Saved
    | SavedButUnrecorded
    | Conflict
    | Failed
    | RollbackFailed

  /** How far the env half got: refused with nothing written, or done (nothing to do, or old bytes to restore). */
  datatype EnvHalf = Stopped(outcome: Outcome) | Done(original: Option<string>)

  /**
   The env half.  Without a recorded env file only a truly absent one is created;
   a write that cannot be verified is rolled back.
   */
  method SaveEnv(fs: FileSystem, compose: string, env: string, content: string, recorded: bool) returns (half: EnvHalf)
    requires Apart(fs.names, env, compose)
    modifies fs
    ensures Extends(old(fs.history), fs.history)
    ensures Apart(fs.names, env, compose) && old(fs.refused) <= fs.refused
    ensures Read(fs.names, compose) == Read(old(fs.names), compose)
    ensures half.Done? && WriteTarget(old(fs.names), compose).Some? ==> WriteTarget(fs.names, compose).Some?
    ensures half.Done? ==> fs.refused == old(fs.refused)
    ensures half.Done? ==> Read(fs.names, env) == Some(content) && half.original == Read(old(fs.names), env)
    ensures half.Done? ==> CanRestore(fs.names, env, half.original) && (recorded || env !in old(fs.names))
    ensures half.Stopped? ==> half.outcome == Conflict || half.outcome == Failed
    ensures half.Stopped? && fs.refused <= old(fs.refused) + 1 ==>
        View(fs.names, compose, env) == View(old(fs.names), compose, env)
    ensures half == Stopped(Conflict) ==> fs.names == old(fs.names) && !recorded && env in fs.names
    ensures half == Stopped(Failed) ==>
      fs.refused > old(fs.refused) || (WriteTarget(old(fs.names), env) == None && (recorded || env !in old(fs.names)))
    ensures !recorded && env in old(fs.names) ==> fs.names == old(fs.names)
    ensures Read(fs.names, env) == Read(old(fs.names), env) || Read(fs.names, env) == Some(content)
    ensures Seen(fs.history, |old(fs.history)|, compose, env,
                 {View(old(fs.names), compose, env), Pair(Read(old(fs.names), compose), Some(content))})
  {
    if !recorded {
      var there := fs.Lstat(env);
      if there.None? { return Stopped(Failed); }
      if there.value { return Stopped(Conflict); }
    }
    WritableExactly(fs.names, env);
    var snapshot := fs.ReadFile(env);
    if snapshot.Unreadable? { return Stopped(Failed); }
    ghost var n, before := |fs.history|, fs.names;
    var ok := WriteEnv(fs, compose, env, content);
    if !ok { return Stopped(Failed); }
    var original := if snapshot.Contents? then Some(snapshot.content) else None;
    ghost var written := fs.history;
    var check := fs.ReadFile(env);
    if check != Contents(content) {
      RestoreEnv(fs, compose, env, original);
      SeenSoFar(written, fs.history, n, compose, env,
                {View(before, compose, env), Pair(Read(before, compose), Some(content))},
                {View(before, compose, env), Pair(Read(before, compose), Some(content))});
      return Stopped(Failed);
    }
    half := Done(original);
  }

  /** The env half undone after the compose half failed, if there was one. */
  method UndoEnv(fs: FileSystem, compose: string, env: string, undo: Option<EnvHalf>)
    requires Apart(fs.names, env, compose)
    requires undo.Some? ==> undo.value.Done? && CanRestore(fs.names, env, undo.value.original)
    modifies fs
    ensures Extends(old(fs.history), fs.history) && old(fs.refused) <= fs.refused
    ensures View(fs.names, compose, env) == Pair(Read(old(fs.names), compose),
              if undo.Some? && fs.refused == old(fs.refused) then undo.value.original else Read(old(fs.names), env))
    ensures Seen(fs.history, |old(fs.history)|, compose, env,
                 {View(old(fs.names), compose, env), View(fs.names, compose, env)})
  {
    if undo.Some? { RestoreEnv(fs, compose, env, undo.value.original); }
  }

  /** The pairs a save of the compose half may show: never the new compose beside the old env, unless stuck. */
  function ComposePairs(oldCompose: Option<string>, newCompose: string, oldEnv: Option<string>, newEnv: Option<string>,
                        stuck: bool)
    : set<Pair>
  {
    {Pair(oldCompose, newEnv), Pair(Some(newCompose), newEnv), Pair(oldCompose, oldEnv)}
    + if stuck then {Pair(Some(newCompose), oldEnv)} else {}
  }

  /** Unless stuck, the pairs hold old or new files only, and never the new compose beside the old env. */
  lemma PairsOf(oldCompose: Option<string>, newCompose: string, oldEnv: Option<string>, newEnv: Option<string>,
                stuck: bool, p: Pair)
    requires p in ComposePairs(oldCompose, newCompose, oldEnv, newEnv, stuck)
    ensures (p.compose == oldCompose || p.compose == Some(newCompose)) && (p.env == oldEnv || p.env == newEnv)
    ensures !stuck && p.compose != oldCompose ==> p.env == newEnv
  {
  }

  /** How many calls may fail with the rollback still complete: the one that fails the save, if one has to. */
  function Spare(names: Names, compose: string): nat {
    if WriteTarget(names, compose).Some? then 1 else 0
  }

  /** The compose half, the env half being done. */
  method SaveCompose(fs: FileSystem, compose: string, env: string, content: string, original: Option<string>,
                     undo: Option<EnvHalf>)
    returns (outcome: Outcome)
    requires Apart(fs.names, env, compose) && original == Read(fs.names, compose)
    requires undo.Some? ==> undo.value.Done? && CanRestore(fs.names, env, undo.value.original)
    modifies fs
    ensures Extends(old(fs.history), fs.history) && old(fs.refused) <= fs.refused
    ensures outcome == Saved || outcome == Failed || outcome == RollbackFailed
    ensures outcome == Saved ==> fs.refused == old(fs.refused)
    ensures outcome == Saved ==> View(fs.names, compose, env) == Pair(Some(content), Read(old(fs.names), env))
    ensures outcome == Failed ==> fs.refused > old(fs.refused) || WriteTarget(old(fs.names), compose) == None
    ensures outcome == Failed && original.Some? ==> Read(fs.names, compose) == original
    ensures outcome == Failed && fs.refused <= old(fs.refused) + Spare(old(fs.names), compose) ==>
      Read(fs.names, env) == if undo.Some? then undo.value.original else Read(old(fs.names), env)
    ensures outcome == RollbackFailed ==>
      original.Some? && Read(fs.names, compose) == Some(content) && fs.refused >= old(fs.refused) + 2
    ensures Seen(fs.history, |old(fs.history)|, compose, env,
                 ComposePairs(original, content, if undo.Some? then undo.value.original else Read(old(fs.names), env),
                              Read(old(fs.names), env),
                              outcome == RollbackFailed || (outcome == Failed && original == None)))
  {
    hide Read, WriteTarget, Destination;
    ghost var n, newEnv := |fs.history|, Read(fs.names, env);
    ghost var oldEnv := if undo.Some? then undo.value.original else newEnv;
    var ok := WriteCompose(fs, compose, env, content);
    ghost var h1 := fs.history;
    if !ok {
      UndoEnv(fs, compose, env, undo);
      SeenSoFar(h1, fs.history, n, compose, env, {Pair(original, newEnv)},
                {Pair(original, newEnv), Pair(original, oldEnv)});
      return Failed;
    }
    ghost var mid := {Pair(original, newEnv), Pair(Some(content), newEnv)};
    var check := fs.ReadFile(compose);
    if check != Contents(content) {
      var back := true;
      if original.Some? { back := WriteCompose(fs, compose, env, original.value); }
      ghost var now := Read(fs.names, compose);
      ghost var h2 := fs.history;
      SeenSoFar(h1, h2, n, compose, env, mid, mid);
      UndoEnv(fs, compose, env, undo);
      SeenSoFar(h2, fs.history, n, compose, env, mid + mid, {Pair(now, newEnv), Pair(now, oldEnv)});
      return if back then Failed else RollbackFailed;
    }
    outcome := Saved;
  }

  /** A failed rollback, or a compose file there was nothing to roll back to, leaves the new compose in place. */
  predicate Stuck(outcome: Outcome, oldCompose: Option<string>) {
    outcome == RollbackFailed || (outcome == Failed && oldCompose == None)
  }

  /**
   Whenever the machine stops, each file is wholly old or wholly new, and a new
   compose never stands beside an old env unless the compose could not be rolled
   back.  A save that nothing stands in the way of ends new and new unless a call
   fails; and when only that call fails, it ends old and old.
   */
  method PutComposeAndEnv(fs: FileSystem, compose: string, env: string, content: string, update: Option<string>,
                          recorded: bool, recordFails: bool)
    returns (outcome: Outcome)
    requires Apart(fs.names, env, compose)
    modifies fs
    ensures Extends(old(fs.history), fs.history) && old(fs.refused) <= fs.refused
    ensures Seen(fs.history, |old(fs.history)|, compose, env,
                 ComposePairs(Read(old(fs.names), compose), content, Read(old(fs.names), env),
                              if update.Some? then update else Read(old(fs.names), env),
                              Stuck(outcome, Read(old(fs.names), compose))))
    ensures outcome == Saved || outcome == SavedButUnrecorded ==>
      View(fs.names, compose, env) == Pair(Some(content), if update.Some? then update else Read(old(fs.names), env))
    ensures outcome == Saved ==> !(update.Some? && !recorded && recordFails)
    ensures outcome == SavedButUnrecorded ==> update.Some? && !recorded && recordFails
    ensures outcome == Conflict ==> fs.names == old(fs.names) && update.Some? && !recorded && env in fs.names
    ensures update.Some? && !recorded && env in old(fs.names) ==>
      fs.names == old(fs.names) && (outcome == Conflict || outcome == Failed)
    ensures WriteTarget(old(fs.names), compose).Some? && fs.refused == old(fs.refused)
         && (update.Some? ==> WriteTarget(old(fs.names), env).Some? && (recorded || env !in old(fs.names)))
         ==> outcome == Saved || outcome == SavedButUnrecorded
    ensures outcome == Failed && Read(old(fs.names), compose).Some? ==>
        Read(fs.names, compose) == Read(old(fs.names), compose)
    ensures outcome == Failed && fs.refused <= old(fs.refused) + Spare(old(fs.names), compose) ==>
      Read(fs.names, env) == Read(old(fs.names), env)
    ensures outcome == RollbackFailed ==> Read(fs.names, compose) == Some(content) && fs.refused >= old(fs.refused) + 2
    ensures Read(old(fs.names), compose).Some? && outcome == Failed && fs.refused <= old(fs.refused) + 1 ==>
      View(fs.names, compose, env) == View(old(fs.names), compose, env)
    ensures Read(old(fs.names), compose).Some? && outcome != RollbackFailed ==>
      forall i :: |old(fs.history)| <= i < |fs.history| ==>
        var seen := View(fs.history[i].names, compose, env);
        seen.compose == Read(old(fs.names), compose)
        || (seen.compose == Some(content) && seen.env == if update.Some? then update else Read(old(fs.names), env))
  {
    hide Destination;
    ghost var n, oldView := |fs.history|, View(fs.names, compose, env);
    WritableExactly(fs.names, compose);
    var snapshot := fs.ReadFile(compose);
    if snapshot.Unreadable? { return Failed; }
    var original := if snapshot.Contents? then Some(snapshot.content) else None;
    var undo: Option<EnvHalf> := None;
    ghost var h1 := fs.history;
    if update.Some? {
      var half := SaveEnv(fs, compose, env, update.value, recorded);
      if half.Stopped? { return half.outcome; }
      undo := Some(half);
    }
    ghost var h2, first := fs.history, {oldView, Pair(oldView.compose, if update.Some? then update else oldView.env)};
    assert Seen(h2, n, compose, env, first);
    outcome := SaveCompose(fs, compose, env, content, original, undo);
    ghost var pairs := ComposePairs(original, content, oldView.env, if update.Some? then update else oldView.env,
                                    Stuck(outcome, original));
    SeenSoFar(h2, fs.history, n, compose, env, first, pairs);
    assert first + pairs == pairs;
    forall i | n <= i < |fs.history|
      ensures View(fs.history[i].names, compose, env).compose != original && !Stuck(outcome, original) ==>
        View(fs.history[i].names, compose, env)
        == Pair(Some(content), if update.Some? then update else oldView.env)
    {
      PairsOf(original, content, oldView.env, if update.Some? then update else oldView.env, Stuck(outcome, original),
              View(fs.history[i].names, compose, env));
    }
    if outcome == Saved && update.Some? && !recorded && recordFails { outcome := SavedButUnrecorded; }
  }
}
