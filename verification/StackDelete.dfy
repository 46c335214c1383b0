/**
 Deleting a stack whose folder other stacks may share, reach through a link, or
 live inside.
 */
module StackDelete {
  import opened Wrappers
  import opened FolderPaths
  import opened StackNames
  import opened StackFiles

  /** The rows are exactly the other stacks in the folder, each once. */
  ghost predicate ListsSurvivors(w: World, stacks: Stacks, stack: Stack, rows: seq<Stack>) {
    NoTwice(rows) && forall s :: s in rows <==> s in stacks.Values && IsSurvivor(w, stack, s)
  }

  /** The rows are exactly the stacks strictly inside the folder, each once. */
  ghost predicate ListsNested(w: World, stacks: Stacks, stack: Stack, rows: seq<Stack>) {
    NoTwice(rows) && forall s :: s in rows <==> s in stacks.Values && IsNested(w, stack, s)
  }

  function Compose(s: Stack): string { s.composeFile }
  function Env(s: Stack): string { s.envFile }

  /** survivorUses */
  predicate SurvivorUses(survivors: seq<Stack>, name: string, file: Stack -> string) {
    name != "" && exists i :: 0 <= i < |survivors| && file(survivors[i]) == name
  }

  /** Among the survivors listed, a name is in use exactly when it is among the rows. */
  lemma UsesMeansShared(w: World, stacks: Stacks, stack: Stack, survivors: seq<Stack>)
    requires ListsSurvivors(w, stacks, stack, survivors)
    ensures stack.composeFile != "" ==>
      (SurvivorUses(survivors, stack.composeFile, Compose) <==> ComposeShared(w, stacks, stack))
    ensures stack.envFile != "" ==> (SurvivorUses(survivors, stack.envFile, Env) <==> EnvShared(w, stacks, stack))
  {
    if SurvivorUses(survivors, stack.composeFile, Compose) {
      var i :| 0 <= i < |survivors| && Compose(survivors[i]) == stack.composeFile;
      ListedIsRow(w, stacks, stack, survivors, i);
    }
    if SurvivorUses(survivors, stack.envFile, Env) {
      var i :| 0 <= i < |survivors| && Env(survivors[i]) == stack.envFile;
      ListedIsRow(w, stacks, stack, survivors, i);
    }
    if stack.composeFile != "" && ComposeShared(w, stacks, stack) {
      var id :| id in stacks && IsSurvivor(w, stack, stacks[id]) && stacks[id].composeFile == stack.composeFile;
      var i := RowIsListed(w, stacks, stack, survivors, id);
      assert Compose(survivors[i]) == stack.composeFile;
    }
    if stack.envFile != "" && EnvShared(w, stacks, stack) {
      var id :| id in stacks && IsSurvivor(w, stack, stacks[id]) && stacks[id].envFile == stack.envFile;
      var i := RowIsListed(w, stacks, stack, survivors, id);
      assert Env(survivors[i]) == stack.envFile;
    }
  }

  lemma ListedIsRow(w: World, stacks: Stacks, stack: Stack, survivors: seq<Stack>, i: nat)
    requires ListsSurvivors(w, stacks, stack, survivors) && i < |survivors|
    ensures exists id :: id in stacks && stacks[id] == survivors[i] && IsSurvivor(w, stack, stacks[id])
  {
    assert survivors[i] in stacks.Values;
  }

  lemma RowIsListed(w: World, stacks: Stacks, stack: Stack, survivors: seq<Stack>, id: string) returns (i: nat)
    requires ListsSurvivors(w, stacks, stack, survivors) && id in stacks && IsSurvivor(w, stack, stacks[id])
    ensures i < |survivors| && survivors[i] == stacks[id]
  {
    assert stacks[id] in stacks.Values;
    i :| 0 <= i < |survivors| && survivors[i] == stacks[id];
  }

  lemma AloneMeansNobodyListed(w: World, stacks: Stacks, stack: Stack, survivors: seq<Stack>, nested: seq<Stack>)
    requires ListsSurvivors(w, stacks, stack, survivors) && ListsNested(w, stacks, stack, nested)
    ensures Alone(w, stacks, stack) <==> |survivors| == 0 && |nested| == 0
  {
    ListedSome(w, stacks, stack, survivors, nested);
  }

  // ---------------------------------------------------------------------- the host

  datatype ListError = QueryFailed | Unresolvable(blocking: Stack)

  datatype Outcome =
    | NotFound
    | OutsideRoots
    | ListFailed(error: ListError)
    | HoldsNestedStacks
    | CollateralUnreadable
    | CollateralUnconfirmed
    | DownFailed
    | FilesKept
    | RowKept
    | Deleted

  class Host {
    var world: World
    var stacks: Stacks
    var directories: set<Path>
    const roots: seq<Path>

    constructor (world: World, roots: seq<Path>)
      requires WellFormed(world)
      ensures Valid() && this.world == world && this.roots == roots
    {
      this.world, this.roots, stacks, directories := world, roots, map[], {};
    }

    predicate Valid()
      reads this
    {
      WellFormed(world) && Sound(stacks, directories)
    }

    // ---------------------------------------------------------------- the rows' writers

    /** scanDirectoryWithRoot, for one file name the scanner registers; `absent`: names known not to be there. */
    method Scan(id: string, directory: Path, filename: string, absent: set<string>)
      requires Valid() && Registers(filename)
      modifies this`stacks, this`directories
      ensures Valid() && directories == old(directories) + {directory}
      ensures stacks
          == old(stacks)[id := Stack(id, directory, filename, DetermineEnvFile(absent, ExtractStackName(filename)))]
    {
      hide WellFormed, IsComposeFileName, IsEnvFileName, DetermineEnvFile, ExtractStackName;
      ScannedNames(filename, absent);
      directories := directories + {directory};
      stacks := stacks[id := Stack(id, directory, filename, DetermineEnvFile(absent, ExtractStackName(filename)))];
    }

    /** The row a create writes, for a folder it has registered. */
    method UpsertCreated(id: string, directory: Path, hasEnv: bool)
      requires Valid() && directory in directories
      modifies this`stacks
      ensures Valid()
          && stacks == old(stacks)[id := Stack(id, directory, "compose.yaml", if hasEnv then ".env" else "")]
    {
      hide WellFormed, IsComposeFileName, IsEnvFileName;
      CreatedNames();
      stacks := stacks[id := Stack(id, directory, "compose.yaml", if hasEnv then ".env" else "")];
    }

    /** SetStackEnvFileIfUnset, as both its callers use it: a request that made the default env file records it. */
    method SetStackEnvFileIfUnset(id: string) returns (done: bool)
      requires Valid()
      modifies this`stacks
      ensures Valid() && done == (id in old(stacks) && old(stacks)[id].envFile == "")
      ensures stacks == if done then old(stacks)[id := old(stacks)[id].(envFile := ".env")] else old(stacks)
    {
      hide WellFormed, IsComposeFileName, IsEnvFileName;
      CreatedNames();
      done := id in stacks && stacks[id].envFile == "";
      if done { stacks := stacks[id := stacks[id].(envFile := ".env")]; }
    }

    // -------------------------------------------------------------------- the listing

    /** ListStacks: every row once, in some order. */
    method ListStacks() returns (rows: seq<Stack>)
      requires Keyed(stacks)
      ensures NoTwice(rows) && forall s :: s in rows <==> s in stacks.Values
    {
      rows := [];
      var left := stacks.Keys;
      while left != {}
        invariant left <= stacks.Keys && NoTwice(rows)
        invariant forall s :: s in rows <==> s in stacks.Values && s.id !in left
        decreases |left|
      {
        var id :| id in left;
        rows := rows + [stacks[id]];
        left := left - {id};
      }
    }

    /**
     Each other stack is a survivor, nested or outside, and in one list at most,
     once; a folder that cannot be resolved stops it, naming the stack.
     */
    method ListSurvivors(stack: Stack, queryFails: bool) returns (r: Result<(seq<Stack>, seq<Stack>), ListError>)
      requires Keyed(stacks)
      ensures r.Ok? <==> !queryFails && !AnyUnresolvable(world, stacks, stack)
      ensures r == Err(QueryFailed) <==> queryFails
      ensures r.Ok? ==>
        && Resolve(world, stack.directory).Some?
        && (forall s :: s in stacks.Values && s.id != stack.id ==> Resolve(world, s.directory).Some?)
        && ListsSurvivors(world, stacks, stack, r.value.0) && ListsNested(world, stacks, stack, r.value.1)
      ensures r.Err? && r.error.Unresolvable? ==>
        (r.error.blocking == stack || r.error.blocking in stacks.Values)
            && Resolve(world, r.error.blocking.directory) == None
    {
      if queryFails { return Err(QueryFailed); }
      var all := ListStacks();
      var survivors: seq<Stack> := [];
      var i := 0;
      while i < |all|
        invariant 0 <= i <= |all| && NoTwice(survivors)
        invariant forall s :: s in survivors <==> s in all[..i] && s.id != stack.id && s.directory == stack.directory
      {
        assert all[..i + 1] == all[..i] + [all[i]];
        assert all[i] !in all[..i];
        if all[i].directory == stack.directory && all[i].id != stack.id { survivors := survivors + [all[i]]; }
        i := i + 1;
      }
      assert all[..i] == all;
      if Resolve(world, stack.directory) == None { return Err(Unresolvable(stack)); }
      r := SortOthers(world, stacks, stack, all, survivors);
      if r.Err? {
        var id :| id in stacks && stacks[id] == r.error.blocking;
        assert stacks[id].id == id;
      } else {
        forall id | id in stacks && id != stack.id ensures Resolve(world, stacks[id].directory).Some? {
          assert stacks[id] in stacks.Values;
        }
      }
    }

    // --------------------------------------------------------------------- removal

    /** os.RemoveAll: a link as the link, a folder with what is under it; failing, it keeps some of it. */
    method RemoveAll(path: Path, keeps: Option<set<Path>>) returns (ok: bool)
      requires path != [] && WellFormed(world)
      modifies this`world
      ensures WellFormed(world)
      ensures ok <==> EntryOf(old(world), path).Some? && keeps == None
      ensures EntryOf(old(world), path) == None ==> world == old(world)
      ensures EntryOf(old(world), path).Some? ==>
        Removed(old(world), world, Under(old(world), EntryOf(old(world), path).value), ok)
    {
      var entry := EntryOf(world, path);
      if entry == None { return false; }
      var all := Under(world, entry.value);
      UnderIsWhole(world, entry.value);
      var kept := if keeps.Some? then keeps.value else {};
      var gone := set e | e in all && forall k :: k in kept && k in Entries(world) ==> !(e <= k);
      KeptStaysInFolders(world, all, kept);
      MinusLoses(world, gone);
      MinusStaysWellFormed(world, gone);
      world := Minus(world, gone);
      ok := keeps == None;
      assert ok ==> gone == all;
    }

    /** removeStackFile: one name in the folder, as the entry it is; an absent one is no error. */
    method RemoveStackFile(folder: Path, name: string, fails: bool) returns (ok: bool)
      requires WellFormed(world)
      modifies this`world
      ensures WellFormed(world)
      ensures ok <==> name == "" || (!fails && Removable(old(world), folder, name))
      ensures world == if ok then Minus(old(world), Named(old(world), folder, name)) else old(world)
      ensures ok && name != "" ==> !Present(world, Resolve(old(world), folder).value + [name])
    {
      if name == "" {
        assert Minus(world, {}) == world;
        return true;
      }
      if fails || Contained(world, folder, folder) != Some(true) { return false; }
      EntryInFolder(world, folder, name);
      var entry := EntryOf(world, folder + [name]).value;
      if !Present(world, entry) {
        assert Named(world, folder, name) == {} && Minus(world, {}) == world;
        return Under(world, entry) == {};
      }
      // os.Remove takes no folder that holds anything
      if Under(world, entry) != {entry} { return false; }
      NamedIsWhole(world, folder, name);
      MinusStaysWellFormed(world, {entry});
      world := Minus(world, {entry});
      return true;
    }

    /** Two names, one after the other; the first may be a link that the folder's own path goes through. */
    method RemoveNames(folder: Path, first: string, second: string, stuck: set<string>) returns (ok: bool)
      requires WellFormed(world) && Resolve(world, folder).Some?
      modifies this`world
      ensures WellFormed(world) && Removed(old(world), world, NamesDoomed(old(world), folder, first, second), ok)
      ensures ok <==>
        && (first == "" || (first !in stuck && Removable(old(world), folder, first)))
        && (second == ""
            || (second !in stuck && Removable(Minus(old(world), Named(old(world), folder, first)), folder, second)))
      ensures ok && first != "" ==> !Present(world, Resolve(old(world), folder).value + [first])
      ensures ok && second != "" && !CutsOwnPath(old(world), folder, first) ==>
        !Present(world, Resolve(old(world), folder).value + [second])
    {
      ghost var before, one := world, Named(world, folder, first);
      ghost var two := Named(Minus(world, one), folder, second);
      NamedIsWhole(before, folder, first);
      NamedIsWhole(Minus(before, one), folder, second);
      OneThenTwo(before, one, two);
      ok := RemoveStackFile(folder, first, first in stuck);
      if !ok { return; }
      ok := RemoveStackFile(folder, second, second in stuck);
    }

    /**
     The stack's files and no others: the whole folder when no other stack is in
     or under it, and otherwise only names no survivor uses.
     */
    method RemoveStackFiles(stack: Stack, root: Path, faults: Faults) returns (ok: bool)
      requires WellFormed(world) && Keyed(stacks) && stack.directory != []
      modifies this`world
      ensures WellFormed(world) && Removed(old(world), world, Doomed(old(world), stacks, stack), ok)
      ensures AnyUnresolvable(old(world), stacks, stack) ==> !ok && world == old(world)
      ensures !AnyUnresolvable(old(world), stacks, stack) && faults == NO_FAULTS ==>
        (ok <==> FilesRemovable(old(world), stacks, stack, root))
      ensures ok && Alone(old(world), stacks, stack) ==>
        EntryOf(old(world), stack.directory).Some? && !Present(world, EntryOf(old(world), stack.directory).value)
      ensures ok && !Alone(old(world), stacks, stack) ==>
        && Gone(old(world), world, stack, FirstName(old(world), stacks, stack))
        && (CutsOwnPath(old(world), stack.directory, FirstName(old(world), stacks, stack))
            || Gone(old(world), world, stack, SecondName(old(world), stacks, stack)))
      ensures RemovedInside(old(world), world, stack.directory, root)
    {
      hide WellFormed;
      ghost var before := world;
      MinusLoses(world, {});
      assert Minus(world, {}) == world;
      var listed := ListSurvivors(stack, faults.query);
      if listed.Err? { return false; }
      var survivors, nested := listed.value.0, listed.value.1;
      AloneMeansNobodyListed(before, stacks, stack, survivors, nested);
      if |survivors| == 0 && |nested| == 0 {
        EntryOfResolved(world, stack.directory);
        ok := RemoveAll(stack.directory, faults.keeps);
        return;
      }
      if Contained(world, root, stack.directory) != Some(true) { return false; }
      UsesMeansShared(before, stacks, stack, survivors);
      var removeCompose := stack.composeFile != "" && !SurvivorUses(survivors, stack.composeFile, Compose);
      var removeEnv := stack.envFile != "" && !SurvivorUses(survivors, stack.envFile, Env);
      var first, second := if removeCompose then stack.composeFile else "", if removeEnv then stack.envFile else "";
      ok := RemoveNames(stack.directory, first, second, faults.stuck);
      NamesAreInside(before, world, stack.directory, root, first, second);
    }

    /** The first root the folder is strictly inside of, its parent resolved. */
    method FindGuardRoot(directory: Path) returns (root: Option<Path>)
      ensures root.Some? ==> root.value in roots && InsideRoot(world, directory, root.value)
      ensures root.None? ==> forall r :: r in roots ==> !InsideRoot(world, directory, r)
    {
      var i := 0;
      while i < |roots|
        invariant 0 <= i <= |roots|
        invariant forall j :: 0 <= j < i ==> !InsideRoot(world, directory, roots[j])
      {
        if InsideRoot(world, directory, roots[i]) { return Some(roots[i]); }
        i := i + 1;
      }
      return None;
    }

    /** DeleteDirectoryIfOrphaned: one statement, so the check and the delete see the same rows. */
    method DeleteDirectoryIfOrphaned(path: Path, fails: bool)
      requires Valid()
      modifies this`directories
      ensures Valid()
      ensures directories == if !fails && (forall id :: id in stacks ==> stacks[id].directory != path)
                             then old(directories) - {path} else old(directories)
    {
      if !fails && forall id :: id in stacks ==> stacks[id].directory != path { directories := directories - {path}; }
    }

    /**
     `later` is what bringing the containers down, which takes seconds, leaves on
     disk and in the tables; the removal decides on that.  No other stack's row
     goes; another stack's files can be read as before when the doomed entries are
     clear of them, and after a successful removal only then; and while links stay as
     they were, everything removed is under a configured root.
     */
    method Delete(id: string, confirmCollateral: bool, checks: Checks, later: Later) returns (outcome: Outcome)
      requires Valid() && (forall k :: k in stacks ==> stacks[k].directory != [])
      requires WellFormed(later.world) && Sound(later.stacks, later.directories)
      modifies this
      ensures Valid()
      ensures outcome == NotFound <==> id !in old(stacks)
      ensures !AfterDown(outcome) ==> world == old(world) && stacks == old(stacks) && directories == old(directories)
      ensures AfterDown(outcome) <==>
        id in old(stacks) && MayDelete(old(world), old(stacks), roots, old(stacks)[id], confirmCollateral, checks)
      ensures outcome == HoldsNestedStacks ==> SomeNested(world, stacks, stacks[id])
      ensures outcome == DownFailed <==> AfterDown(outcome) && !later.downOk
      ensures AfterDown(outcome) ==>
        && stacks == (if outcome == Deleted then later.stacks - {id} else later.stacks)
        && directories == if outcome == Deleted && !later.faults.folderRow
                             && (forall k :: k in stacks ==> stacks[k].directory != old(stacks)[id].directory)
                          then later.directories - {old(stacks)[id].directory} else later.directories
      ensures AfterDown(outcome) ==>
        forall k :: k in later.stacks && k != id ==>
          var s, doomed := later.stacks[k], Doomed(later.world, later.stacks, old(stacks)[id]);
          && (Clear(later.world, s, doomed) ==> Spares(later.world, world, s))
          && (FilesRemoved(outcome) ==> (Spares(later.world, world, s) <==> Clear(later.world, s, doomed)))
      ensures AfterDown(outcome) && FolderIsNoFile(later.world, later.stacks, old(stacks)[id]) ==>
        forall k :: k in later.stacks && k != id && Plain(later.world, later.stacks[k]) ==>
          Spares(later.world, world, later.stacks[k])
      ensures AfterDown(outcome) ==>
        Removed(later.world, world, Doomed(later.world, later.stacks, old(stacks)[id]), FilesRemoved(outcome))
      ensures outcome == RowKept ==> later.faults.row
      ensures AfterDown(outcome) && AnyUnresolvable(later.world, later.stacks, old(stacks)[id]) ==>
        !FilesRemoved(outcome) && world == later.world
      ensures AfterDown(outcome) && later.downOk && later.faults == NO_FAULTS ==>
        exists r :: r in roots && InsideRoot(old(world), old(stacks)[id].directory, r)
                    && (AnyUnresolvable(later.world, later.stacks, old(stacks)[id])
                        || (outcome == Deleted <==> FilesRemovable(later.world, later.stacks, old(stacks)[id], r)))
      ensures AfterDown(outcome) ==>
        exists r :: r in roots && InsideRoot(old(world), old(stacks)[id].directory, r)
                    && (later.world.links == old(world).links
                        && ParentIsThere(old(world), old(stacks)[id].directory) ==>
                          RemovedUnder(old(world), r, later.world, world))
    {
      hide WellFormed, WellNamed, Doomed, Clear, Spares, Plain, Resolve, EvalSymlinks, InsideRoot, RemovedInside,
           RemovedUnder, AnyUnresolvable, FolderIsNoFile, IsSurvivor, IsNested, MayDelete, FilesRemovable;
      if id !in stacks { return NotFound; }
      var stack := stacks[id];
      ghost var before := world;
      var refusal, root := Preflight(stack, confirmCollateral, checks);
      if refusal.Some? { return refusal.value; }
      outcome := DownFailed;
      world, stacks, directories := later.world, later.stacks, later.directories;
      MinusLoses(world, {});
      assert Minus(world, {}) == world;
      if later.downOk { outcome := DeleteUnderLock(stack, root, later.faults); }
      OthersAreSpared(later, stack, world, FilesRemoved(outcome));
      if before.links == later.world.links && ParentIsThere(before, stack.directory) {
        InsideIsUnder(before, later.world, world, stack.directory, root);
      }
    }

    /** What is checked before anything is touched. */
    method Preflight(stack: Stack, confirmCollateral: bool, checks: Checks)
      returns (refusal: Option<Outcome>, root: Path)
      requires Keyed(stacks) && stack.directory != []
      ensures refusal.Some? ==> refusal.value != NotFound && !AfterDown(refusal.value)
      ensures refusal == Some(HoldsNestedStacks) ==> SomeNested(world, stacks, stack)
      ensures refusal == None <==> MayDelete(world, stacks, roots, stack, confirmCollateral, checks)
      ensures refusal.None? ==> root in roots && InsideRoot(world, stack.directory, root)
    {
      hide InsideRoot, Resolve, EvalSymlinks;
      root := [];
      var guard := FindGuardRoot(stack.directory);
      if guard.None? { return Some(OutsideRoots), root; }
      root := guard.value;
      var listed := ListSurvivors(stack, checks.query);
      if listed.Err? { return Some(ListFailed(listed.error)), root; }
      var survivors, nested := listed.value.0, listed.value.1;
      ListedSome(world, stacks, stack, survivors, nested);
      if |survivors| == 0 && |nested| > 0 { return Some(HoldsNestedStacks), root; }
      if |survivors| == 0 {
        if checks.listing || !CanList(world, stack.directory) { return Some(CollateralUnreadable), root; }
        if Collateral(world, stack) != {} && !confirmCollateral { return Some(CollateralUnconfirmed), root; }
      }
      refusal := None;
    }

    /** Files, then the row, then the orphaned folder row, all under the scanner's lock. */
    method DeleteUnderLock(stack: Stack, root: Path, faults: Faults) returns (outcome: Outcome)
      requires Valid() && stack.directory != []
      modifies this
      ensures Valid()
      ensures outcome == FilesKept || outcome == RowKept || outcome == Deleted
      ensures outcome == RowKept ==> faults.row
      ensures outcome == Deleted ==> !faults.row
      ensures !AnyUnresolvable(old(world), old(stacks), stack) && faults == NO_FAULTS ==>
        (outcome == Deleted <==> FilesRemovable(old(world), old(stacks), stack, root))
      ensures Removed(old(world), world, Doomed(old(world), old(stacks), stack), FilesRemoved(outcome))
      ensures RemovedInside(old(world), world, stack.directory, root)
      ensures AnyUnresolvable(old(world), old(stacks), stack) ==> outcome == FilesKept && world == old(world)
      ensures stacks == if outcome == Deleted then old(stacks) - {stack.id} else old(stacks)
      ensures directories == if outcome == Deleted && !faults.folderRow
                                && (forall k :: k in stacks ==> stacks[k].directory != stack.directory)
                             then old(directories) - {stack.directory} else old(directories)
    {
      hide WellFormed, Doomed, AnyUnresolvable, WellNamed, RemovedInside, Removed, FilesRemovable;
      var removed := RemoveStackFiles(stack, root, faults);
      if !removed { return FilesKept; }
      if faults.row { return RowKept; }
      stacks := stacks - {stack.id};
      DeleteDirectoryIfOrphaned(stack.directory, faults.folderRow);
      return Deleted;
    }
  }

  /** The calls of the removal that fail; `keeps` is what an unfinished RemoveAll leaves. */
  datatype Faults = Faults(query: bool, keeps: Option<set<Path>>, stuck: set<string>, row: bool, folderRow: bool)

  const NO_FAULTS: Faults := Faults(false, None, {}, false, false)

  /** The calls of the checks beforehand that fail: a query, or listing the folder. */
  datatype Checks = Checks(query: bool, listing: bool)

  predicate SomeSurvivor(w: World, stacks: Stacks, stack: Stack) {
    exists id :: id in stacks && IsSurvivor(w, stack, stacks[id])
  }

  predicate SomeNested(w: World, stacks: Stacks, stack: Stack) {
    exists id :: id in stacks && IsNested(w, stack, stacks[id])
  }

  /** os.ReadDir of the folder has an answer. */
  predicate CanList(w: World, directory: Path) {
    EvalSymlinks(w, directory).There? && IsFolder(w, EvalSymlinks(w, directory).place)
  }

  /** collateralEntries: what is in the folder besides the stack's own two files. */
  function Collateral(w: World, stack: Stack): set<Path>
    requires CanList(w, stack.directory)
  {
    var home := EvalSymlinks(w, stack.directory).place;
    set e | e in Entries(w) && e != [] && e[..|e| - 1] == home
            && e[|e| - 1] != stack.composeFile && e[|e| - 1] != stack.envFile
  }

  /** They are the entries of that folder, by name. */
  lemma CollateralNames(w: World, stack: Stack, name: string, e: Path)
    requires CanList(w, stack.directory)
    ensures var home := EvalSymlinks(w, stack.directory).place;
            && (home + [name] in Collateral(w, stack) <==>
                Present(w, home + [name]) && name != stack.composeFile && name != stack.envFile)
            && (e in Collateral(w, stack) ==> |e| == |home| + 1 && home <= e)
  {
    var home := EvalSymlinks(w, stack.directory).place;
    assert (home + [name])[..|home|] == home;
  }

  /**
   A delete goes ahead: inside a root, every folder resolvable; and, unless the
   folder is shared, with no stack registered below it, and nothing else in it that
   nobody has given up.
   */
  predicate MayDelete(w: World, stacks: Stacks, roots: seq<Path>, stack: Stack, confirmed: bool, checks: Checks) {
    && (exists r :: r in roots && InsideRoot(w, stack.directory, r))
    && !checks.query && !AnyUnresolvable(w, stacks, stack)
    && (SomeSurvivor(w, stacks, stack)
        || (!SomeNested(w, stacks, stack) && !checks.listing && CanList(w, stack.directory)
            && (confirmed || Collateral(w, stack) == {})))
  }

  /** os.Remove of a name in a folder has nothing to object to: it takes no folder that holds something. */
  predicate Removable(w: World, folder: Path, name: string) {
    && Resolve(w, folder).Some?
    && Under(w, Resolve(w, folder).value + [name]) <= {Resolve(w, folder).value + [name]}
  }

  /** Removing the stack's files succeeds unless a call fails. */
  predicate FilesRemovable(w: World, stacks: Stacks, stack: Stack, root: Path) {
    var first, second := FirstName(w, stacks, stack), SecondName(w, stacks, stack);
    Alone(w, stacks, stack)
    || (&& Contained(w, root, stack.directory) == Some(true)
        && (first == "" || Removable(w, stack.directory, first))
        && (second == "" || Removable(Minus(w, Named(w, stack.directory, first)), stack.directory, second)))
  }

  lemma ListedSome(w: World, stacks: Stacks, stack: Stack, survivors: seq<Stack>, nested: seq<Stack>)
    requires ListsSurvivors(w, stacks, stack, survivors) && ListsNested(w, stacks, stack, nested)
    ensures SomeSurvivor(w, stacks, stack) <==> |survivors| > 0
    ensures SomeNested(w, stacks, stack) <==> |nested| > 0
  {
    if |survivors| > 0 { assert survivors[0] in stacks.Values; }
    if |nested| > 0 { assert nested[0] in stacks.Values; }
    forall id | id in stacks && IsSurvivor(w, stack, stacks[id]) ensures stacks[id] in survivors {
      assert stacks[id] in stacks.Values;
    }
    forall id | id in stacks && IsNested(w, stack, stacks[id]) ensures stacks[id] in nested {
      assert stacks[id] in stacks.Values;
    }
  }

  /** The name is a link, and the folder's own path goes through it. */
  predicate CutsOwnPath(w: World, folder: Path, name: string) {
    Resolve(Minus(w, Named(w, folder, name)), folder) != Resolve(w, folder)
  }

  predicate Gone(before: World, after: World, stack: Stack, name: string) {
    name != "" ==>
      Resolve(before, stack.directory).Some? && !Present(after, Resolve(before, stack.directory).value + [name])
  }

  /** What a part-way removal takes keeps everything kept in its folders. */
  lemma KeptStaysInFolders(w: World, all: set<Path>, kept: set<Path>)
    requires Whole(w, all) && all <= Entries(w)
    ensures Whole(w, set e | e in all && forall k :: k in kept && k in Entries(w) ==> !(e <= k))
  {
    var gone := set e | e in all && forall k :: k in kept && k in Entries(w) ==> !(e <= k);
    forall e, f | e in gone && f in Entries(w) && e <= f ensures f in gone {
      forall k | k in kept && k in Entries(w) ensures !(f <= k) { BeginsWithBeginning(e, f, k); }
    }
  }

  /** One removal after another is one removal of both. */
  lemma OneThenTwo(w: World, one: set<Path>, two: set<Path>)
    requires one <= Entries(w) && two <= Entries(Minus(w, one))
    ensures Minus(Minus(w, one), two) == Minus(w, one + two)
    ensures OnlyLoses(w, w) && Lost(w, w) == {}
    ensures OnlyLoses(w, Minus(w, one)) && Lost(w, Minus(w, one)) == one
    ensures OnlyLoses(w, Minus(w, one + two)) && Lost(w, Minus(w, one + two)) == one + two
  {
    assert Minus(w, {}) == w;
    assert Entries(Minus(w, one)) == Entries(w) - one;
    assert w.links - one - two == w.links - (one + two);
    MinusLoses(w, {});
    MinusLoses(w, one);
    MinusLoses(w, one + two);
  }

  /** What has gone is the folder's own entry with what is under it, or is inside the root. */
  ghost predicate RemovedInside(before: World, after: World, directory: Path, root: Path)
    requires directory != []
  {
    forall e :: e in Lost(before, after) ==>
      || (EntryOf(before, directory).Some? && EntryOf(before, directory).value <= e)
      || (Resolve(before, root).Some? && Resolve(before, root).value < e)
  }

  /** Everything that has gone was strictly under the root, as it resolves in `w`. */
  ghost predicate RemovedUnder(w: World, root: Path, before: World, after: World) {
    Resolve(w, root).Some? && forall e :: e in Lost(before, after) ==> Resolve(w, root).value < e
  }

  /** The root itself stays. */
  lemma RootIsKept(w: World, root: Path, before: World, after: World)
    requires RemovedUnder(w, root, before, after)
    ensures Resolve(w, root).value !in Lost(before, after)
  {
  }

  lemma NamesAreInside(before: World, after: World, directory: Path, root: Path, first: string, second: string)
    requires WellFormed(before) && directory != [] && Contained(before, root, directory) == Some(true)
    requires Lost(before, after) <= NamesDoomed(before, directory, first, second)
    ensures RemovedInside(before, after, directory, root)
  {
    var inside, folder := Resolve(before, root).value, Resolve(before, directory).value;
    SecondIsAtHome(before, directory, first, second);
    UnderParent(inside, folder, first, folder + [first]);
    UnderParent(inside, folder, second, folder + [second]);
  }

  /** The folder that a stack's folder is in exists. */
  predicate ParentIsThere(w: World, directory: Path)
    requires directory != []
  {
    EvalSymlinks(w, directory[..|directory| - 1]).There?
  }

  lemma ThereHasParent(w: World, directory: Path)
    requires directory != [] && EvalSymlinks(w, directory).There?
    ensures ParentIsThere(w, directory)
  {
    var parent, last := directory[..|directory| - 1], directory[|directory| - 1];
    assert directory == parent + [last];
    var left := FindInTwo(w, [], parent, [last], MAX_LINKS);
  }

  /** Only a stack that shares its folder is deleted although its folder's parent is not there. */
  lemma DeletedHasParent(w: World, stacks: Stacks, roots: seq<Path>, stack: Stack, confirmed: bool, checks: Checks)
    requires MayDelete(w, stacks, roots, stack, confirmed, checks) && stack.directory != []
    ensures SomeSurvivor(w, stacks, stack) || ParentIsThere(w, stack.directory)
  {
    if !SomeSurvivor(w, stacks, stack) { ThereHasParent(w, stack.directory); }
  }

  /** A root that contains a folder that is there is there itself. */
  lemma RootIsThere(w: World, root: Path, parent: Path)
    requires Contained(w, root, parent) == Some(true) && EvalSymlinks(w, parent).There?
    ensures EvalSymlinks(w, root).There?
  {
    if EvalSymlinks(w, root) == Absent {
      AbsentStays(w, root);
      FoundIsReal(w, [], parent, MAX_LINKS);
      RealBeginning(w, Resolve(w, parent).value, Resolve(w, root).value);
      RealFromRoot(w, Resolve(w, root).value, [], MAX_LINKS);
    }
  }

  /** The guard of an earlier moment bounds the removal while links are what they were. */
  lemma InsideIsUnder(w: World, before: World, after: World, directory: Path, root: Path)
    requires WellFormed(before) && w.links == before.links && InsideRoot(w, directory, root)
    requires ParentIsThere(w, directory) && RemovedInside(before, after, directory, root)
    ensures RemovedUnder(w, root, before, after)
  {
    var top, parent := Resolve(w, root).value, directory[..|directory| - 1];
    RootIsThere(w, root, parent);
    forall e | e in Lost(before, after) ensures top < e {
      if EntryOf(before, directory).Some? && EntryOf(before, directory).value <= e {
        StillThere(w, before, parent, e);
        UnderParent(top, Resolve(w, parent).value, directory[|directory| - 1], e);
      } else {
        StillThere(w, before, root, e);
      }
    }
  }

  /** A path that was there, and has something below where it leads now, leads where it did. */
  lemma StillThere(w: World, now: World, p: Path, e: Path)
    requires WellFormed(now) && w.links == now.links && EvalSymlinks(w, p).There?
    requires Resolve(now, p).Some? && e in Entries(now) && Resolve(now, p).value < e
    ensures Resolve(now, p) == Resolve(w, p)
  {
    if EvalSymlinks(now, p) == Absent {
      NothingBelowAbsent(now, p, e);
    } else {
      FindBySameLinks(w, now, [], p, MAX_LINKS);
    }
  }

  lemma UnderParent(top: Path, parent: Path, name: string, e: Path)
    requires top <= parent && parent + [name] <= e
    ensures top < e && parent < e
  {
    assert top == parent[..|top|] == (parent + [name])[..|top|] == e[..|top|];
    assert parent == (parent + [name])[..|parent|] == e[..|parent|];
  }

  /** The host after the containers are down. */
  datatype Later = Later(world: World, stacks: Stacks, directories: set<Path>, downOk: bool, faults: Faults)

  predicate AfterDown(outcome: Outcome) {
    outcome == DownFailed || outcome == FilesKept || outcome == RowKept || outcome == Deleted
  }

  /** stackDirIsInsideRoot: strictly inside, the parent's links followed; an error refuses. */
  predicate InsideRoot(w: World, directory: Path, root: Path) {
    root != [] && directory != [] && directory != root && Contained(w, root, directory[..|directory| - 1]) == Some(true)
  }

  /** Among real folders: below the root, however deep, and not the root itself. */
  lemma InsideRootIs(w: World, parent: Path, name: string, root: Path)
    requires Real(w, parent) && Real(w, root)
    ensures InsideRoot(w, parent + [name], root) <==> root != [] && root <= parent
  {
    RealFromRoot(w, parent, [], MAX_LINKS);
    RealFromRoot(w, root, [], MAX_LINKS);
    assert (parent + [name])[..|parent|] == parent;
  }

  lemma PrefixBothWays(a: Path, b: Path)
    requires a <= b && b <= a
    ensures a == b
  {
  }

  predicate FilesRemoved(outcome: Outcome) {
    outcome == RowKept || outcome == Deleted
  }

  /** A folder that would go whole is not a file by now. */
  predicate FolderIsNoFile(w: World, stacks: Stacks, stack: Stack) {
    Alone(w, stacks, stack) && Resolve(w, stack.directory).Some? ==> Resolve(w, stack.directory).value !in w.files
  }

  lemma OthersAreSpared(later: Later, stack: Stack, after: World, ok: bool)
    requires WellFormed(later.world) && Sound(later.stacks, later.directories)
    requires stack.directory != [] && WellNamed(stack)
    requires Removed(later.world, after, Doomed(later.world, later.stacks, stack), ok)
    requires AnyUnresolvable(later.world, later.stacks, stack) ==> after == later.world
    ensures forall k :: k in later.stacks && k != stack.id ==>
      var s, doomed := later.stacks[k], Doomed(later.world, later.stacks, stack);
      && (Clear(later.world, s, doomed) ==> Spares(later.world, after, s))
      && (ok ==> (Spares(later.world, after, s) <==> Clear(later.world, s, doomed)))
    ensures FolderIsNoFile(later.world, later.stacks, stack) ==>
      forall k :: k in later.stacks && k != stack.id && Plain(later.world, later.stacks[k]) ==>
        Spares(later.world, after, later.stacks[k])
  {
    var w, stacks := later.world, later.stacks;
    forall k | k in stacks && k != stack.id
      ensures Clear(w, stacks[k], Doomed(w, stacks, stack)) ==> Spares(w, after, stacks[k])
      ensures ok ==> (Spares(w, after, stacks[k]) <==> Clear(w, stacks[k], Doomed(w, stacks, stack)))
      ensures FolderIsNoFile(w, stacks, stack) && Plain(w, stacks[k]) ==> Spares(w, after, stacks[k])
    {
      RemovalSparesExactly(w, after, Doomed(w, stacks, stack), ok, stacks[k]);
      assert stacks[k] in stacks.Values;
      if !AnyUnresolvable(w, stacks, stack) && FolderIsNoFile(w, stacks, stack) && Plain(w, stacks[k]) {
        PlainStackIsClear(w, stacks, stack, stacks[k]);
      }
    }
  }

  /** The second loop: every stack whose stored path differs, placed by containment both ways. */
  method SortOthers(world: World, stacks: Stacks, stack: Stack, all: seq<Stack>, sameText: seq<Stack>)
    returns (r: Result<(seq<Stack>, seq<Stack>), ListError>)
    requires Resolve(world, stack.directory).Some?
    requires NoTwice(all) && forall s :: s in all <==> s in stacks.Values
    requires NoTwice(sameText)
    requires forall s :: s in sameText <==> s in all && s.id != stack.id && s.directory == stack.directory
    ensures r.Ok? ==>
      && (forall s :: s in stacks.Values && s.id != stack.id ==> Resolve(world, s.directory).Some?)
      && ListsSurvivors(world, stacks, stack, r.value.0) && ListsNested(world, stacks, stack, r.value.1)
    ensures r.Err? ==>
      && r.error.Unresolvable? && r.error.blocking in stacks.Values && r.error.blocking.id != stack.id
      && Resolve(world, r.error.blocking.directory) == None
  {
    var folder := Resolve(world, stack.directory).value;
    ResolvedStays(world, stack.directory);
    var survivors, nested: seq<Stack> := sameText, [];
    var i := 0;
    while i < |all|
      invariant 0 <= i <= |all| && NoTwice(survivors) && NoTwice(nested)
      invariant forall s :: s in survivors <==> s in sameText || (s in all[..i] && IsSurvivor(world, stack, s))
      invariant forall s :: s in nested <==> s in all[..i] && IsNested(world, stack, s)
      invariant forall s :: s in all[..i] && s.id != stack.id ==> Resolve(world, s.directory).Some?
    {
      var s := all[i];
      assert all[..i + 1] == all[..i] + [s];
      assert s !in all[..i];
      if s.id != stack.id && s.directory != stack.directory {
        var inside := Contained(world, folder, s.directory);
        if inside.None? { return Err(Unresolvable(s)); }
        if inside.value {
          var same := Contained(world, s.directory, folder);
          if same == Some(true) {
            PrefixBothWays(folder, Resolve(world, s.directory).value);
            survivors := survivors + [s];
          } else {
            nested := nested + [s];
          }
        }
      }
      i := i + 1;
    }
    assert all[..i] == all;
    r := Ok((survivors, nested));
  }
}
