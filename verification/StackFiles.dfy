/**
 What deleting a stack removes from disk, and which files of the other stacks can
 still be read afterwards, when folders are shared, linked or nested and compose
 and env files may be links themselves.
 */
module StackFiles {
  import opened Wrappers
  import opened FolderPaths
  import opened StackNames

  /** A stack row; "" is no file. */
  datatype Stack = Stack(id: string, directory: Path, composeFile: string, envFile: string)

  type Stacks = map<string, Stack>

  // --------------------------------------------------------------- who else is there

  /** Another stack in the same folder, however its own path reaches it. */
  predicate IsSurvivor(w: World, stack: Stack, s: Stack) {
    s.id != stack.id && Resolve(w, stack.directory).Some? && Resolve(w, s.directory) == Resolve(w, stack.directory)
  }

  /** Another stack strictly inside the folder. */
  predicate IsNested(w: World, stack: Stack, s: Stack) {
    && s.id != stack.id && Resolve(w, stack.directory).Some? && Resolve(w, s.directory).Some?
    && Resolve(w, stack.directory).value < Resolve(w, s.directory).value
  }

  predicate IsOutside(w: World, stack: Stack, s: Stack) {
    && s.id != stack.id && Resolve(w, stack.directory).Some? && Resolve(w, s.directory).Some?
    && !(Resolve(w, stack.directory).value <= Resolve(w, s.directory).value)
  }

  /** Another stack is exactly one of the three once every folder resolves. */
  lemma OneOfThree(w: World, stack: Stack, s: Stack)
    requires s.id != stack.id && Resolve(w, stack.directory).Some? && Resolve(w, s.directory).Some?
    ensures IsSurvivor(w, stack, s) || IsNested(w, stack, s) || IsOutside(w, stack, s)
    ensures !(IsSurvivor(w, stack, s) && IsNested(w, stack, s))
    ensures !(IsSurvivor(w, stack, s) && IsOutside(w, stack, s)) && !(IsNested(w, stack, s) && IsOutside(w, stack, s))
  {
    var folder, other := Resolve(w, stack.directory).value, Resolve(w, s.directory).value;
    if folder <= other && |folder| == |other| { assert other == other[..|folder|] == folder; }
  }

  predicate Keyed(stacks: Stacks) {
    forall id :: id in stacks ==> stacks[id].id == id
  }

  /** Named as every writer of stack rows names files. */
  predicate WellNamed(s: Stack) {
    IsComposeFileName(s.composeFile) && IsEnvFileName(s.envFile)
  }

  /** Rows by id, well named, and each row's folder registered: the foreign key. */
  predicate Sound(stacks: Stacks, directories: set<Path>) {
    Keyed(stacks) && forall id :: id in stacks ==> WellNamed(stacks[id]) && stacks[id].directory in directories
  }

  /** No other registered stack is in the folder or under it. */
  predicate Alone(w: World, stacks: Stacks, stack: Stack) {
    forall id :: id in stacks ==> !IsSurvivor(w, stack, stacks[id]) && !IsNested(w, stack, stacks[id])
  }

  predicate ComposeShared(w: World, stacks: Stacks, stack: Stack) {
    exists id :: id in stacks && IsSurvivor(w, stack, stacks[id]) && stacks[id].composeFile == stack.composeFile
  }

  predicate EnvShared(w: World, stacks: Stacks, stack: Stack) {
    exists id :: id in stacks && IsSurvivor(w, stack, stacks[id]) && stacks[id].envFile == stack.envFile
  }

  /** Some folder, the stack's own or another's, cannot be resolved. */
  predicate AnyUnresolvable(w: World, stacks: Stacks, stack: Stack) {
    || Resolve(w, stack.directory) == None
    || exists id :: id in stacks && id != stack.id && Resolve(w, stacks[id].directory) == None
  }

  // --------------------------------------------------------------------- what goes

  /** The compose file's name, unless another stack in the folder uses it as its own compose file. */
  function FirstName(w: World, stacks: Stacks, stack: Stack): string {
    if ComposeShared(w, stacks, stack) then "" else stack.composeFile
  }

  /** The env file's name, unless another stack in the folder uses it as its own env file. */
  function SecondName(w: World, stacks: Stacks, stack: Stack): string {
    if EnvShared(w, stacks, stack) then "" else stack.envFile
  }

  /** A name of this survivor's would be removed although in use, as a file of the other kind. */
  predicate Crossed(w: World, stacks: Stacks, stack: Stack, s: Stack) {
    || (s.envFile != "" && s.envFile == FirstName(w, stacks, stack))
    || (s.composeFile != "" && s.composeFile == SecondName(w, stacks, stack))
  }

  /** The names to remove hold one of a survivor's exactly when names cross. */
  lemma SurvivorKeepsFilesUnlessCrossed(w: World, stacks: Stacks, stack: Stack, s: Stack)
    requires s in stacks.Values && IsSurvivor(w, stack, s)
    ensures (s.composeFile != "" && s.composeFile in {FirstName(w, stacks, stack), SecondName(w, stacks, stack)})
         || (s.envFile != "" && s.envFile in {FirstName(w, stacks, stack), SecondName(w, stacks, stack)})
       <==> Crossed(w, stacks, stack, s)
  {
    var id :| id in stacks && stacks[id] == s;
    assert s.composeFile == stack.composeFile ==> ComposeShared(w, stacks, stack);
    assert s.envFile == stack.envFile ==> EnvShared(w, stacks, stack);
  }

  /** Names never cross among rows that their writers named. */
  lemma WellNamedNeverCross(w: World, stacks: Stacks, stack: Stack, s: Stack)
    requires WellNamed(stack) && WellNamed(s)
    ensures !Crossed(w, stacks, stack, s)
  {
    RolesNeverCross(stack.composeFile, s.envFile);
    RolesNeverCross(s.composeFile, stack.envFile);
  }

  /** What os.Remove of a name in a folder takes: the entry of that name, unless it is a folder that holds something. */
  function Named(w: World, folder: Path, name: string): set<Path> {
    if name == "" || Resolve(w, folder) == None then {}
    else
      var e := Resolve(w, folder).value + [name];
      if Under(w, e) == {e} then {e} else {}
  }

  /** One name, and then another in what is left. */
  function NamesDoomed(w: World, folder: Path, first: string, second: string): set<Path> {
    Named(w, folder, first) + Named(Minus(w, Named(w, folder, first)), folder, second)
  }

  /** What a removal that succeeds takes: all under the folder's entry, or the stack's own names in the folder. */
  function Doomed(w: World, stacks: Stacks, stack: Stack): set<Path>
    requires stack.directory != []
  {
    if !Alone(w, stacks, stack) then
      NamesDoomed(w, stack.directory, FirstName(w, stacks, stack), SecondName(w, stacks, stack))
    else
      match EntryOf(w, stack.directory)
      case None => {}
      case Some(entry) => Under(w, entry)
  }

  /** After a removal: nothing but doomed entries have gone, and all of them if it succeeded. */
  predicate Removed(before: World, after: World, doomed: set<Path>, ok: bool) {
    OnlyLoses(before, after) && Lost(before, after) <= doomed && (ok ==> Lost(before, after) == doomed)
  }

  lemma NamedIsWhole(w: World, folder: Path, name: string)
    ensures Named(w, folder, name) <= Entries(w) && Whole(w, Named(w, folder, name))
  {
    if Named(w, folder, name) != {} {
      var e := Resolve(w, folder).value + [name];
      assert e in Under(w, e);
      UnderIsWhole(w, e);
    }
  }

  /** The second name is removed where the first one was, or not at all: nothing is inside a link that has just gone. */
  lemma SecondIsAtHome(w: World, folder: Path, first: string, second: string)
    requires WellFormed(w) && Resolve(w, folder).Some?
    ensures Named(Minus(w, Named(w, folder, first)), folder, second) <= {Resolve(w, folder).value + [second]}
  {
    hide Find, WellFormed, Trail;
    var one, home := Named(w, folder, first), Resolve(w, folder).value;
    var rest := Minus(w, one);
    if one == {} {
      assert rest == w;
    } else {
      assert home + [first] in Under(w, home + [first]);
      if EvalSymlinks(w, folder) == Absent { NothingBelowAbsent(w, folder, home + [first]); }
      NamedIsWhole(w, folder, first);
      MinusLoses(w, one);
      MinusStaysWellFormed(w, one);
      FoundUnlessLost(w, rest, [], folder, MAX_LINKS);
      if EvalSymlinks(rest, folder) == Absent && Named(rest, folder, second) != {} {
        var e := Resolve(rest, folder).value + [second];
        assert e in Under(rest, e);
        NothingBelowAbsent(rest, folder, e);
      }
    }
  }

  // ------------------------------------------------------------- what can be read

  /** How many links the kernel follows to open a file. */
  const KERNEL_LINKS: nat := 40

  /** The file that a path is read from, every link followed. */
  function Reads(w: World, p: Path): Option<Path> {
    match Find(w, [], p, KERNEL_LINKS)
    case There(place) => if place in w.files then Some(place) else None
    case _ => None
  }

  function FilePath(s: Stack, name: string): Path {
    s.directory + [name]
  }

  /** A file that could be read still can, and is the same one. */
  predicate KeepsFile(before: World, after: World, s: Stack, name: string) {
    name != "" && Reads(before, FilePath(s, name)).Some? ==>
      Reads(after, FilePath(s, name)) == Reads(before, FilePath(s, name))
  }

  predicate Spares(before: World, after: World, s: Stack) {
    KeepsFile(before, after, s, s.composeFile) && KeepsFile(before, after, s, s.envFile)
  }

  /** Nothing among these entries is one that the file is read through. */
  predicate ClearFile(w: World, s: Stack, name: string, gone: set<Path>) {
    name != "" && Reads(w, FilePath(s, name)).Some? ==> Trail(w, [], FilePath(s, name), KERNEL_LINKS) !! gone
  }

  predicate Clear(w: World, s: Stack, gone: set<Path>) {
    ClearFile(w, s, s.composeFile, gone) && ClearFile(w, s, s.envFile, gone)
  }

  lemma ReadUnlessLost(before: World, after: World, p: Path)
    requires WellFormed(before) && OnlyLoses(before, after) && Reads(before, p).Some?
    ensures Reads(after, p)
         == if Trail(before, [], p, KERNEL_LINKS) !! Lost(before, after) then Reads(before, p) else None
  {
    FoundUnlessLost(before, after, [], p, KERNEL_LINKS);
    FoundIsOnTrail(before, [], p, KERNEL_LINKS);
    assert Reads(before, p).value in Entries(before);
  }

  /** A stack's files are spared exactly when nothing that they are read through has gone. */
  lemma SparedExactlyWhenClear(before: World, after: World, s: Stack)
    requires WellFormed(before) && OnlyLoses(before, after)
    ensures Spares(before, after, s) <==> Clear(before, s, Lost(before, after))
  {
    if Reads(before, FilePath(s, s.composeFile)).Some? { ReadUnlessLost(before, after, FilePath(s, s.composeFile)); }
    if Reads(before, FilePath(s, s.envFile)).Some? { ReadUnlessLost(before, after, FilePath(s, s.envFile)); }
  }

  /** Decided before the removal: a stack clear of what is doomed is spared, and after a success no other is. */
  lemma RemovalSparesExactly(before: World, after: World, doomed: set<Path>, ok: bool, s: Stack)
    requires WellFormed(before) && Removed(before, after, doomed, ok)
    ensures Clear(before, s, doomed) ==> Spares(before, after, s)
    ensures ok ==> (Spares(before, after, s) <==> Clear(before, s, doomed))
  {
    SparedExactlyWhenClear(before, after, s);
  }

  // -------------------------------------------------------------- ordinary stacks

  /** The stack's own path has no link on its way, and the files it has are no links. */
  predicate Plain(w: World, s: Stack) {
    && (s.composeFile != "" && Reads(w, FilePath(s, s.composeFile)).Some? ==> PlainFile(w, s, s.composeFile))
    && (s.envFile != "" && Reads(w, FilePath(s, s.envFile)).Some? ==> PlainFile(w, s, s.envFile))
  }

  predicate PlainFile(w: World, s: Stack, name: string) {
    Real(w, FilePath(s, name)) && FilePath(s, name) in w.files
  }

  /** A stack with such files is plain, and one that reads its compose file through a link is not. */
  lemma PlainMeans(w: World, s: Stack)
    ensures PlainFile(w, s, s.composeFile) && (s.envFile == "" || PlainFile(w, s, s.envFile)) ==> Plain(w, s)
    ensures WellFormed(w) && s.composeFile != "" && Reads(w, FilePath(s, s.composeFile)).Some? ==>
      (FilePath(s, s.composeFile) in w.links ==> !Plain(w, s))
  {
  }

  lemma BeginsWithBeginning(a: Path, b: Path, c: Path)
    ensures a <= b && b <= c ==> a <= c
  {
    if a <= b && b <= c { assert a == b[..|a|] == c[..|a|]; }
  }

  lemma EndsWithName(s: Stack, name: string, e: Path)
    requires e <= FilePath(s, name)
    ensures e == FilePath(s, name) || e <= s.directory
  {
    var p := FilePath(s, name);
    if |e| < |p| { assert e == p[..|e|] == s.directory[..|e|]; }
  }

  /** Nothing a plain file is read through goes with another stack's whole folder. */
  lemma PlainFileOutside(w: World, stack: Stack, s: Stack, name: string)
    requires stack.directory != [] && Resolve(w, stack.directory).Some? && IsOutside(w, stack, s)
    requires PlainFile(w, s, name) && Resolve(w, stack.directory).value !in w.files
    requires Resolve(w, s.directory) == Some(s.directory)
    ensures EntryOf(w, stack.directory).Some? && !(EntryOf(w, stack.directory).value <= FilePath(s, name))
  {
    EntryOfResolved(w, stack.directory);
    var entry, p := EntryOf(w, stack.directory).value, FilePath(s, name);
    if entry <= p {
      assert entry == p[..|entry|];
      EndsWithName(s, name, entry);
    }
  }

  /** A removed name on the way to a plain file is that file's own, in its own folder. */
  lemma NamedOnTheWay(w: World, folder: Path, first: string, second: string, s: Stack, name: string, e: Path)
    requires WellFormed(w) && Resolve(w, folder).Some?
    requires e in NamesDoomed(w, folder, first, second) && e <= FilePath(s, name) && FilePath(s, name) in w.files
    ensures s.directory == Resolve(w, folder).value && (name == first || name == second)
  {
    var one, home, p := Named(w, folder, first), Resolve(w, folder).value, FilePath(s, name);
    SecondIsAtHome(w, folder, first, second);
    if e in one {
      assert p in Under(w, e);
    } else {
      assert e == home + [second];
      if p !in one { assert p in Under(Minus(w, one), e); }
    }
    assert e == p;
    assert p[..|p| - 1] == s.directory && p[|p| - 1] == name;
    assert e[..|e| - 1] == home;
  }

  /** No removal takes an entry that a plain file of another stack is read through, unless names cross. */
  lemma PlainFileIsClear(w: World, stacks: Stacks, stack: Stack, s: Stack, name: string)
    requires WellFormed(w) && stack.directory != [] && s in stacks.Values && s.id != stack.id
    requires !AnyUnresolvable(w, stacks, stack) && PlainFile(w, s, name)
    requires IsSurvivor(w, stack, s) ==> name != FirstName(w, stacks, stack) && name != SecondName(w, stacks, stack)
    requires Alone(w, stacks, stack) ==> Resolve(w, stack.directory).value !in w.files
    ensures Trail(w, [], FilePath(s, name), KERNEL_LINKS) !! Doomed(w, stacks, stack)
  {
    var p := FilePath(s, name);
    assert [] + p == p;
    RealBeginning(w, p, s.directory);
    RealFromRoot(w, s.directory, [], MAX_LINKS);
    var id :| id in stacks && stacks[id] == s;
    if Alone(w, stacks, stack) {
      OneOfThree(w, stack, s);
      PlainFileOutside(w, stack, s, name);
    }
    forall e | e in Trail(w, [], p, KERNEL_LINKS) ensures e !in Doomed(w, stacks, stack) {
      TrailOfReal(w, [], p, KERNEL_LINKS, e);
      if Alone(w, stacks, stack) {
        var entry := EntryOf(w, stack.directory).value;
        BeginsWithBeginning(entry, e, p);
      } else if e in Doomed(w, stacks, stack) {
        NamedOnTheWay(w, stack.directory, FirstName(w, stacks, stack), SecondName(w, stacks, stack), s, name, e);
      }
    }
  }

  /**
   Whatever is deleted, every other stack without links keeps its files, provided
   that all rows are named by their writers and the deleted stack's folder is no file.
   */
  lemma PlainStackIsClear(w: World, stacks: Stacks, stack: Stack, s: Stack)
    requires WellFormed(w) && stack.directory != [] && s in stacks.Values && s.id != stack.id
    requires !AnyUnresolvable(w, stacks, stack) && Plain(w, s) && WellNamed(stack) && WellNamed(s)
    requires Alone(w, stacks, stack) ==> Resolve(w, stack.directory).value !in w.files
    ensures Clear(w, s, Doomed(w, stacks, stack))
  {
    if IsSurvivor(w, stack, s) { SurvivorKeepsFilesUnlessCrossed(w, stacks, stack, s); }
    WellNamedNeverCross(w, stacks, stack, s);
    if s.composeFile != "" && Reads(w, FilePath(s, s.composeFile)).Some? {
      PlainFileIsClear(w, stacks, stack, s, s.composeFile);
    }
    if s.envFile != "" && Reads(w, FilePath(s, s.envFile)).Some? {
      PlainFileIsClear(w, stacks, stack, s, s.envFile);
    }
  }
}
