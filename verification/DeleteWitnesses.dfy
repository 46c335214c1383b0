/**
 The deletes that cost another stack a file, each on a host with one folder named
 "stacks": an env file that is a link into the deleted stack's files, in its folder
 or in another; a folder reached through a link inside the deleted folder; and a
 folder that has become a file.
 */
module DeleteWitnesses {
  import opened Wrappers
  import opened FolderPaths
  import opened StackNames
  import opened StackFiles

  const TOP: Path := ["stacks"]

  /** A removal that succeeds takes the file the path is read from, or an entry on the way to it. */
  lemma LostWithDoomed(before: World, after: World, doomed: set<Path>, p: Path, e: Path)
    requires WellFormed(before) && Removed(before, after, doomed, true) && e in doomed
    requires Reads(before, p).Some? && (e == Reads(before, p).value || e in Trail(before, [], p, KERNEL_LINKS))
    ensures Reads(after, p) == None
  {
    FoundIsOnTrail(before, [], p, KERNEL_LINKS);
    ReadUnlessLost(before, after, p);
  }

  /** Every entry is in "stacks" or in a folder there. */
  predicate Shallow(w: World) {
    && w.files !! w.folders && w.files !! w.links.Keys && w.folders !! w.links.Keys
    && TOP in w.folders && w.closed == {}
    && forall e :: e in Entries(w) ==>
         e == TOP || (|e| == 2 && e[..1] == TOP) || (|e| == 3 && e[..1] == TOP && e[..2] in w.folders)
  }

  lemma ShallowIsWellFormed(w: World)
    requires Shallow(w)
    ensures WellFormed(w)
  {
  }

  /** A folder of "stacks", and whatever in it is no link, is where it says. */
  lemma FolderIsReal(w: World, folder: Path)
    requires Shallow(w) && folder in w.folders && |folder| == 2
    ensures Real(w, folder) && Resolve(w, folder) == Some(folder) && folder !in w.closed && folder !in w.files
  {
    assert folder in Entries(w) && folder[..0] == [] && folder[..2] == folder;
    RealFromRoot(w, folder, [], MAX_LINKS);
  }

  lemma FileIsReal(w: World, folder: Path, name: string)
    requires Shallow(w) && folder in w.folders && |folder| == 2 && folder + [name] in w.files
    ensures Real(w, folder + [name]) && Reads(w, folder + [name]) == Some(folder + [name])
    ensures Resolve(w, folder + [name]) == Some(folder + [name])
  {
    FolderIsReal(w, folder);
    RealStep(w, folder, name);
    RealFromRoot(w, folder + [name], [], KERNEL_LINKS);
    RealFromRoot(w, folder + [name], [], MAX_LINKS);
  }

  /** A link in a folder to a file in a folder is read as that file. */
  lemma LinkIsRead(w: World, folder: Path, name: string, other: Path, file: string)
    requires Shallow(w) && folder in w.folders && |folder| == 2 && folder + [name] in w.links
    requires w.links[folder + [name]] == other + [file]
    requires other in w.folders && |other| == 2 && other + [file] in w.files
    ensures Reads(w, folder + [name]) == Some(other + [file])
  {
    FolderIsReal(w, folder);
    FileIsReal(w, other, file);
    RealFromRoot(w, folder, [name], KERNEL_LINKS);
    RealFromRoot(w, other + [file], [], KERNEL_LINKS - 1);
    assert (other + [file]) + [name][1..] == other + [file];
  }

  lemma NamedFile(w: World, folder: Path, name: string)
    requires Shallow(w) && folder in w.folders && |folder| == 2 && folder + [name] in w.files && name != ""
    ensures Named(w, folder, name) == {folder + [name]}
  {
    FolderIsReal(w, folder);
    var e := folder + [name];
    forall f | f in Entries(w) && e <= f ensures f == e {
      assert |f| <= 3;
    }
    assert Under(w, e) == {e};
  }

  /** Without one file the host is as shallow as it was. */
  lemma StaysShallow(w: World, file: Path)
    requires Shallow(w) && file in w.files
    ensures Shallow(Minus(w, {file}))
  {
  }

  // ------------------------------------------- one folder, an env file that is a link

  function Two(a: Stack, b: Stack): Stacks { map[a.id := a, b.id := b] }

  /** Two well-named stacks in one folder, the second one's env file a link to the first one's. */
  predicate SharesLinkedEnv(w: World, folder: Path, a: Stack, b: Stack) {
    && Shallow(w) && folder in w.folders && |folder| == 2 && a.id != b.id && WellNamed(a) && WellNamed(b)
    && a.directory == folder && b.directory == folder && a.composeFile != b.composeFile && a.envFile != b.envFile
    && a.envFile != "" && b.envFile != "" && folder + [a.composeFile] in w.files && folder + [a.envFile] in w.files
    && folder + [b.envFile] in w.links && w.links[folder + [b.envFile]] == folder + [a.envFile]
  }

  lemma SharedNames(w: World, folder: Path, a: Stack, b: Stack)
    requires SharesLinkedEnv(w, folder, a, b)
    ensures !Alone(w, Two(a, b), a)
    ensures FirstName(w, Two(a, b), a) == a.composeFile && SecondName(w, Two(a, b), a) == a.envFile
  {
    hide Shallow, Resolve;
    FolderIsReal(w, folder);
    assert Two(a, b)[b.id] == b && IsSurvivor(w, a, b);
  }

  lemma SharedDoomed(w: World, folder: Path, a: Stack, b: Stack)
    requires SharesLinkedEnv(w, folder, a, b)
    ensures folder + [a.envFile] in Doomed(w, Two(a, b), a)
  {
    SharedNames(w, folder, a, b);
    RolesNeverCross(a.composeFile, a.envFile);
    NamedFile(w, folder, a.composeFile);
    var first, second := folder + [a.composeFile], folder + [a.envFile];
    assert first[2] != second[2];
    StaysShallow(w, first);
    NamedFile(Minus(w, {first}), folder, a.envFile);
  }

  /** Deleting the first stack leaves the second one's env file a link to nothing, though neither names the other's. */
  lemma SharedFolderCostsLinkedEnv(w: World, folder: Path, a: Stack, b: Stack, after: World)
    requires SharesLinkedEnv(w, folder, a, b) && Removed(w, after, Doomed(w, Two(a, b), a), true)
    ensures Reads(w, FilePath(b, b.envFile)) == Some(folder + [a.envFile])
    ensures Reads(after, FilePath(b, b.envFile)) == None
  {
    SharedDoomed(w, folder, a, b);
    ShallowIsWellFormed(w);
    LinkIsRead(w, folder, b.envFile, folder, a.envFile);
    LostWithDoomed(w, after, Doomed(w, Two(a, b), a), FilePath(b, b.envFile), folder + [a.envFile]);
  }

  // ------------------------------------------------ another folder's env file, a link

  /** Two stacks in folders of their own, the second one's env file a link to the first one's. */
  predicate LinksInto(w: World, a: Stack, b: Stack) {
    && Shallow(w) && a.directory in w.folders && b.directory in w.folders && |a.directory| == 2 && |b.directory| == 2
    && a.id != b.id && a.directory != b.directory && a.envFile != "" && b.envFile != ""
    && a.directory + [a.envFile] in w.files
    && b.directory + [b.envFile] in w.links && w.links[b.directory + [b.envFile]] == a.directory + [a.envFile]
  }

  lemma FolderEntry(w: World, folder: Path)
    requires Shallow(w) && folder in w.folders && |folder| == 2
    ensures EntryOf(w, folder) == Some(folder)
  {
    FolderIsReal(w, folder);
    assert folder in Entries(w);
    assert folder[..1] == TOP;
    RealBeginning(w, folder, TOP);
    RealFromRoot(w, TOP, [], MAX_LINKS);
    assert TOP + [folder[1]] == folder;
  }

  lemma WholeFolderDoomed(w: World, a: Stack, b: Stack, e: Path)
    requires Shallow(w) && a.directory in w.folders && |a.directory| == 2 && a.id != b.id
    requires Resolve(w, b.directory).Some? && !(a.directory <= Resolve(w, b.directory).value)
    requires e in Entries(w) && a.directory <= e
    ensures e in Doomed(w, Two(a, b), a)
  {
    hide Resolve, Shallow;
    FolderIsReal(w, a.directory);
    FolderEntry(w, a.directory);
    assert Alone(w, Two(a, b), a);
  }

  /** Deleting the first stack, with its whole folder, leaves the second one's env file a link to nothing. */
  lemma WholeFolderCostsLinkedEnv(w: World, a: Stack, b: Stack, after: World)
    requires LinksInto(w, a, b) && Removed(w, after, Doomed(w, Two(a, b), a), true)
    ensures IsOutside(w, a, b)
    ensures Reads(w, FilePath(b, b.envFile)) == Some(a.directory + [a.envFile])
    ensures Reads(after, FilePath(b, b.envFile)) == None
  {
    FolderIsReal(w, a.directory);
    FolderIsReal(w, b.directory);
    WholeFolderDoomed(w, a, b, a.directory + [a.envFile]);
    ShallowIsWellFormed(w);
    LinkIsRead(w, b.directory, b.envFile, a.directory, a.envFile);
    LostWithDoomed(w, after, Doomed(w, Two(a, b), a), FilePath(b, b.envFile), a.directory + [a.envFile]);
  }

  // ------------------------------------------- a folder reached through the deleted one

  /** The second stack is registered through a link in the first one's folder to a folder elsewhere. */
  predicate ReachedThrough(w: World, folder: Path, link: string, a: Stack, b: Stack) {
    && Shallow(w) && a.directory in w.folders && folder in w.folders && |a.directory| == 2 && |folder| == 2
    && a.id != b.id && a.directory != folder && b.composeFile != ""
    && b.directory == a.directory + [link] && b.directory in w.links && w.links[b.directory] == folder
    && folder + [b.composeFile] in w.files
  }

  lemma ThroughLink(w: World, folder: Path, link: string, a: Stack, b: Stack, more: Path, budget: nat)
    requires ReachedThrough(w, folder, link, a, b) && budget > 0
    ensures Find(w, [], b.directory + more, budget) == Find(w, folder, more, budget - 1)
    ensures b.directory in Trail(w, [], b.directory + more, budget)
  {
    hide Shallow, Find, Trail, Real;
    FolderIsReal(w, a.directory);
    FolderIsReal(w, folder);
    LinkStep(w, a.directory, link, folder, more, budget);
    RealFromRoot(w, folder, more, budget - 1);
  }

  lemma LinkStep(w: World, at: Path, link: string, target: Path, more: Path, budget: nat)
    requires Real(w, at) && at !in w.closed && at !in w.files && budget > 0
    requires at + [link] in w.links && w.links[at + [link]] == target
    ensures Find(w, [], at + [link] + more, budget) == Find(w, [], target + more, budget - 1)
    ensures at + [link] in Trail(w, [], at + [link] + more, budget)
  {
    var rest := [link] + more;
    assert at + [link] + more == at + rest && rest[0] == link && rest[1..] == more;
    RealFromRoot(w, at, rest, budget);
    assert [] + at == at;
    TrailGoesOn(w, [], at, rest, budget);
  }

  /** Deleting the first stack, with its whole folder, takes the path that the second one is registered by. */
  lemma WholeFolderCostsPath(w: World, folder: Path, link: string, a: Stack, b: Stack, after: World)
    requires ReachedThrough(w, folder, link, a, b) && Removed(w, after, Doomed(w, Two(a, b), a), true)
    ensures IsOutside(w, a, b)
    ensures Reads(w, FilePath(b, b.composeFile)) == Some(folder + [b.composeFile])
    ensures Reads(after, FilePath(b, b.composeFile)) == None
  {
    hide Shallow;
    FolderIsReal(w, a.directory);
    assert b.directory + [] == b.directory;
    ThroughLink(w, folder, link, a, b, [], MAX_LINKS);
    WholeFolderDoomed(w, a, b, b.directory);
    ShallowIsWellFormed(w);
    ThroughLink(w, folder, link, a, b, [b.composeFile], KERNEL_LINKS);
    FileIsReal(w, folder, b.composeFile);
    FolderIsReal(w, folder);
    RealFromRoot(w, folder, [b.composeFile], KERNEL_LINKS);
    FindWithMore(w, folder, [b.composeFile], KERNEL_LINKS - 1, KERNEL_LINKS);
    LostWithDoomed(w, after, Doomed(w, Two(a, b), a), FilePath(b, b.composeFile), b.directory);
  }

  // -------------------------------------------------------- a folder that is a file

  /** The folder that the first stack was registered in has become the second one's compose file. */
  predicate FolderIsFile(w: World, a: Stack, b: Stack) {
    && Shallow(w) && b.directory in w.folders && |b.directory| == 2 && a.id != b.id && b.composeFile != ""
    && a.directory == b.directory + [b.composeFile] && a.directory in w.files
  }

  /** Deleting the first stack takes the second one's compose file. */
  lemma FolderThatIsAFileIsLost(w: World, a: Stack, b: Stack, after: World)
    requires FolderIsFile(w, a, b) && Removed(w, after, Doomed(w, Two(a, b), a), true)
    ensures IsOutside(w, a, b) && Reads(w, FilePath(b, b.composeFile)) == Some(a.directory)
    ensures Reads(after, FilePath(b, b.composeFile)) == None
  {
    hide Shallow, WellFormed;
    FolderIsReal(w, b.directory);
    FileIsReal(w, b.directory, b.composeFile);
    EntryInFolder(w, b.directory, b.composeFile);
    ShallowIsWellFormed(w);
    LostWithDoomed(w, after, Doomed(w, Two(a, b), a), FilePath(b, b.composeFile), a.directory);
  }

  // ------------------------------------------------------------------- such hosts

  const X: Path := ["stacks", "x"]
  const Y: Path := ["stacks", "y"]

  lemma ShallowHost(w: World)
    requires w.closed == {} && w.folders == {TOP, X, Y}
    requires forall f :: f in w.files ==> |f| == 3 && (f[..2] == X || f[..2] == Y) && f !in w.links
    requires forall l :: l in w.links ==> |l| == 3 && (l[..2] == X || l[..2] == Y)
    ensures Shallow(w)
  {
    assert X[..1] == TOP && Y[..1] == TOP;
    forall e | e in Entries(w) && |e| == 3 ensures e[..1] == TOP { assert e[..1] == e[..2][..1]; }
  }

  lemma NamesAreGood(folder: Path)
    ensures WellNamed(Stack("1", folder, "compose.yaml", ".env"))
    ensures WellNamed(Stack("2", folder, "compose.b.yaml", ".env.b"))
  {
    assert Matches("compose.yaml", "compose", ".yaml") && Matches("compose.b.yaml", "compose", ".yaml");
  }

  lemma SharedFolderHost()
    ensures SharesLinkedEnv(
              World({X + ["compose.yaml"], X + [".env"]}, {TOP, X, Y}, map[X + [".env.b"] := X + [".env"]], {}),
              X, Stack("1", X, "compose.yaml", ".env"), Stack("2", X, "compose.b.yaml", ".env.b"))
  {
    hide Shallow, WellNamed;
    assert X + [".env"] != X + [".env.b"] && X + ["compose.yaml"] != X + [".env.b"] by {
      assert (X + [".env"])[2] != (X + [".env.b"])[2] && (X + ["compose.yaml"])[2] != (X + [".env.b"])[2];
    }
    NamesAreGood(X);
    ShallowHost(World({X + ["compose.yaml"], X + [".env"]}, {TOP, X, Y}, map[X + [".env.b"] := X + [".env"]], {}));
  }

  lemma OtherFolderHost()
    ensures LinksInto(
              World({X + ["compose.yaml"], X + [".env"]}, {TOP, X, Y}, map[Y + [".env"] := X + [".env"]], {}),
              Stack("1", X, "compose.yaml", ".env"), Stack("2", Y, "compose.yaml", ".env"))
  {
    hide Shallow;
    assert (X + [".env"])[1] != (Y + [".env"])[1] && (X + ["compose.yaml"])[1] != (Y + [".env"])[1];
    ShallowHost(World({X + ["compose.yaml"], X + [".env"]}, {TOP, X, Y}, map[Y + [".env"] := X + [".env"]], {}));
  }

  lemma LinkedFolderHost()
    ensures ReachedThrough(
              World({Y + ["compose.yaml"]}, {TOP, X, Y}, map[X + ["y"] := Y], {}),
              Y, "y", Stack("1", X, "compose.yaml", ""), Stack("2", X + ["y"], "compose.yaml", ""))
  {
    hide Shallow;
    assert (Y + ["compose.yaml"])[1] != (X + ["y"])[1];
    ShallowHost(World({Y + ["compose.yaml"]}, {TOP, X, Y}, map[X + ["y"] := Y], {}));
  }

  lemma FileForFolderHost()
    ensures FolderIsFile(
              World({Y + ["compose.yaml"]}, {TOP, X, Y}, map[], {}),
              Stack("1", Y + ["compose.yaml"], "compose.yaml", ""), Stack("2", Y, "compose.yaml", ""))
  {
    ShallowHost(World({Y + ["compose.yaml"]}, {TOP, X, Y}, map[], {}));
  }
}
