/**
 Folders, and the links among them: finding what a path leads to, resolving a path
 part of which may not exist, containment after resolution, and what a removal
 leaves findable.
 */
module FolderPaths {
  import opened Wrappers

  /** A cleaned absolute path, component by component. */
  type Path = seq<string>

  /**
   What is where, by the paths where things really are: files, folders (the root is
   one and not listed), links with the path each holds, and folders that cannot be
   searched.
   */
  datatype World = World(files: set<Path>, folders: set<Path>, links: map<Path, Path>, closed: set<Path>)

  const MAX_LINKS: nat := 255

  function Entries(w: World): set<Path> {
    w.files + w.folders + w.links.Keys
  }

  /** An entry of a folder, removable by its name. */
  predicate Present(w: World, entry: Path) {
    entry in w.files || entry in w.folders || entry in w.links
  }

  predicate IsFolder(w: World, p: Path) {
    p == [] || p in w.folders
  }

  /** An entry is one thing, and is in a folder. */
  predicate WellFormed(w: World) {
    && w.files !! w.folders && w.files !! w.links.Keys && w.folders !! w.links.Keys
    && forall e :: e in Entries(w) ==> e != [] && IsFolder(w, e[..|e| - 1])
  }

  lemma {:induction false} AboveAreFolders(w: World, e: Path, p: Path)
    requires WellFormed(w) && Present(w, e) && p < e
    ensures IsFolder(w, p)
    decreases |e|
  {
    assert e in Entries(w);
    var parent := e[..|e| - 1];
    assert p <= parent by { assert p == e[..|p|] == parent[..|p|]; }
    if p != parent { AboveAreFolders(w, parent, p); }
  }

  // --------------------------------------------------------------------- finding

  /** What a path leads to, every link followed: where it really is; nothing; or an error of another kind. */
  datatype Found = There(place: Path) | Absent | Fault

  /** From a folder already found, the rest of a path, at most so many links being followed. */
  function Find(w: World, base: Path, rest: Path, budget: nat): Found
    decreases budget, |rest|
  {
    if rest == [] then There(base)
    else if base in w.closed || base in w.files then Fault
    else
      var next := base + [rest[0]];
      if next in w.links then
        if budget == 0 then Fault else Find(w, [], w.links[next] + rest[1..], budget - 1)
      else if next in w.files || next in w.folders then Find(w, next, rest[1..], budget)
      else Absent
  }

  /** filepath.EvalSymlinks */
  function EvalSymlinks(w: World, p: Path): Found {
    Find(w, [], p, MAX_LINKS)
  }

  /** ResolveExisting: the longest part that exists, resolved, and the rest as it stands; None is an error. */
  function Resolve(w: World, p: Path): Option<Path>
    decreases |p|
  {
    match EvalSymlinks(w, p)
    case There(place) => Some(place)
    case Fault => None
    case Absent =>
      if p == [] then Some(p)
      else
        match Resolve(w, p[..|p| - 1])
        case None => None
        case Some(parent) => Some(parent + [p[|p| - 1]])
  }

  /** IsContained: the target is the root or inside it, both resolved; None when either cannot be. */
  function Contained(w: World, root: Path, target: Path): Option<bool> {
    match Resolve(w, root)
    case None => None
    case Some(realRoot) =>
      match Resolve(w, target)
      case None => None
      case Some(realTarget) => Some(realRoot <= realTarget)
  }

  /** A search along a longer path first goes along the shorter one, with `left` links to spare at its end. */
  lemma {:induction false} FindInTwo(w: World, base: Path, rest: Path, more: Path, budget: nat) returns (left: nat)
    ensures match Find(w, base, rest, budget)
            case There(q) => left <= budget && Find(w, base, rest + more, budget) == Find(w, q, more, left)
            case stop => Find(w, base, rest + more, budget) == stop
    decreases budget, |rest|
  {
    left := budget;
    if rest == [] {
      assert rest + more == more;
    } else if base !in w.closed && base !in w.files {
      assert (rest + more)[0] == rest[0] && (rest + more)[1..] == rest[1..] + more;
      var next := base + [rest[0]];
      if next in w.links {
        assert w.links[next] + (rest[1..] + more) == (w.links[next] + rest[1..]) + more;
        if budget > 0 { left := FindInTwo(w, [], w.links[next] + rest[1..], more, budget - 1); }
      } else if next in w.files || next in w.folders {
        left := FindInTwo(w, next, rest[1..], more, budget);
      }
    }
  }

  /** More links allowed change no answer but an error. */
  lemma {:induction false} FindWithMore(w: World, base: Path, rest: Path, budget: nat, more: nat)
    requires budget <= more && Find(w, base, rest, budget) != Fault
    ensures Find(w, base, rest, more) == Find(w, base, rest, budget)
    decreases budget, |rest|
  {
    if rest != [] && base !in w.closed && base !in w.files {
      var next := base + [rest[0]];
      if next in w.links {
        FindWithMore(w, [], w.links[next] + rest[1..], budget - 1, more - 1);
      } else if next in w.files || next in w.folders {
        FindWithMore(w, next, rest[1..], budget, more);
      }
    }
  }

  /** What each thing on the way does: a link leads on, a file and a closed folder are errors, nothing is nothing. */
  lemma StepsOfFind(w: World, base: Path, name: string, more: Path, budget: nat)
    ensures base in w.closed || base in w.files ==> Find(w, base, [name] + more, budget) == Fault
    ensures base !in w.closed && base !in w.files && base + [name] in w.links ==>
      Find(w, base, [name] + more, budget)
      == if budget == 0 then Fault else Find(w, [], w.links[base + [name]] + more, budget - 1)
    ensures base !in w.closed && base !in w.files && base + [name] in w.files && base + [name] !in w.links ==>
      Find(w, base, [name] + more, budget) == if more == [] then There(base + [name]) else Fault
    ensures base !in w.closed && base !in w.files && !Present(w, base + [name]) ==>
      Find(w, base, [name] + more, budget) == Absent
  {
    assert ([name] + more)[0] == name && ([name] + more)[1..] == more;
  }

  /** An error stays an error; what is not there is kept as it stands, after what is. */
  lemma StepsOfResolve(w: World, p: Path, name: string)
    ensures EvalSymlinks(w, p + [name]) == Fault ==> Resolve(w, p + [name]) == None
    ensures EvalSymlinks(w, p + [name]).There? ==> Resolve(w, p + [name]) == Some(EvalSymlinks(w, p + [name]).place)
    ensures EvalSymlinks(w, p + [name]) == Absent && EvalSymlinks(w, p).There? ==>
      Resolve(w, p + [name]) == Some(EvalSymlinks(w, p).place + [name])
  {
    assert (p + [name])[..|p|] == p;
  }

  // ---------------------------------------------------------------- real paths

  /** No link and nothing that stops a search on the way, and something there: the path is where it really is. */
  predicate Real(w: World, p: Path) {
    && (forall i :: 0 < i <= |p| ==> p[..i] !in w.links && (p[..i] in w.files || p[..i] in w.folders))
    && (forall i :: 0 <= i < |p| ==> p[..i] !in w.closed && p[..i] !in w.files)
  }

  lemma RealBeginning(w: World, p: Path, t: Path)
    requires Real(w, p) && t <= p
    ensures Real(w, t)
  {
    forall i | 0 <= i <= |t| ensures t[..i] == p[..i] {
      assert t == p[..|t|];
    }
  }

  lemma RealStep(w: World, base: Path, name: string)
    requires Real(w, base) && base !in w.closed && base !in w.files && base + [name] !in w.links
    requires base + [name] in w.files || base + [name] in w.folders
    ensures Real(w, base + [name])
  {
    var next := base + [name];
    forall i | 0 < i <= |next| ensures next[..i] !in w.links && (next[..i] in w.files || next[..i] in w.folders) {
      if i < |next| { assert next[..i] == base[..i]; } else { assert next[..i] == next; }
    }
    forall i | 0 <= i < |next| ensures next[..i] !in w.closed && next[..i] !in w.files {
      if i < |base| { assert next[..i] == base[..i]; } else { assert next[..i] == base; }
    }
  }

  lemma {:induction false} FoundIsReal(w: World, base: Path, rest: Path, budget: nat)
    requires Real(w, base) && Find(w, base, rest, budget).There?
    ensures Real(w, Find(w, base, rest, budget).place)
    decreases budget, |rest|
  {
    if rest != [] {
      var next := base + [rest[0]];
      if next in w.links {
        FoundIsReal(w, [], w.links[next] + rest[1..], budget - 1);
      } else {
        RealStep(w, base, rest[0]);
        FoundIsReal(w, next, rest[1..], budget);
      }
    }
  }

  lemma {:induction false} RealIsFound(w: World, base: Path, rest: Path, more: Path, budget: nat)
    requires Real(w, base + rest)
    ensures Find(w, base, rest + more, budget) == Find(w, base + rest, more, budget)
    decreases |rest|
  {
    if rest == [] {
      assert base + rest == base && rest + more == more;
    } else {
      var whole := base + rest;
      assert whole[..|base|] == base && whole[..|base| + 1] == base + [rest[0]];
      assert (base + [rest[0]]) + rest[1..] == whole;
      assert (rest + more)[0] == rest[0] && (rest + more)[1..] == rest[1..] + more;
      RealIsFound(w, base + [rest[0]], rest[1..], more, budget);
    }
  }

  /** From the root, a real path is found at itself, and a search goes on from there. */
  lemma RealFromRoot(w: World, p: Path, more: Path, budget: nat)
    requires Real(w, p)
    ensures Find(w, [], p + more, budget) == Find(w, p, more, budget)
    ensures Find(w, [], p, budget) == There(p)
  {
    assert [] + p == p && p + [] == p;
    RealIsFound(w, [], p, more, budget);
    RealIsFound(w, [], p, [], budget);
  }

  // ---------------------------------------------------------- what does not exist

  /** A path that leads nowhere resolves to one that does not either, and resolves to itself. */
  lemma {:induction false} AbsentStays(w: World, p: Path)
    requires EvalSymlinks(w, p) == Absent && Resolve(w, p).Some?
    ensures var r := Resolve(w, p).value; r != [] && EvalSymlinks(w, r) == Absent && Resolve(w, r) == Some(r)
    decreases |p|
  {
    var parent, last := p[..|p| - 1], p[|p| - 1];
    assert p == parent + [last];
    var left := FindInTwo(w, [], parent, [last], MAX_LINKS);
    var above := Resolve(w, parent).value;
    var r := above + [last];
    assert r[..|r| - 1] == above && r[|r| - 1] == last;
    if EvalSymlinks(w, parent).There? {
      FoundIsReal(w, [], parent, MAX_LINKS);
      FindWithMore(w, above, [last], left, MAX_LINKS);
      RealFromRoot(w, above, [last], MAX_LINKS);
    } else {
      AbsentStays(w, parent);
      var rest := FindInTwo(w, [], above, [last], MAX_LINKS);
    }
  }

  /** Resolving twice is resolving once. */
  lemma ResolvedStays(w: World, p: Path)
    requires Resolve(w, p).Some?
    ensures Resolve(w, Resolve(w, p).value) == Resolve(w, p)
  {
    if EvalSymlinks(w, p) == Absent {
      AbsentStays(w, p);
    } else {
      FoundIsReal(w, [], p, MAX_LINKS);
      RealFromRoot(w, Resolve(w, p).value, [], MAX_LINKS);
    }
  }

  /** In a well-formed world what exists is never not found: at worst it is out of reach. */
  lemma {:induction false} FolderIsNotAbsent(w: World, p: Path, k: nat, budget: nat)
    requires WellFormed(w) && IsFolder(w, p) && k <= |p|
    ensures Find(w, p[..k], p[k..], budget) != Absent
    decreases |p| - k
  {
    if k < |p| {
      var next := p[..k] + [p[k..][0]];
      assert next == p[..k + 1] && p[k..][1..] == p[k + 1..];
      if k + 1 < |p| { AboveAreFolders(w, p, p[..k + 1]); } else { assert p[..k + 1] == p; }
      assert next in w.folders && next !in w.links;
      FolderIsNotAbsent(w, p, k + 1, budget);
    }
  }

  /** Nothing is strictly below what a path that leads nowhere resolves to: at most it is a link to nothing itself. */
  lemma NothingBelowAbsent(w: World, p: Path, e: Path)
    requires WellFormed(w) && EvalSymlinks(w, p) == Absent && Resolve(w, p).Some? && Present(w, e)
    ensures !(Resolve(w, p).value < e)
  {
    var r := Resolve(w, p).value;
    AbsentStays(w, p);
    if r < e {
      AboveAreFolders(w, e, r);
      assert r[..0] == [] && r[0..] == r;
      FolderIsNotAbsent(w, r, 0, MAX_LINKS);
    }
  }

  // -------------------------------------------------------------------- entries

  /** Where the last component of a path really is: what removal acts on, without following it. */
  function EntryOf(w: World, p: Path): Option<Path>
    requires p != []
  {
    match Resolve(w, p[..|p| - 1])
    case None => None
    case Some(folder) => Some(folder + [p[|p| - 1]])
  }

  /** A resolvable path has an entry; it is the folder itself unless it is a link. */
  lemma EntryOfResolved(w: World, p: Path)
    requires p != [] && Resolve(w, p).Some?
    ensures EntryOf(w, p).Some?
    ensures EntryOf(w, p).value !in w.links ==> Resolve(w, p) == EntryOf(w, p)
  {
    var parent, last := p[..|p| - 1], p[|p| - 1];
    assert p == parent + [last];
    var left := FindInTwo(w, [], parent, [last], MAX_LINKS);
    assert [last][1..] == [];
  }

  /** The entry of a name in a folder is inside the resolved folder. */
  lemma EntryInFolder(w: World, folder: Path, name: string)
    requires Resolve(w, folder).Some?
    ensures EntryOf(w, folder + [name]) == Some(Resolve(w, folder).value + [name])
  {
    assert (folder + [name])[..|folder|] == folder;
  }

  /** Where the links are the same, a path that is there twice is there at the same place. */
  lemma {:induction false} FindBySameLinks(v: World, w: World, base: Path, rest: Path, budget: nat)
    requires v.links == w.links && Find(v, base, rest, budget).There? && Find(w, base, rest, budget).There?
    ensures Find(v, base, rest, budget) == Find(w, base, rest, budget)
    decreases budget, |rest|
  {
    if rest != [] {
      var next := base + [rest[0]];
      if next in w.links {
        FindBySameLinks(v, w, [], w.links[next] + rest[1..], budget - 1);
      } else {
        FindBySameLinks(v, w, next, rest[1..], budget);
      }
    }
  }

  // -------------------------------------------------------------------- removal

  /** The same world without these entries. */
  function Minus(w: World, gone: set<Path>): World {
    World(w.files - gone, w.folders - gone, w.links - gone, w.closed)
  }

  function Lost(before: World, after: World): set<Path> {
    Entries(before) - Entries(after)
  }

  /** The one is the other without some entries. */
  predicate OnlyLoses(before: World, after: World) {
    after == Minus(before, Lost(before, after))
  }

  lemma MinusLoses(w: World, gone: set<Path>)
    requires gone <= Entries(w)
    ensures OnlyLoses(w, Minus(w, gone)) && Lost(w, Minus(w, gone)) == gone
  {
    assert Entries(Minus(w, gone)) == Entries(w) - gone;
    assert Lost(w, Minus(w, gone)) == gone;
  }

  /** What is gone takes everything below it along. */
  predicate Whole(w: World, gone: set<Path>) {
    forall e, f :: e in gone && f in Entries(w) && e <= f ==> f in gone
  }

  lemma MinusStaysWellFormed(w: World, gone: set<Path>)
    requires WellFormed(w) && Whole(w, gone)
    ensures WellFormed(Minus(w, gone))
  {
    var after := Minus(w, gone);
    forall e | e in Entries(after) ensures e != [] && IsFolder(after, e[..|e| - 1]) {
      assert e in Entries(w) && e !in gone;
      assert e[..|e| - 1] <= e;
    }
  }

  /** The entry and everything below it. */
  function Under(w: World, entry: Path): set<Path> {
    set e | e in Entries(w) && entry <= e
  }

  lemma UnderIsWhole(w: World, entry: Path)
    ensures Under(w, entry) <= Entries(w) && Whole(w, Under(w, entry))
  {
    forall e, f | e in Under(w, entry) && f in Entries(w) && e <= f ensures f in Under(w, entry) {
      assert entry == e[..|entry|] == f[..|entry|];
    }
  }

  // ----------------------------------------------------------- what stays findable

  /** Every entry that finding a path goes through: folders, links, and what is found. */
  function Trail(w: World, base: Path, rest: Path, budget: nat): set<Path>
    decreases budget, |rest|
  {
    if rest == [] then {}
    else
      var next := base + [rest[0]];
      if next in w.links then
        {next} + if budget == 0 then {} else Trail(w, [], w.links[next] + rest[1..], budget - 1)
      else {next} + Trail(w, next, rest[1..], budget)
  }

  /** After a removal a path leads where it did exactly when no entry on its trail has gone, and nowhere otherwise. */
  lemma {:induction false} FoundUnlessLost(before: World, after: World, base: Path, rest: Path, budget: nat)
    requires OnlyLoses(before, after) && Find(before, base, rest, budget).There?
    ensures Find(after, base, rest, budget)
         == if Trail(before, base, rest, budget) !! Lost(before, after) then Find(before, base, rest, budget)
            else Absent
    decreases budget, |rest|
  {
    if rest != [] {
      var next := base + [rest[0]];
      if next in before.links {
        FoundUnlessLost(before, after, [], before.links[next] + rest[1..], budget - 1);
      } else {
        FoundUnlessLost(before, after, next, rest[1..], budget);
      }
    }
  }

  /** What is found is the last entry of its trail, unless the search ends where it began or at the root. */
  lemma {:induction false} FoundIsOnTrail(w: World, base: Path, rest: Path, budget: nat)
    requires Find(w, base, rest, budget).There?
    ensures var q := Find(w, base, rest, budget).place; q == base || q == [] || q in Trail(w, base, rest, budget)
    decreases budget, |rest|
  {
    if rest != [] {
      var next := base + [rest[0]];
      if next in w.links {
        FoundIsOnTrail(w, [], w.links[next] + rest[1..], budget - 1);
      } else {
        FoundIsOnTrail(w, next, rest[1..], budget);
      }
    }
  }

  /** The trail of a real path is its own beginnings. */
  lemma {:induction false} TrailOfReal(w: World, base: Path, rest: Path, budget: nat, e: Path)
    requires Real(w, base + rest) && e in Trail(w, base, rest, budget)
    ensures e <= base + rest && e !in w.links
    decreases |rest|
  {
    var whole, next := base + rest, base + [rest[0]];
    assert whole[..|base| + 1] == next && next + rest[1..] == whole;
    if e != next { TrailOfReal(w, next, rest[1..], budget, e); }
  }

  /** Past a real path the trail goes on from where it ends. */
  lemma {:induction false} TrailGoesOn(w: World, base: Path, rest: Path, more: Path, budget: nat)
    requires Real(w, base + rest)
    ensures Trail(w, base + rest, more, budget) <= Trail(w, base, rest + more, budget)
    decreases |rest|
  {
    if rest == [] {
      assert base + rest == base && rest + more == more;
    } else {
      var whole, next := base + rest, base + [rest[0]];
      assert whole[..|base| + 1] == next && next + rest[1..] == whole;
      assert (rest + more)[0] == rest[0] && (rest + more)[1..] == rest[1..] + more;
      TrailGoesOn(w, next, rest[1..], more, budget);
    }
  }
}
