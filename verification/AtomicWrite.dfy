/**
 Atomic file writes: a temporary file filled, synced and renamed over the file a
 path leads to.  Every call may fail, and the ghost history keeps the disk after
 each call, that is, every state a crash can leave.
 */
module AtomicWrite {
  import opened Wrappers

  datatype Node =
    | Regular(content: string, mode: nat, synced: bool)
    | Link(target: string)
    | Special

  type Names = map<string, Node>

  /** Directory entries, and temporary files, whose names no one else uses. */
  datatype Disk = Disk(names: Names, temps: map<nat, Node>)

  const ENV_MODE: nat := 384
  const COMPOSE_MODE: nat := 420
  /** how many links a path may pass through */
  const MAX_LINKS: nat := 255

  /** Where a path leads, link by link, whether or not anything is there; None when the chain is too long. */
  function Destination(names: Names, path: string, budget: nat): Option<string>
    decreases budget
  {
    if path in names && names[path].Link? then
      if budget == 0 then None else Destination(names, names[path].target, budget - 1)
    else Some(path)
  }

  /** The bytes a reader of the path gets. */
  function Read(names: Names, path: string): Option<string> {
    match Destination(names, path, MAX_LINKS)
    case None => None
    case Some(end) => if end in names && names[end].Regular? then Some(names[end].content) else None
  }

  /** resolveWriteTarget: the file a write must replace; a dangling or endless link and a special file are refused. */
  function WriteTarget(names: Names, path: string): Option<string> {
    if path !in names then Some(path)
    else
      match Destination(names, path, MAX_LINKS)
      case None => None
      case Some(end) => if end in names && names[end].Regular? then Some(end) else None
  }

  /** The path leads, through no more links than allowed, to a name nothing has. */
  predicate LeadsToNothing(names: Names, path: string, budget: nat) {
    Destination(names, path, budget).Some? && Destination(names, path, budget).value !in names
  }

  /** A chain of links ends where its last one leads, if it is not too long. */
  lemma {:induction false} DestinationOfChain(names: Names, chain: seq<string>, budget: nat)
    requires chain != []
    requires forall i :: 0 <= i < |chain| - 1 ==> chain[i] in names && names[chain[i]] == Link(chain[i + 1])
    requires chain[|chain| - 1] in names ==> !names[chain[|chain| - 1]].Link?
    ensures Destination(names, chain[0], budget) == if |chain| - 1 <= budget then Some(chain[|chain| - 1]) else None
    decreases |chain|
  {
    assert |chain| > 1 ==> names[chain[0]] == Link(chain[1]);
    if |chain| > 1 && budget > 0 { DestinationOfChain(names, chain[1..], budget - 1); }
  }

  /** A path can be read exactly when it leads to a regular file, and written also when nothing is there. */
  lemma WritableExactly(names: Names, path: string)
    ensures WriteTarget(names, path).Some? <==> path !in names || Read(names, path).Some?
    ensures WriteTarget(names, path).Some? ==> Destination(names, path, MAX_LINKS) == WriteTarget(names, path)
    ensures Read(names, path).Some? <==>
      exists end :: end in names && names[end].Regular? && Destination(names, path, MAX_LINKS) == Some(end)
  {
  }

  /** Replacing a file, or creating one, redirects no path. */
  lemma {:induction false} SameDestinations(names: Names, end: string, node: Node, path: string, budget: nat)
    requires !node.Link? && (end in names ==> !names[end].Link?)
    ensures Destination(names[end := node], path, budget) == Destination(names, path, budget)
    decreases budget
  {
    if path in names && names[path].Link? && budget > 0 {
      SameDestinations(names, end, node, names[path].target, budget - 1);
    }
  }

  lemma {:induction false} SameDestinationsWithout(names: Names, end: string, path: string, budget: nat)
    requires end in names ==> !names[end].Link?
    ensures Destination(names - {end}, path, budget) == Destination(names, path, budget)
    decreases budget
  {
    if path in names && names[path].Link? && budget > 0 {
      SameDestinationsWithout(names, end, names[path].target, budget - 1);
    }
  }

  /** The paths do not lead to the same file. */
  predicate Apart(names: Names, a: string, b: string) {
    Destination(names, a, MAX_LINKS) != Destination(names, b, MAX_LINKS)
  }

  /** Writing through one path is seen through it and not through the other. */
  lemma WriteIsSeen(names: Names, path: string, other: string, node: Node)
    requires node.Regular? && WriteTarget(names, path).Some? && Apart(names, path, other)
    ensures var after := names[WriteTarget(names, path).value := node];
            && Read(after, path) == Some(node.content) && Read(after, other) == Read(names, other)
            && Apart(after, path, other) && WriteTarget(after, path) == WriteTarget(names, path)
  {
    var end := WriteTarget(names, path).value;
    SameDestinations(names, end, node, path, MAX_LINKS);
    SameDestinations(names, end, node, other, MAX_LINKS);
  }

  /** Removing the file a path names directly makes it absent and leaves the other. */
  lemma RemoveIsSeen(names: Names, path: string, other: string)
    requires (path in names ==> !names[path].Link?) && Apart(names, path, other)
    ensures Read(names - {path}, path) == None && Read(names - {path}, other) == Read(names, other)
    ensures Apart(names - {path}, path, other)
  {
    SameDestinationsWithout(names, path, path, MAX_LINKS);
    SameDestinationsWithout(names, path, other, MAX_LINKS);
  }

  predicate HoldsAtMode(n: Node, mode: nat) {
    n.Regular? && (n.content != "" ==> n.mode == mode)
  }

  datatype Snapshot = Contents(content: string) | Missing | Unreadable

  class FileSystem {
    var names: Names
    var temps: map<nat, Node>
    /** the disk after every call so far */
    ghost var history: seq<Disk>
    /** how many calls have failed so far, but for the removals whose failure nobody sees */
    ghost var refused: nat
    /** how many temporary files could not be removed */
    ghost var strays: nat

    constructor (names: Names)
      ensures this.names == names && temps == map[] && history == [] && refused == 0 && strays == 0
    {
      this.names, temps, history, refused, strays := names, map[], [], 0, 0;
    }

    function State(): Disk
      reads this
    {
      Disk(names, temps)
    }

    /** Every state since the first n shows one of these two sets of names. */
    ghost predicate Passed(n: nat, before: Names, after: Names)
      reads this
    {
      forall i :: n <= i < |history| ==> history[i].names == before || history[i].names == after
    }

    /** Since the first n states, whatever a new temporary file held it held at this mode. */
    ghost predicate Private(n: nat, known: set<nat>, mode: nat)
      reads this
    {
      forall i, serial :: n <= i < |history| && serial in history[i].temps && serial !in known ==>
        HoldsAtMode(history[i].temps[serial], mode)
    }

    // ------------------------------------------------------------- system calls

    method CreateTemp() returns (serial: Option<nat>)
      modifies this
      ensures strays == old(strays)
      ensures names == old(names) && history == old(history) + [State()]
      ensures refused == old(refused) + if serial.None? then 1 else 0
      ensures serial.None? ==> temps == old(temps)
      ensures serial.Some? ==>
          serial.value !in old(temps) && temps == old(temps)[serial.value := Regular("", ENV_MODE, false)]
    {
      if * {
        history, refused := history + [State()], refused + 1;
        return None;
      }
      var n := UnusedSerial(temps);
      temps := temps[n := Regular("", ENV_MODE, false)];
      history := history + [State()];
      return Some(n);
    }

    method Close() returns (ok: bool)
      modifies this`history, this`refused
      ensures history == old(history) + [State()] && refused == old(refused) + if ok then 0 else 1
    {
      ok := *;
      if !ok { refused := refused + 1; }
      history := history + [State()];
    }

    /** Chmod, Write and Sync on the temporary file: what it becomes, or a failure that may leave it half done. */
    method Change(serial: nat, to: Node) returns (ok: bool)
      requires serial in temps && temps[serial].Regular? && to.Regular?
      modifies this
      ensures strays == old(strays)
      ensures names == old(names) && history == old(history) + [State()]
      ensures refused == old(refused) + if ok then 0 else 1
      ensures temps.Keys == old(temps).Keys && temps[serial].Regular?
      ensures ok ==> temps == old(temps)[serial := to]
      ensures temps == old(temps)[serial := temps[serial]]
      ensures !ok ==> temps[serial].mode == old(temps)[serial].mode && temps[serial].content <= to.content
    {
      ok := *;
      if ok {
        temps := temps[serial := to];
      } else {
        var written: int := *;
        if 0 <= written <= |to.content| {
          temps := temps[serial := Regular(to.content[..written], temps[serial].mode, false)];
        } else {
          temps := temps[serial := Regular("", temps[serial].mode, false)];
        }
        refused := refused + 1;
      }
      history := history + [State()];
    }

    method Rename(serial: nat, path: string) returns (ok: bool)
      requires serial in temps
      modifies this
      ensures strays == old(strays)
      ensures history == old(history) + [State()] && refused == old(refused) + if ok then 0 else 1
      ensures ok ==> names == old(names)[path := old(temps)[serial]] && temps == old(temps) - {serial}
      ensures !ok ==> names == old(names) && temps == old(temps)
    {
      ok := *;
      if ok { names, temps := names[path := temps[serial]], temps - {serial}; } else { refused := refused + 1; }
      history := history + [State()];
    }

    /** The deferred os.Remove of the temporary file: its error is ignored. */
    method RemoveTemp(serial: nat)
      modifies this
      ensures names == old(names) && history == old(history) + [State()] && refused == old(refused)
      ensures old(strays) <= strays
      ensures temps == if strays == old(strays) then old(temps) - {serial} else old(temps)
    {
      if * { temps := temps - {serial}; } else { strays := strays + 1; }
      history := history + [State()];
    }

    method Remove(path: string)
      modifies this
      ensures strays == old(strays)
      ensures temps == old(temps) && history == old(history) + [State()] && old(refused) <= refused
      ensures names == if refused == old(refused) then old(names) - {path} else old(names)
    {
      if * { names := names - {path}; } else { refused := refused + 1; }
      history := history + [State()];
    }

    /** os.ReadFile; a link that leads to nothing is missing, a loop or a special file an error. */
    method ReadFile(path: string) returns (r: Snapshot)
      modifies this`refused
      ensures refused == old(refused) || (refused == old(refused) + 1 && r == Unreadable)
      ensures refused == old(refused) ==>
        && (r.Contents? <==> Read(names, path).Some?) && (r.Contents? ==> Read(names, path) == Some(r.content))
        && (r.Missing? <==> LeadsToNothing(names, path, MAX_LINKS))
    {
      if * {
        refused := refused + 1;
        return Unreadable;
      }
      match Destination(names, path, MAX_LINKS) {
        case None => return Unreadable;
        case Some(end) =>
          if end !in names { return Missing; }
          return if names[end].Regular? then Contents(names[end].content) else Unreadable;
      }
    }

    /** os.Lstat: whether there is an entry, of whatever kind; None is an error. */
    method Lstat(path: string) returns (there: Option<bool>)
      modifies this`refused
      ensures refused == old(refused) + if there.None? then 1 else 0
      ensures there.Some? ==> there.value == (path in names)
    {
      if * {
        refused := refused + 1;
        return None;
      }
      return Some(path in names);
    }

    // ------------------------------------------------------------- atomic writes

    /** resolveWriteTarget, whose own calls may fail. */
    method ResolveWriteTarget(path: string) returns (target: string, ok: bool)
      modifies this`refused
      ensures ok ==> WriteTarget(names, path).Some? && refused == old(refused)
      ensures !ok ==> WriteTarget(names, path) == None || refused == old(refused) + 1
      ensures old(refused) <= refused <= old(refused) + 1
      ensures ok ==> WriteTarget(names, path) == Some(target)
    {
      if * {
        refused := refused + 1;
        return path, false;
      }
      match WriteTarget(names, path) {
        case None => return path, false;
        case Some(end) => return end, true;
      }
    }

    /** One change of the new temporary file that never shows content at another mode than the final one. */
    method ChangePrivately(serial: nat, to: Node, mode: nat, ghost n: nat, ghost known: set<nat>) returns (ok: bool)
      requires serial !in known && temps.Keys == known + {serial}
      requires to.Regular? && to.mode == mode && HoldsAtMode(temps[serial], mode)
      requires to.content == "" || temps[serial].mode == mode
      requires n <= |history| && Passed(n, names, names) && Private(n, known, mode)
      modifies this
      ensures strays == old(strays)
      ensures names == old(names) && temps.Keys == old(temps).Keys
      ensures |history| == |old(history)| + 1 && history[..|old(history)|] == old(history)
      ensures Passed(n, names, names) && Private(n, known, mode)
      ensures refused == old(refused) + if ok then 0 else 1
      ensures HoldsAtMode(temps[serial], mode) && (ok ==> temps[serial] == to)
    {
      ok := Change(serial, to);
    }

    method Fill(serial: nat, content: string, mode: nat, ghost known: set<nat>) returns (ok: bool)
      requires serial in temps && temps[serial] == Regular("", ENV_MODE, false)
      requires serial !in known && temps.Keys == known + {serial}
      modifies this
      ensures strays == old(strays)
      ensures names == old(names) && temps.Keys == old(temps).Keys
      ensures |old(history)| <= |history| && history[..|old(history)|] == old(history)
      ensures Passed(|old(history)|, names, names) && Private(|old(history)|, known, mode)
      ensures HoldsAtMode(temps[serial], mode)
      ensures refused == old(refused) + if ok then 0 else 1
      ensures ok ==> temps[serial] == Regular(content, mode, true)
    {
      ghost var n := |history|;
      ok := ChangePrivately(serial, Regular("", mode, false), mode, n, known);
      if !ok { return; }
      ok := ChangePrivately(serial, Regular(content, mode, false), mode, n, known);
      if !ok { return; }
      ok := ChangePrivately(serial, temps[serial].(synced := true), mode, n, known);
      if !ok { return; }
      ok := Close();
    }

    method CreateFilled(content: string, mode: nat) returns (serial: Option<nat>, ok: bool)
      modifies this
      ensures strays == old(strays)
      ensures names == old(names)
      ensures |old(history)| <= |history| && history[..|old(history)|] == old(history)
      ensures Passed(|old(history)|, names, names) && Private(|old(history)|, old(temps).Keys, mode)
      ensures serial.None? ==> temps == old(temps)
      ensures serial.Some? ==> serial.value !in old(temps) && serial.value in temps
      ensures serial.Some? ==> HoldsAtMode(temps[serial.value], mode)
      ensures serial.Some? ==> temps.Keys == old(temps).Keys + {serial.value}
      ensures refused == old(refused) + if ok then 0 else 1
      ensures ok ==> serial.Some? && temps[serial.value] == Regular(content, mode, true)
    {
      ok := false;
      serial := CreateTemp();
      if serial.Some? { ok := Fill(serial.value, content, mode, old(temps).Keys); }
    }

    /** At every moment the whole new file is in place, synced and at its mode, or nothing has changed. */
    method RenameIntoPlace(path: string, content: string, mode: nat) returns (ok: bool)
      modifies this
      ensures names == if ok then old(names)[path := Regular(content, mode, true)] else old(names)
      ensures refused == old(refused) + if ok then 0 else 1
      ensures old(strays) <= strays && (strays == old(strays) ==> temps.Keys == old(temps).Keys)
      ensures |old(history)| <= |history| && history[..|old(history)|] == old(history)
      ensures Passed(|old(history)|, old(names), names) && Private(|old(history)|, old(temps).Keys, mode)
    {
      var serial;
      serial, ok := CreateFilled(content, mode);
      if serial.None? { return false; }
      if ok { ok := Rename(serial.value, path); }
      if !ok { RemoveTemp(serial.value); }
    }

    /** Fails exactly when a call is refused or the path leads to nothing that may be written. */
    method WriteFileAtomic(path: string, content: string, mode: nat) returns (ok: bool)
      modifies this
      ensures ok ==> WriteTarget(old(names), path).Some? && refused == old(refused)
      ensures !ok ==> WriteTarget(old(names), path) == None || refused == old(refused) + 1
      ensures old(refused) <= refused <= old(refused) + 1
      ensures ok ==> names == old(names)[WriteTarget(old(names), path).value := Regular(content, mode, true)]
      ensures !ok ==> names == old(names)
      ensures |old(history)| <= |history| && history[..|old(history)|] == old(history)
      ensures Passed(|old(history)|, old(names), names) && Private(|old(history)|, old(temps).Keys, mode)
    {
      var target;
      target, ok := ResolveWriteTarget(path);
      if ok { ok := RenameIntoPlace(target, content, mode); }
    }

    /** An existing compose file keeps its mode, and must be writable. */
    method WriteComposeFileAtomic(path: string, content: string) returns (ok: bool)
      modifies this
      ensures ok ==> WriteTarget(old(names), path).Some? && refused == old(refused)
      ensures !ok ==> WriteTarget(old(names), path) == None || refused == old(refused) + 1
      ensures old(refused) <= refused <= old(refused) + 1
      ensures ok ==> var target := WriteTarget(old(names), path).value;
                     && names == old(names)[target := Regular(content, ComposeMode(old(names), target), true)]
                     && names[target].mode == if target in old(names) then old(names)[target].mode else COMPOSE_MODE
      ensures !ok ==> names == old(names)
      ensures |old(history)| <= |history| && history[..|old(history)|] == old(history)
      ensures Passed(|old(history)|, old(names), names)
    {
      var target;
      target, ok := ResolveWriteTarget(path);
      if !ok { return; }
      if target in names {
        if * {
          refused := refused + 1;
          return false;
        }
      }
      ok := RenameIntoPlace(target, content, ComposeMode(names, target));
    }
  }

  function ComposeMode(names: Names, target: string): nat {
    if target in names && names[target].Regular? then names[target].mode else COMPOSE_MODE
  }

  method UnusedSerial(temps: map<nat, Node>) returns (n: nat)
    ensures n !in temps
  {
    n := 0;
    ghost var seen: set<nat> := {};
    while n in temps
      invariant seen <= temps.Keys && forall m :: m in seen ==> m < n
      decreases temps.Keys - seen
    {
      seen := seen + {n};
      n := n + 1;
    }
  }
}
