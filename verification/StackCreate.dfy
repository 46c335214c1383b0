/**
 Any number of creates, interleaved with each other and with the scanner: the
 operation lock is taken before the existence check and held to the end.
 */
module StackCreate {
  /** A folder's compose file: none, one that was there before any request, or the one this request brought. */
  datatype Compose = Missing | Earlier | Of(p: nat)

  /** Where a request has got to; `blind` when its existence check failed on a folder that was there. */
  datatype Progress =
    | Waiting
    | Locked
    | Checked(blind: bool)
    | FolderMade(blind: bool)
    | Written
    /** the folder's row: inserted by this request or already there; and the stack rows at that moment */
    | Registered(inserted: bool, rowsThen: set<string>)
    | RowWritten
    | Created
    /** the scan failed after everything was written: an error answer, nothing undone */
    | Unscanned
    | Refused
    | Failed

  datatype State = State(
    progress: nat -> Progress,
    /** which request holds each stack id's operation lock */
    lock: map<string, nat>,
    /** stack folders on disk, by the id they determine */
    folders: map<string, Compose>,
    /** directories rows, by the same id */
    folderRows: set<string>,
    /** stacks rows */
    stackRows: set<string>)

  /** The stack id that each request's folder determines, and each stack id's folder, by the id it determines. */
  datatype Setting = Setting(idOf: nat -> string, folderOf: string -> string)

  ghost predicate ValidSetting(w: Setting) {
    forall p :: w.folderOf(w.idOf(p)) == w.idOf(p)
  }

  /** What os.RemoveAll, whose error nobody reads, leaves of a folder. */
  datatype Sweep = Gone | ComposeGone | Untouched

  datatype Event =
    /**
     The request's next action, which succeeds or fails; after a failure the
     rollback deletes the folder's row or fails to, and sweeps the folder.
     */
    | Act(p: nat, ok: bool, unregisters: bool, sweep: Sweep)
    /** the scanner registers a folder, or a stack in a registered folder */
    | ScanFolder(folder: string)
    | ScanStack(id: string)

  function Move(s: State, p: nat, to: Progress): State {
    s.(progress := (q: nat) => if q == p then to else s.progress(q))
  }

  /** The handler returns: the deferred release. */
  function Finish(s: State, p: nat, id: string, to: Progress): State {
    Move(s, p, to).(lock := s.lock - {id})
  }

  function SweepFolder(s: State, id: string, sweep: Sweep): State {
    match sweep
    case Gone => s.(folders := s.folders - {id})
    case ComposeGone => if id in s.folders then s.(folders := s.folders[id := Missing]) else s
    case Untouched => s
  }

  /** UnregisterDirectory: the row, and by cascade every stack row in that folder. */
  function Unregister(s: State, w: Setting, folder: string): State {
    s.(folderRows := s.folderRows - {folder}, stackRows := set k | k in s.stackRows && w.folderOf(k) != folder)
  }

  function ActOn(s: State, w: Setting, e: Event): State
    requires e.Act?
  {
    var p, id := e.p, w.idOf(e.p);
    match s.progress(p)
    case Waiting =>
      if id in s.lock then Move(s, p, Refused) else Move(s, p, Locked).(lock := s.lock[id := p])
    case Locked =>
      // any error of the stat, not only "does not exist", reads as "not there"
      if e.ok && id in s.folders then Finish(s, p, id, Refused) else Move(s, p, Checked(id in s.folders))
    case Checked(blind) =>
      // MkdirAll is content with a folder that is there
      if !e.ok then Finish(s, p, id, Failed)
      else Move(s, p, FolderMade(blind)).(folders := if id in s.folders then s.folders else s.folders[id := Missing])
    case FolderMade(_) =>
      if e.ok then Move(s, p, Written).(folders := s.folders[id := Of(p)])
      else Finish(SweepFolder(s, id, e.sweep), p, id, Failed)
    case Written =>
      // the env file, and then the folder's row
      if e.ok then Move(s, p, Registered(id !in s.folderRows, s.stackRows)).(folderRows := s.folderRows + {id})
      else Finish(SweepFolder(s, id, e.sweep), p, id, Failed)
    case Registered(inserted, _) =>
      // without the folder's row the foreign key refuses the stack's
      if e.ok && id in s.folderRows then Move(s, p, RowWritten).(stackRows := s.stackRows + {id})
      else
        var undone := if inserted && e.unregisters then Unregister(s, w, id) else s;
        Finish(SweepFolder(undone, id, e.sweep), p, id, Failed)
    case RowWritten => Finish(s, p, id, if e.ok then Created else Unscanned)
    case _ => s
  }

  function Next(s: State, w: Setting, e: Event): State {
    match e
    case Act(_, _, _, _) => ActOn(s, w, e)
    case ScanFolder(folder) => s.(folderRows := s.folderRows + {folder})
    case ScanStack(id) => if w.folderOf(id) in s.folderRows then s.(stackRows := s.stackRows + {id}) else s
  }

  function Run(s: State, w: Setting, events: seq<Event>): State {
    if events == [] then s
    else Next(Run(s, w, events[..|events| - 1]), w, events[|events| - 1])
  }

  /** The foreign key. */
  predicate RowsHaveFolders(s: State, w: Setting) {
    forall k :: k in s.stackRows ==> w.folderOf(k) in s.folderRows
  }

  /** Nothing running yet; disk and tables as earlier stacks left them. */
  ghost predicate Quiet(s: State, w: Setting) {
    ValidSetting(w) && s.lock == map[] && RowsHaveFolders(s, w) && forall p :: s.progress(p) == Waiting
  }

  predicate InFlight(g: Progress) {
    g.Locked? || g.Checked? || g.FolderMade? || HasWritten(g)
  }

  /** The compose file is written and the request still under way. */
  predicate HasWritten(g: Progress) {
    g.Written? || g.Registered? || g.RowWritten?
  }

  /** The folder holds the compose file this request brought. */
  predicate Holds(s: State, w: Setting, p: nat) {
    var id := w.idOf(p);
    id in s.folders && s.folders[id] == Of(p)
  }

  /** What a request under way has seen and done still stands. */
  predicate Stands(s: State, w: Setting, p: nat) {
    var g, id := s.progress(p), w.idOf(p);
    && (InFlight(g) ==> id in s.lock && s.lock[id] == p)
    && (g == Checked(false) ==> id !in s.folders)
    && (g.FolderMade? ==> id in s.folders)
    && (g == FolderMade(false) ==> s.folders[id] == Missing)
    && (HasWritten(g) ==> Holds(s, w, p))
  }

  predicate LockStands(s: State, w: Setting, id: string)
    requires id in s.lock
  {
    InFlight(s.progress(s.lock[id])) && w.idOf(s.lock[id]) == id
  }

  ghost predicate Inv(s: State, w: Setting) {
    && ValidSetting(w)
    && (forall p :: Stands(s, w, p))
    && (forall id :: id in s.lock ==> LockStands(s, w, id))
    && RowsHaveFolders(s, w)
  }

  /** A request leaves every other id's folder and lock alone. */
  lemma OtherFoldersUntouched(s: State, w: Setting, e: Event, id: string)
    requires e.Act? && id != w.idOf(e.p)
    ensures id in ActOn(s, w, e).folders <==> id in s.folders
    ensures id in s.folders ==> ActOn(s, w, e).folders[id] == s.folders[id]
  {
  }

  lemma OtherLocksUntouched(s: State, w: Setting, e: Event, id: string)
    requires e.Act? && id != w.idOf(e.p)
    ensures id in ActOn(s, w, e).lock <==> id in s.lock
    ensures id in s.lock ==> ActOn(s, w, e).lock[id] == s.lock[id]
  {
  }

  lemma OtherIdsUntouched(s: State, w: Setting, e: Event, id: string)
    requires e.Act? && id != w.idOf(e.p)
    ensures id in Next(s, w, e).folders <==> id in s.folders
    ensures id in s.folders ==> Next(s, w, e).folders[id] == s.folders[id]
    ensures id in Next(s, w, e).lock <==> id in s.lock
    ensures id in s.lock ==> Next(s, w, e).lock[id] == s.lock[id]
  {
    OtherFoldersUntouched(s, w, e, id);
    OtherLocksUntouched(s, w, e, id);
  }

  lemma OthersDoNotMove(s: State, w: Setting, e: Event, q: nat)
    requires e.Act? ==> q != e.p
    ensures Next(s, w, e).progress(q) == s.progress(q)
  {
  }

  /** Of two requests for one id at most one is under way. */
  lemma OneInFlight(s: State, w: Setting, p: nat, q: nat)
    requires Stands(s, w, p) && Stands(s, w, q) && p != q && w.idOf(p) == w.idOf(q)
    ensures !(InFlight(s.progress(p)) && InFlight(s.progress(q)))
  {
  }

  lemma ActKeepsOwn(s: State, w: Setting, e: Event)
    requires e.Act? && Stands(s, w, e.p)
    ensures Stands(Next(s, w, e), w, e.p)
  {
  }

  lemma ActKeepsOthers(s: State, w: Setting, e: Event, q: nat)
    requires Inv(s, w) && e.Act? && q != e.p
    ensures Stands(Next(s, w, e), w, q)
  {
    assert Stands(s, w, e.p) && Stands(s, w, q);
    OthersDoNotMove(s, w, e, q);
    if w.idOf(q) != w.idOf(e.p) {
      OtherIdsUntouched(s, w, e, w.idOf(q));
    } else {
      OneInFlight(s, w, e.p, q);
    }
  }

  lemma ActKeepsLocks(s: State, w: Setting, e: Event, id: string)
    requires Inv(s, w) && e.Act? && id in Next(s, w, e).lock
    ensures LockStands(Next(s, w, e), w, id)
  {
    assert Stands(s, w, e.p);
    if id != w.idOf(e.p) {
      OtherIdsUntouched(s, w, e, id);
      assert LockStands(s, w, id);
    }
  }

  lemma ActKeepsRows(s: State, w: Setting, e: Event)
    requires e.Act? && ValidSetting(w) && RowsHaveFolders(s, w)
    ensures RowsHaveFolders(Next(s, w, e), w)
  {
    assert w.folderOf(w.idOf(e.p)) == w.idOf(e.p);
  }

  lemma StepKeepsInv(s: State, w: Setting, e: Event)
    requires Inv(s, w)
    ensures Inv(Next(s, w, e), w)
  {
    var after := Next(s, w, e);
    forall q ensures Stands(after, w, q) {
      assert Stands(s, w, q);
      if e.Act? {
        if q == e.p { ActKeepsOwn(s, w, e); } else { ActKeepsOthers(s, w, e, q); }
      }
    }
    forall id | id in after.lock ensures LockStands(after, w, id) {
      if e.Act? { ActKeepsLocks(s, w, e, id); } else { assert LockStands(s, w, id); }
    }
    if e.Act? { ActKeepsRows(s, w, e); }
  }

  lemma {:induction false} RunKeepsInv(s: State, w: Setting, events: seq<Event>)
    requires Inv(s, w)
    ensures Inv(Run(s, w, events), w)
    decreases |events|
  {
    if events != [] {
      RunKeepsInv(s, w, events[..|events| - 1]);
      StepKeepsInv(Run(s, w, events[..|events| - 1]), w, events[|events| - 1]);
    }
  }

  // ----------------------------------------------------------------- compose files

  /**
   A create whose existence check failed on a folder that was there reaches its
   compose write: the file is replaced, or the write fails and the sweep takes it.
   */
  predicate BlindWrite(s: State, w: Setting, e: Event, id: string) {
    && e.Act? && w.idOf(e.p) == id && s.progress(e.p) == FolderMade(true)
    && (e.ok || e.sweep != Untouched)
  }

  predicate AnyBlindWrite(s: State, w: Setting, events: seq<Event>, id: string) {
    && events != []
    && (AnyBlindWrite(s, w, events[..|events| - 1], id)
        || BlindWrite(Run(s, w, events[..|events| - 1]), w, events[|events| - 1], id))
  }

  /** A request past its compose write. */
  predicate Past(g: Progress) {
    g.RowWritten? || g.Created? || g.Unscanned?
  }

  lemma StepKeepsFileUnlessBlind(s: State, w: Setting, e: Event, p: nat)
    requires Inv(s, w) && Past(s.progress(p))
    ensures Past(Next(s, w, e).progress(p))
    ensures Holds(Next(s, w, e), w, p) <==> Holds(s, w, p) && !BlindWrite(s, w, e, w.idOf(p))
  {
    assert Stands(s, w, p);
    if e.Act? && e.p != p {
      assert Stands(s, w, e.p);
      OthersDoNotMove(s, w, e, p);
      if w.idOf(e.p) != w.idOf(p) { OtherIdsUntouched(s, w, e, w.idOf(p)); }
    }
  }

  lemma {:induction false} RunKeepsFileUnlessBlind(s: State, w: Setting, events: seq<Event>, p: nat)
    requires Inv(s, w) && Past(s.progress(p)) && Holds(s, w, p)
    ensures Past(Run(s, w, events).progress(p))
    ensures Holds(Run(s, w, events), w, p) <==> !AnyBlindWrite(s, w, events, w.idOf(p))
    decreases |events|
  {
    if events != [] {
      var front := events[..|events| - 1];
      RunKeepsFileUnlessBlind(s, w, front, p);
      RunKeepsInv(s, w, front);
      StepKeepsFileUnlessBlind(Run(s, w, front), w, events[|events| - 1], p);
    }
  }

  /**
   In every interleaving, a create that has written its row has its own compose
   file on disk; and from then on it keeps it, through any further run, exactly
   as long as no other create of that stack goes on to its compose write after
   its existence check failed on the folder that was there.
   */
  lemma CreatedKeepsItsFile(s: State, w: Setting, events: seq<Event>, further: seq<Event>, p: nat)
    requires Quiet(s, w) && Run(s, w, events).progress(p).RowWritten?
    ensures var mid := Run(s, w, events);
            && Holds(mid, w, p) && Past(Run(mid, w, further).progress(p))
            && (Holds(Run(mid, w, further), w, p) <==> !AnyBlindWrite(mid, w, further, w.idOf(p)))
  {
    RunKeepsInv(s, w, events);
    assert Stands(Run(s, w, events), w, p);
    RunKeepsFileUnlessBlind(Run(s, w, events), w, further, p);
  }

  /** No existence check has failed on a folder that was there. */
  predicate ChecksAnswer(s: State, w: Setting, events: seq<Event>) {
    events == []
    || (var front, e := events[..|events| - 1], events[|events| - 1];
        ChecksAnswer(s, w, front)
        && !(e.Act? && !e.ok && Run(s, w, front).progress(e.p) == Locked && w.idOf(e.p) in Run(s, w, front).folders))
  }

  predicate IsBlind(g: Progress) {
    g == Checked(true) || g == FolderMade(true)
  }

  lemma {:induction false} NobodyIsBlind(s: State, w: Setting, events: seq<Event>, p: nat)
    requires Quiet(s, w) && ChecksAnswer(s, w, events)
    ensures !IsBlind(Run(s, w, events).progress(p))
    decreases |events|
  {
    if events != [] {
      var front, e := events[..|events| - 1], events[|events| - 1];
      NobodyIsBlind(s, w, front, p);
      if !e.Act? || e.p != p { OthersDoNotMove(Run(s, w, front), w, e, p); }
    }
  }

  /** While every existence check has an answer, a second create of an existing folder is refused and writes nothing. */
  lemma ExistingFolderIsRefused(s: State, w: Setting, events: seq<Event>, e: Event)
    requires Quiet(s, w) && ChecksAnswer(s, w, events + [e]) && e.Act?
    requires Run(s, w, events).progress(e.p) == Locked && w.idOf(e.p) in Run(s, w, events).folders
    ensures var now := Run(s, w, events);
            Next(now, w, e).progress(e.p) == Refused && Next(now, w, e).folders == now.folders
  {
    assert (events + [e])[..|events|] == events;
  }

  /** A create that fails after making the folder, with a rollback that gets through, leaves nothing of it behind. */
  lemma FailedCreateLeavesNothing(s: State, w: Setting, e: Event)
    requires Inv(s, w) && e.Act? && (s.progress(e.p).FolderMade? || HasWritten(s.progress(e.p)))
    requires Next(s, w, e).progress(e.p) == Failed && e.sweep == Gone && e.unregisters
    ensures var id, after := w.idOf(e.p), Next(s, w, e);
            && id !in after.folders && id !in after.lock
            && (s.progress(e.p).Registered? && s.progress(e.p).inserted ==>
                  id !in after.folderRows && forall k :: k in after.stackRows ==> w.folderOf(k) != id)
            && (!(s.progress(e.p).Registered? && s.progress(e.p).inserted) ==>
                  after.folderRows == s.folderRows && after.stackRows == s.stackRows)
  {
    assert Stands(s, w, e.p);
  }

  // ------------------------------------------------------------------------ rows

  /** When the request inserted its folder's row, no stack row was in that folder. */
  ghost predicate Accounted(s: State, w: Setting, p: nat) {
    s.progress(p).Registered? && s.progress(p).inserted ==>
      forall k :: k in s.progress(p).rowsThen ==> w.folderOf(k) != w.idOf(p)
  }

  lemma StepKeepsAccounted(s: State, w: Setting, e: Event, p: nat)
    requires Inv(s, w) && Accounted(s, w, p)
    ensures Accounted(Next(s, w, e), w, p)
  {
    if !e.Act? || e.p != p { OthersDoNotMove(s, w, e, p); }
  }

  lemma {:induction false} RunKeepsAccounted(s: State, w: Setting, events: seq<Event>, p: nat)
    requires Quiet(s, w)
    ensures Accounted(Run(s, w, events), w, p)
    decreases |events|
  {
    if events != [] {
      var front := events[..|events| - 1];
      RunKeepsAccounted(s, w, front, p);
      RunKeepsInv(s, w, front);
      StepKeepsAccounted(Run(s, w, front), w, events[|events| - 1], p);
    }
  }

  /** A failing create deletes the folder row that it inserted itself. */
  predicate UndoesInsert(s: State, w: Setting, e: Event) {
    && e.Act? && s.progress(e.p).Registered? && s.progress(e.p).inserted && e.unregisters
    && (!e.ok || w.idOf(e.p) !in s.folderRows)
  }

  /**
   In every interleaving, a stack row is lost exactly when a failing create
   undoes a folder row that it inserted itself and the stack is in that folder;
   and then its row came after that insert: no stack registered before goes.
   */
  lemma OnlyOwnInsertIsUndone(s: State, w: Setting, events: seq<Event>, e: Event, k: string)
    requires Quiet(s, w) && k in Run(s, w, events).stackRows
    ensures var now := Run(s, w, events);
            && (k !in Next(now, w, e).stackRows <==> UndoesInsert(now, w, e) && w.folderOf(k) == w.idOf(e.p))
            && (k !in Next(now, w, e).stackRows ==> k !in now.progress(e.p).rowsThen)
  {
    if e.Act? { RunKeepsAccounted(s, w, events, e.p); }
  }

  // --------------------------------------------------------------------- witnesses

  function Good(p: nat): Event { Act(p, true, true, Gone) }
  function Bad(p: nat): Event { Act(p, false, true, Gone) }

  function Times(e: Event, n: nat): seq<Event> {
    if n == 0 then [] else Times(e, n - 1) + [e]
  }

  lemma OneMore(s: State, w: Setting, events: seq<Event>, e: Event)
    ensures Run(s, w, events + [e]) == Next(Run(s, w, events), w, e)
  {
    assert (events + [e])[..|events|] == events;
  }

  /** Every request creates the same stack, on a host where nothing has happened. */
  function OneStack(id: string): Setting { Setting((p: nat) => id, (k: string) => id) }
  function Nothing(): State { State((p: nat) => Waiting, map[], map[], {}, {}) }

  lemma FirstWrites(id: string)
    ensures var s := Run(Nothing(), OneStack(id), Times(Good(0), 4));
            && s.progress(0) == Written && s.folders == map[id := Of(0)] && s.folderRows == {} && s.stackRows == {}
            && s.lock == map[id := 0] && s.progress(1) == Waiting
  {
    var s, w := Nothing(), OneStack(id);
    OneMore(s, w, [], Good(0));
    OneMore(s, w, Times(Good(0), 1), Good(0));
    OneMore(s, w, Times(Good(0), 2), Good(0));
    OneMore(s, w, Times(Good(0), 3), Good(0));
  }

  lemma FirstRegisters(id: string)
    ensures var s := Run(Nothing(), OneStack(id), Times(Good(0), 5));
            && s.progress(0) == Registered(true, {}) && s.folders == map[id := Of(0)] && s.folderRows == {id}
            && s.stackRows == {} && s.lock == map[id := 0] && s.progress(1) == Waiting
  {
    hide Run;
    FirstWrites(id);
    OneMore(Nothing(), OneStack(id), Times(Good(0), 4), Good(0));
  }

  lemma FirstWritesRow(id: string)
    ensures var s := Run(Nothing(), OneStack(id), Times(Good(0), 6));
            && s.progress(0) == RowWritten && s.folders == map[id := Of(0)] && s.lock == map[id := 0]
            && s.progress(1) == Waiting
  {
    hide Run;
    FirstRegisters(id);
    OneMore(Nothing(), OneStack(id), Times(Good(0), 5), Good(0));
  }

  lemma FirstCreates(id: string)
    ensures var s := Run(Nothing(), OneStack(id), Times(Good(0), 7));
            s.progress(0) == Created && s.folders == map[id := Of(0)] && s.lock == map[] && s.progress(1) == Waiting
  {
    hide Run;
    FirstWritesRow(id);
    OneMore(Nothing(), OneStack(id), Times(Good(0), 6), Good(0));
  }

  /** The second request locks, meets a fault in its existence check, and makes the folder that is there. */
  function SecondRequest(): seq<Event> { Times(Good(0), 7) + [Good(1)] + [Bad(1)] + [Good(1)] }

  lemma SecondGoesOn(id: string)
    ensures var s := Run(Nothing(), OneStack(id), SecondRequest());
            s.progress(0) == Created && s.progress(1) == FolderMade(true) && s.folders == map[id := Of(0)]
  {
    hide Run;
    FirstCreates(id);
    OneMore(Nothing(), OneStack(id), Times(Good(0), 7), Good(1));
    OneMore(Nothing(), OneStack(id), Times(Good(0), 7) + [Good(1)], Bad(1));
    OneMore(Nothing(), OneStack(id), Times(Good(0), 7) + [Good(1)] + [Bad(1)], Good(1));
  }

  /**
   The witness: a stack is created, a second create's existence check meets a
   passing fault, and its compose write replaces the first one's file, or fails
   and its sweep takes the whole folder.
   */
  lemma StatFaultCostsTheFile(id: string)
    ensures var s := Run(Nothing(), OneStack(id), SecondRequest() + [Good(1)]);
            s.progress(0) == Created && s.folders == map[id := Of(1)]
    ensures var s := Run(Nothing(), OneStack(id), SecondRequest() + [Bad(1)]);
            s.progress(0) == Created && s.folders == map[]
  {
    hide Run;
    SecondGoesOn(id);
    OneMore(Nothing(), OneStack(id), SecondRequest(), Good(1));
    OneMore(Nothing(), OneStack(id), SecondRequest(), Bad(1));
  }

  /**
   The witness: between a create's own folder row and its failing stack row the
   scanner registers another stack of that folder, and the rollback takes its row.
   */
  lemma RollbackTakesAnothersRow(id: string, other: string)
    requires other != id
    ensures Quiet(Nothing(), OneStack(id))
    ensures other in Run(Nothing(), OneStack(id), Times(Good(0), 5) + [ScanStack(other)]).stackRows
    ensures other !in Run(Nothing(), OneStack(id), Times(Good(0), 5) + [ScanStack(other)] + [Bad(0)]).stackRows
  {
    hide Run;
    FirstRegisters(id);
    OneMore(Nothing(), OneStack(id), Times(Good(0), 5), ScanStack(other));
    OneMore(Nothing(), OneStack(id), Times(Good(0), 5) + [ScanStack(other)], Bad(0));
  }
}
