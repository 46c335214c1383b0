/**
 The one-off rewrite of stack ids to root-prefixed form: the stacks table and the
 three tables that name stacks, in one transaction.
 */
module StackIds {
  import opened Wrappers

  datatype StackRow = StackRow(
    directory: string,
    composeFile: string,
    envFile: Option<string>,
    projectName: string,
    status: string,
    isGitRepo: bool,
    gitBranch: Option<string>,
    gitCommit: Option<string>,
    gitDirty: bool,
    gitAhead: int,
    gitBehind: int)

  type Stacks = map<string, StackRow>

  /** A table's stack_id column, by row; NULL is None. */
  type References = map<string, Option<string>>

  // -------------------------------------------------------------------- new names

  /** What follows the last '/'. */
  function LastComponent(path: string): string {
    if path == "" then ""
    else if path[|path| - 1] == '/' then ""
    else LastComponent(path[..|path| - 1]) + [path[|path| - 1]]
  }

  function RootPrefix(stacksDir: string): (prefix: string)
    ensures prefix != ""
  {
    var last := LastComponent(stacksDir);
    if last == "" then "stacks" else last
  }

  /** The prefix is what follows the last slash; "stacks" when nothing does. */
  lemma RootPrefixIs(folder: string, name: string)
    requires '/' !in name && name != ""
    ensures RootPrefix(folder + "/" + name) == name && RootPrefix(name) == name
    ensures RootPrefix(folder + "/") == "stacks" && RootPrefix("") == "stacks"
  {
    LastAfterSlash(folder + "/", name);
    LastAfterSlash("", name);
    assert "" + name == name;
  }

  lemma {:induction false} LastAfterSlash(folder: string, name: string)
    requires '/' !in name && (folder == "" || folder[|folder| - 1] == '/')
    ensures LastComponent(folder + name) == name
    decreases |name|
  {
    if name == "" {
      assert folder + name == folder;
    } else {
      var path, front := folder + name, name[..|name| - 1];
      assert path[|path| - 1] == name[|name| - 1] && path[..|path| - 1] == folder + front;
      LastAfterSlash(folder, front);
    }
  }

  predicate Prefixed(id: string) {
    '~' in id
  }

  function NewId(prefix: string, id: string): (r: string)
    ensures Prefixed(r)
  {
    assert (prefix + "~" + id)[|prefix|] == '~';
    prefix + "~" + id
  }

  /** The id this new id was made from, if it was made with this prefix. */
  function OldId(prefix: string, id: string): Option<string> {
    if |prefix| < |id| && id[..|prefix| + 1] == prefix + "~" then Some(id[|prefix| + 1..]) else None
  }

  lemma OldIdOfNewId(prefix: string, id: string)
    ensures OldId(prefix, NewId(prefix, id)) == Some(id)
  {
  }

  lemma NewIdOfOldId(prefix: string, id: string)
    requires OldId(prefix, id).Some?
    ensures NewId(prefix, OldId(prefix, id).value) == id
  {
    assert id == id[..|prefix| + 1] + id[|prefix| + 1..];
  }

  lemma UnprefixedHasNoOldId(prefix: string, id: string)
    requires !Prefixed(id)
    ensures OldId(prefix, id) == None
  {
    assert (prefix + "~")[|prefix|] == '~';
    assert |prefix| < |id| ==> id[..|prefix| + 1][|prefix|] == id[|prefix|];
  }

  // --------------------------------------------------------- the tables, part way

  /** The id made this key: it is the new id of a stack already renamed. */
  predicate Renamed(prefix: string, id: string, done: set<string>) {
    OldId(prefix, id).Some? && OldId(prefix, id).value in done
  }

  function NewIds(prefix: string, done: set<string>): set<string> {
    set id | id in done :: NewId(prefix, id)
  }

  /** The stacks once the ids in `done` have been rewritten, in whatever order. */
  function StacksAfter(stacks: Stacks, prefix: string, done: set<string>): Stacks
    requires done <= stacks.Keys
  {
    map id | id in (stacks.Keys - done) + NewIds(prefix, done) ::
      if id in NewIds(prefix, done) then RenamedIfNew(prefix, id, done); stacks[OldId(prefix, id).value] else stacks[id]
  }

  lemma RenamedIfNew(prefix: string, id: string, done: set<string>)
    ensures id in NewIds(prefix, done) <==> Renamed(prefix, id, done)
  {
    if id in NewIds(prefix, done) {
      var former :| former in done && NewId(prefix, former) == id;
      OldIdOfNewId(prefix, former);
    }
    if Renamed(prefix, id, done) {
      NewIdOfOldId(prefix, id);
    }
  }

  function ReferenceAfter(reference: Option<string>, prefix: string, done: set<string>): Option<string> {
    if reference.Some? && reference.value in done then Some(NewId(prefix, reference.value)) else reference
  }

  function ReferencesAfter(refs: References, prefix: string, done: set<string>): References {
    map row | row in refs :: ReferenceAfter(refs[row], prefix, done)
  }

  function Unprefixed(stacks: Stacks): set<string> {
    set id | id in stacks && !Prefixed(id)
  }

  /** UPDATE ... SET stack_id = new WHERE stack_id = old */
  function Repointed(refs: References, former: string, newId: string): References {
    map row | row in refs :: if refs[row] == Some(former) then Some(newId) else refs[row]
  }

  lemma RepointStep(refs: References, prefix: string, done: set<string>, id: string)
    requires id !in done && !Prefixed(id)
    ensures Repointed(ReferencesAfter(refs, prefix, done), id, NewId(prefix, id))
        == ReferencesAfter(refs, prefix, done + {id})
  {
  }

  lemma InStacksAfter(stacks: Stacks, prefix: string, done: set<string>, k: string)
    requires done <= stacks.Keys
    ensures k in StacksAfter(stacks, prefix, done) <==> Renamed(prefix, k, done) || (k in stacks && k !in done)
    ensures Renamed(prefix, k, done) ==> StacksAfter(stacks, prefix, done)[k] == stacks[OldId(prefix, k).value]
    ensures !Renamed(prefix, k, done) && k in stacks && k !in done ==> StacksAfter(stacks, prefix, done)[k] == stacks[k]
  {
    RenamedIfNew(prefix, k, done);
  }

  lemma RenamedNext(prefix: string, k: string, done: set<string>, id: string)
    ensures Renamed(prefix, k, done + {id}) <==> Renamed(prefix, k, done) || k == NewId(prefix, id)
  {
    OldIdOfNewId(prefix, id);
    if OldId(prefix, k) == Some(id) { NewIdOfOldId(prefix, k); }
  }

  /** INSERT OR REPLACE under the new id, then DELETE of the old one. */
  lemma RenameStep(stacks: Stacks, prefix: string, done: set<string>, id: string)
    requires done <= Unprefixed(stacks) && id in Unprefixed(stacks) && id !in done
    ensures id in StacksAfter(stacks, prefix, done)
    ensures StacksAfter(stacks, prefix, done)[NewId(prefix, id) := StacksAfter(stacks, prefix, done)[id]] - {id}
         == StacksAfter(stacks, prefix, done + {id})
  {
    var before, after := StacksAfter(stacks, prefix, done), StacksAfter(stacks, prefix, done + {id});
    var newId := NewId(prefix, id);
    UnprefixedHasNoOldId(prefix, id);
    InStacksAfter(stacks, prefix, done, id);
    OldIdOfNewId(prefix, id);
    var stepped := before[newId := before[id]] - {id};
    forall k ensures k in stepped <==> k in after {
      InStacksAfter(stacks, prefix, done, k);
      InStacksAfter(stacks, prefix, done + {id}, k);
      RenamedNext(prefix, k, done, id);
    }
    forall k | k in after ensures stepped[k] == after[k] {
      InStacksAfter(stacks, prefix, done, k);
      InStacksAfter(stacks, prefix, done + {id}, k);
      RenamedNext(prefix, k, done, id);
    }
  }

  // --------------------------------------------------------------- the whole result

  function Migrated(stacks: Stacks, prefix: string): Stacks {
    StacksAfter(stacks, prefix, Unprefixed(stacks))
  }

  function Repaired(refs: References, stacks: Stacks, prefix: string): References {
    ReferencesAfter(refs, prefix, Unprefixed(stacks))
  }

  /** The four tables the rewrite touches. */
  datatype Tables = Tables(
    stacks: Stacks, actionLog: References, cachedUpdates: References, updateHistory: References)

  function TablesAfter(t: Tables, prefix: string, done: set<string>): Tables
    requires done <= t.stacks.Keys
  {
    Tables(StacksAfter(t.stacks, prefix, done), ReferencesAfter(t.actionLog, prefix, done),
           ReferencesAfter(t.cachedUpdates, prefix, done), ReferencesAfter(t.updateHistory, prefix, done))
  }

  /** The five statements run for one id. */
  function RewriteOne(t: Tables, prefix: string, id: string): Tables
    requires id in t.stacks
  {
    Tables(t.stacks[NewId(prefix, id) := t.stacks[id]] - {id},
           Repointed(t.actionLog, id, NewId(prefix, id)),
           Repointed(t.cachedUpdates, id, NewId(prefix, id)),
           Repointed(t.updateHistory, id, NewId(prefix, id)))
  }

  lemma TablesStep(t: Tables, prefix: string, done: set<string>, id: string)
    requires done <= Unprefixed(t.stacks) && id in Unprefixed(t.stacks) && id !in done
    ensures id in TablesAfter(t, prefix, done).stacks
    ensures RewriteOne(TablesAfter(t, prefix, done), prefix, id) == TablesAfter(t, prefix, done + {id})
  {
    RenameStep(t.stacks, prefix, done, id);
    RepointStep(t.actionLog, prefix, done, id);
    RepointStep(t.cachedUpdates, prefix, done, id);
    RepointStep(t.updateHistory, prefix, done, id);
  }

  /** The ids to rewrite, in listing order; each once. */
  method CollectMappings(listing: seq<string>) returns (mappings: seq<string>)
    requires forall i, j :: 0 <= i < j < |listing| ==> listing[i] != listing[j]
    ensures forall id :: id in mappings <==> id in listing && !Prefixed(id)
    ensures forall i, j :: 0 <= i < j < |mappings| ==> mappings[i] != mappings[j]
  {
    mappings := [];
    var n := 0;
    while n < |listing|
      invariant 0 <= n <= |listing|
      invariant forall id :: id in mappings <==> id in listing[..n] && !Prefixed(id)
      invariant forall i, j :: 0 <= i < j < |mappings| ==> mappings[i] != mappings[j]
    {
      assert listing[..n + 1] == listing[..n] + [listing[n]];
      assert listing[n] !in listing[..n];
      if !Prefixed(listing[n]) { mappings := mappings + [listing[n]]; }
      n := n + 1;
    }
    assert listing[..n] == listing;
  }

  /** One id at a time, in the order given; any statement may fail. */
  method RewriteIds(before: Tables, prefix: string, mappings: seq<string>, failsAt: Option<nat>)
    returns (ok: bool, t: Tables)
    requires (set id | id in mappings) <= Unprefixed(before.stacks)
    requires forall i, j :: 0 <= i < j < |mappings| ==> mappings[i] != mappings[j]
    ensures ok <==> failsAt.None? || failsAt.value >= |mappings|
    ensures ok ==> t == TablesAfter(before, prefix, set id | id in mappings)
  {
    t := before;
    ghost var done: set<string> := {};
    StacksAfterNone(before.stacks, prefix);
    ReferencesAfterNone(before.actionLog, prefix);
    ReferencesAfterNone(before.cachedUpdates, prefix);
    ReferencesAfterNone(before.updateHistory, prefix);
    var m := 0;
    while m < |mappings|
      invariant 0 <= m <= |mappings|
      invariant done == set id | id in mappings[..m]
      invariant done <= Unprefixed(before.stacks)
      invariant t == TablesAfter(before, prefix, done)
      invariant failsAt.None? || failsAt.value >= m
    {
      if failsAt == Some(m) { return false, before; }
      var id := mappings[m];
      assert mappings[..m + 1] == mappings[..m] + [id];
      assert id in mappings && id !in mappings[..m];
      TablesStep(before, prefix, done, id);
      t := RewriteOne(t, prefix, id);
      done := done + {id};
      m := m + 1;
    }
    assert mappings[..m] == mappings;
    ok := true;
  }

  class Database {
    var tables: Tables
    /** root_dir by directory path */
    var rootDirs: map<string, string>
    /** the stack_id_version setting; None when it cannot be read */
    var version: Option<string>

    constructor (tables: Tables, rootDirs: map<string, string>, version: Option<string>)
      ensures this.tables == tables && this.rootDirs == rootDirs && this.version == version
    {
      this.tables, this.rootDirs, this.version := tables, rootDirs, version;
    }

    /**
     The ids arrive in the order the SELECT lists them.  Any statement, or the
     commit, may fail, and then nothing has changed.
     */
    method MigrateStackIds(stacksDir: string, listing: seq<string>, failsAt: Option<nat>) returns (ok: bool)
      requires forall id :: id in listing <==> id in tables.stacks
      requires forall i, j :: 0 <= i < j < |listing| ==> listing[i] != listing[j]
      modifies this
      ensures ok <==> old(version) == Some("2") || (old(version).Some? && failsAt == None)
      ensures !ok || old(version) == Some("2") ==>
        tables == old(tables) && rootDirs == old(rootDirs) && version == old(version)
      ensures ok && old(version) != Some("2") ==>
        && tables == TablesAfter(old(tables), RootPrefix(stacksDir), Unprefixed(old(tables).stacks))
        && rootDirs == (map d | d in old(rootDirs) :: if old(rootDirs)[d] == "" then stacksDir else old(rootDirs)[d])
        && version == Some("2")
    {
      if version == None { return false; }
      if version == Some("2") { return true; }
      var roots := map d | d in rootDirs :: if rootDirs[d] == "" then stacksDir else rootDirs[d];
      var mappings := CollectMappings(listing);
      assert (set id | id in mappings) == Unprefixed(tables.stacks);
      var rewritten, after := RewriteIds(tables, RootPrefix(stacksDir), mappings, failsAt);
      if !rewritten || failsAt.Some? { return false; }
      tables, rootDirs, version := after, roots, Some("2");
      return true;
    }
  }

  lemma StacksAfterNone(stacks: Stacks, prefix: string)
    ensures StacksAfter(stacks, prefix, {}) == stacks
  {
    assert NewIds(prefix, {}) == {};
  }

  lemma ReferencesAfterNone(refs: References, prefix: string)
    ensures ReferencesAfter(refs, prefix, {}) == refs
  {
  }

  // ------------------------------------------------------------------- properties

  /** Some unprefixed id's prefixed form is already a stack. */
  predicate Collides(stacks: Stacks, prefix: string) {
    exists id :: id in stacks && !Prefixed(id) && NewId(prefix, id) in stacks
  }

  function NewKey(prefix: string, id: string): string {
    if Prefixed(id) then id else NewId(prefix, id)
  }

  /** Every id is prefixed afterwards. */
  lemma AllPrefixed(stacks: Stacks, prefix: string, id: string)
    requires id in Migrated(stacks, prefix)
    ensures Prefixed(id)
  {
    InStacksAfter(stacks, prefix, Unprefixed(stacks), id);
    if Renamed(prefix, id, Unprefixed(stacks)) { NewIdOfOldId(prefix, id); }
  }

  /** Without a collision each stack is found, unchanged, under its new key. */
  lemma ContentsKept(stacks: Stacks, prefix: string, id: string)
    requires !Collides(stacks, prefix) && id in stacks
    ensures NewKey(prefix, id) in Migrated(stacks, prefix)
    ensures Migrated(stacks, prefix)[NewKey(prefix, id)] == stacks[id]
  {
    InStacksAfter(stacks, prefix, Unprefixed(stacks), NewKey(prefix, id));
    OldIdOfNewId(prefix, id);
    if Prefixed(id) && Renamed(prefix, id, Unprefixed(stacks)) {
      NewIdOfOldId(prefix, id);
      assert false;
    }
  }

  /** And each key holds the stack it came from: nothing is invented. */
  lemma KeysComeFromStacks(stacks: Stacks, prefix: string, k: string)
    requires k in Migrated(stacks, prefix)
    ensures exists id :: id in stacks && NewKey(prefix, id) == k && Migrated(stacks, prefix)[k] == stacks[id]
  {
    InStacksAfter(stacks, prefix, Unprefixed(stacks), k);
    if Renamed(prefix, k, Unprefixed(stacks)) {
      NewIdOfOldId(prefix, k);
      assert NewKey(prefix, OldId(prefix, k).value) == k;
    } else {
      assert NewKey(prefix, k) == k;
    }
  }

  lemma NewKeyInjective(stacks: Stacks, prefix: string, a: string, b: string)
    requires !Collides(stacks, prefix) && a in stacks && b in stacks && NewKey(prefix, a) == NewKey(prefix, b)
    ensures a == b
  {
    OldIdOfNewId(prefix, a);
    OldIdOfNewId(prefix, b);
  }

  lemma {:induction false} ImageSize(ids: set<string>, prefix: string) returns (image: set<string>)
    ensures image == set id | id in ids :: NewKey(prefix, id)
    ensures |image| <= |ids|
    ensures (forall a, b :: a in ids && b in ids && NewKey(prefix, a) == NewKey(prefix, b) ==> a == b) ==>
        |image| == |ids|
    ensures (exists a, b :: a in ids && b in ids && a != b && NewKey(prefix, a) == NewKey(prefix, b)) ==>
        |image| < |ids|
    decreases |ids|
  {
    image := set id | id in ids :: NewKey(prefix, id);
    if ids != {} {
      var x :| x in ids;
      if a, b :| a in ids && b in ids && a != b && NewKey(prefix, a) == NewKey(prefix, b) { x := a; }
      var rest := ImageSize(ids - {x}, prefix);
      assert image == rest + {NewKey(prefix, x)};
    }
  }

  lemma MigratedKeys(stacks: Stacks, prefix: string)
    ensures Migrated(stacks, prefix).Keys == set id | id in stacks.Keys :: NewKey(prefix, id)
  {
    forall k ensures k in Migrated(stacks, prefix) <==> k in (set id | id in stacks.Keys :: NewKey(prefix, id)) {
      InStacksAfter(stacks, prefix, Unprefixed(stacks), k);
      if k in Migrated(stacks, prefix) { KeysComeFromStacks(stacks, prefix, k); }
      if id :| id in stacks && NewKey(prefix, id) == k { OldIdOfNewId(prefix, id); }
    }
  }

  /** The number of stacks is kept exactly when no new id is taken: INSERT OR REPLACE drops the row that held it. */
  lemma CountKeptUnlessCollision(stacks: Stacks, prefix: string)
    ensures |Migrated(stacks, prefix)| == |stacks| <==> !Collides(stacks, prefix)
    ensures |Migrated(stacks, prefix)| <= |stacks|
  {
    MigratedKeys(stacks, prefix);
    var image := ImageSize(stacks.Keys, prefix);
    assert |Migrated(stacks, prefix)| == |image| && |stacks| == |stacks.Keys|;
    if Collides(stacks, prefix) {
      var id :| id in stacks && !Prefixed(id) && NewId(prefix, id) in stacks;
      assert NewKey(prefix, id) == NewKey(prefix, NewId(prefix, id)) && id != NewId(prefix, id);
    } else {
      forall a, b | a in stacks.Keys && b in stacks.Keys && NewKey(prefix, a) == NewKey(prefix, b) ensures a == b {
        NewKeyInjective(stacks, prefix, a, b);
      }
    }
  }

  /** A reference that named a stack names the same stack afterwards. */
  lemma ReferencesFollow(stacks: Stacks, refs: References, prefix: string, row: string)
    requires !Collides(stacks, prefix)
    requires row in refs && refs[row].Some? && refs[row].value in stacks
    ensures var after := Repaired(refs, stacks, prefix)[row];
            after.Some? && after.value in Migrated(stacks, prefix)
                && Migrated(stacks, prefix)[after.value] == stacks[refs[row].value]
  {
    ContentsKept(stacks, prefix, refs[row].value);
  }

  /** Migrating what was migrated changes nothing, even without the version marker. */
  lemma MigratingTwice(stacks: Stacks, refs: References, prefix: string, again: string)
    ensures Migrated(Migrated(stacks, prefix), again) == Migrated(stacks, prefix)
    ensures Repaired(Repaired(refs, stacks, prefix), Migrated(stacks, prefix), again) == Repaired(refs, stacks, prefix)
  {
    var once := Migrated(stacks, prefix);
    forall id | id in once ensures Prefixed(id) { AllPrefixed(stacks, prefix, id); }
    assert Unprefixed(once) == {};
    StacksAfterNone(once, again);
    ReferencesAfterNone(Repaired(refs, stacks, prefix), again);
  }

  /** The collision is real: an unprefixed "web" overwrites an existing "stacks~web". */
  lemma CollisionLosesAStack(web: StackRow, prefixedWeb: StackRow)
    requires web != prefixedWeb
    ensures var stacks := map["web" := web, "stacks~web" := prefixedWeb];
            Migrated(stacks, RootPrefix("")) == map["stacks~web" := web]
  {
    var stacks := map["web" := web, "stacks~web" := prefixedWeb];
    var prefix := RootPrefix("");
    assert prefix == "stacks";
    assert NewId(prefix, "web") == "stacks~web";
    assert !Prefixed("web") && Prefixed("stacks~web") by { assert "stacks~web"[6] == '~'; }
    assert Unprefixed(stacks) == {"web"};
    OldIdOfNewId(prefix, "web");
    forall k ensures k in Migrated(stacks, prefix) <==> k == "stacks~web" {
      InStacksAfter(stacks, prefix, {"web"}, k);
      if OldId(prefix, k) == Some("web") { NewIdOfOldId(prefix, k); }
    }
    InStacksAfter(stacks, prefix, {"web"}, "stacks~web");
  }
}
