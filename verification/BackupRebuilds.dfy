/**
 Migrations 12, 16 and 19 over backup_runs and backup_run_items, and migration 21
 over update_history: the recipes with the tables, columns and lists of the source.
 */
module BackupRebuilds {
  import opened Wrappers
  import opened Relational
  import opened TableRebuild

  const RUNS := "backup_runs"
  const ITEMS := "backup_run_items"
  const RUNS_NEW := "backup_runs_new"
  const ITEMS_V11 := "backup_run_items_v11"
  const ITEMS_V16 := "backup_run_items_v16"
  const ITEMS_V19 := "backup_run_items_v19"

  const ITEM_SCHEMA: Schema :=
    Schema({"id", "run_id", "stack_id", "status", "snapshot_id", "stop_applied", "duration_ms", "error_message"},
           {"run_id", "stack_id", "status", "stop_applied"},
           map["status" := {"skipped", "success", "failed"}],
           Some(ForeignKey("run_id", RUNS)))

  function RunSchema(kinds: set<string>, statuses: set<string>): Schema {
    Schema({"id", "kind", "trigger", "status", "started_at", "finished_at", "stacks_total", "stacks_ok",
            "stacks_failed", "bytes_added", "error_message"},
           {"kind", "trigger", "status", "started_at", "stacks_total", "stacks_ok", "stacks_failed"},
           map["kind" := kinds, "trigger" := {"manual", "scheduled"}, "status" := statuses],
           None)
  }

  const KINDS_8: set<string> := {"backup", "sync", "restore", "dr_restore", "prune"}
  const KINDS_16: set<string> := KINDS_8 + {"verify"}
  const STATUSES_8: set<string> := {"running", "success", "partial", "failed"}
  const STATUSES_12: set<string> := STATUSES_8 + {"interrupted"}
  const STATUSES_19: set<string> := STATUSES_12 + {"skipped"}

  function BackupPair(aside: string): Pair {
    Pair(RUNS, ITEMS, RUNS_NEW, aside, "run_id", ITEM_SCHEMA)
  }

  /** A sound database in which only the items refer to the runs, and nobody to the items. */
  predicate BackupTables(store: Store, schema: Schema) {
    && Sound(store)
    && RUNS in store && store[RUNS].schema == schema
    && ITEMS in store && store[ITEMS].schema == ITEM_SCHEMA
    && RUNS_NEW !in store && ITEMS_V11 !in store && ITEMS_V16 !in store && ITEMS_V19 !in store
    && (forall t :: t in store && store[t].schema.foreignKey.Some? ==>
          && store[t].schema.foreignKey.value.table != ITEMS
          && (store[t].schema.foreignKey.value.table == RUNS ==> t == ITEMS))
  }

  lemma NamesDiffer()
    ensures RUNS != ITEMS && RUNS != RUNS_NEW && ITEMS != RUNS_NEW
    ensures ITEMS_V11 != RUNS && ITEMS_V11 != ITEMS && ITEMS_V11 != RUNS_NEW
    ensures ITEMS_V16 != RUNS && ITEMS_V16 != ITEMS && ITEMS_V16 != RUNS_NEW
    ensures ITEMS_V19 != RUNS && ITEMS_V19 != ITEMS && ITEMS_V19 != RUNS_NEW
  {
    assert |RUNS| == 11 && |ITEMS| == 16 && |RUNS_NEW| == 15;
    assert |ITEMS_V11| == 20 && |ITEMS_V16| == 20 && |ITEMS_V19| == 20;
  }

  predicate AsideName(aside: string) {
    aside == ITEMS_V11 || aside == ITEMS_V16 || aside == ITEMS_V19
  }

  lemma BackupTablesAreReady(store: Store, schema: Schema, aside: string)
    requires BackupTables(store, schema) && schema.foreignKey == None && AsideName(aside)
    ensures Ready(store, BackupPair(aside))
  {
    NamesDiffer();
    assert "run_id" in ITEM_SCHEMA.notNull;
  }

  /** A row within one set of lists is within any wider one. */
  lemma WiderListsFit(row: Row, kinds: set<string>, statuses: set<string>, moreKinds: set<string>,
                      moreStatuses: set<string>)
    requires RowFits(row, RunSchema(kinds, statuses)) && kinds <= moreKinds && statuses <= moreStatuses
    ensures RowFits(row, RunSchema(moreKinds, moreStatuses))
  {
    var narrow, wide := RunSchema(kinds, statuses), RunSchema(moreKinds, moreStatuses);
    assert narrow.columns == wide.columns && narrow.notNull == wide.notNull;
    assert wide.checks.Keys == narrow.checks.Keys;
    forall c | c in wide.checks && c in row && row[c].Text? ensures row[c].text in wide.checks[c] {
      assert row[c].text in narrow.checks[c];
    }
  }

  /** One widening rebuild: the same database with the wider definition, ready for the next. */
  lemma RebuildWidens(store: Store, aside: string, kinds: set<string>, statuses: set<string>,
                      moreKinds: set<string>, moreStatuses: set<string>)
    returns (after: Store)
    requires BackupTables(store, RunSchema(kinds, statuses)) && AsideName(aside)
    requires kinds <= moreKinds && statuses <= moreStatuses
    ensures after == store[RUNS := Table(RunSchema(moreKinds, moreStatuses), store[RUNS].rows)]
    ensures ExecuteAll(store, Rebuild(BackupPair(aside), RunSchema(moreKinds, moreStatuses))) == Ok(after)
    ensures BackupTables(after, RunSchema(moreKinds, moreStatuses))
  {
    var p, wide := BackupPair(aside), RunSchema(moreKinds, moreStatuses);
    BackupTablesAreReady(store, RunSchema(kinds, statuses), aside);
    forall id | id in store[RUNS].rows ensures RowFits(store[RUNS].rows[id], wide) {
      WiderListsFit(store[RUNS].rows[id], kinds, statuses, moreKinds, moreStatuses);
    }
    RebuildKeepsEveryRow(store, p, wide);
    after := store[RUNS := Table(wide, store[RUNS].rows)];
    NamesDiffer();
  }

  /** The three rebuilds as one script, from lists that only ever widen. */
  function ThreeMigrations(kinds12: set<string>, statuses12: set<string>, kinds16: set<string>, statuses16: set<string>,
                           kinds19: set<string>, statuses19: set<string>): seq<Statement> {
    Rebuild(BackupPair(ITEMS_V11), RunSchema(kinds12, statuses12))
    + (Rebuild(BackupPair(ITEMS_V16), RunSchema(kinds16, statuses16))
    + Rebuild(BackupPair(ITEMS_V19), RunSchema(kinds19, statuses19)))
  }

  lemma ThreeInTurn(s0: Store, s1: Store, s2: Store, a: seq<Statement>, b: seq<Statement>, c: seq<Statement>)
    requires ExecuteAll(s0, a) == Ok(s1) && ExecuteAll(s1, b) == Ok(s2)
    ensures ExecuteAll(s0, a + (b + c)) == ExecuteAll(s2, c)
  {
    RunsInTurn(s0, a, b + c);
    RunsInTurn(s1, b, c);
  }

  lemma ThreeWidenings(store: Store, kinds: set<string>, statuses: set<string>,
                       kinds12: set<string>, statuses12: set<string>, kinds16: set<string>, statuses16: set<string>,
                       kinds19: set<string>, statuses19: set<string>)
    requires BackupTables(store, RunSchema(kinds, statuses))
    requires kinds <= kinds12 <= kinds16 <= kinds19 && statuses <= statuses12 <= statuses16 <= statuses19
    ensures ExecuteAll(store, ThreeMigrations(kinds12, statuses12, kinds16, statuses16, kinds19, statuses19))
         == Ok(store[RUNS := Table(RunSchema(kinds19, statuses19), store[RUNS].rows)])
    ensures Sound(store[RUNS := Table(RunSchema(kinds19, statuses19), store[RUNS].rows)])
  {
    hide RunSchema, BackupPair, Rebuild, ExecuteAll, Sound;
    var s1 := RebuildWidens(store, ITEMS_V11, kinds, statuses, kinds12, statuses12);
    var s2 := RebuildWidens(s1, ITEMS_V16, kinds12, statuses12, kinds16, statuses16);
    var s3 := RebuildWidens(s2, ITEMS_V19, kinds16, statuses16, kinds19, statuses19);
    ThreeInTurn(store, s1, s2,
                Rebuild(BackupPair(ITEMS_V11), RunSchema(kinds12, statuses12)),
                Rebuild(BackupPair(ITEMS_V16), RunSchema(kinds16, statuses16)),
                Rebuild(BackupPair(ITEMS_V19), RunSchema(kinds19, statuses19)));
    assert s3 == store[RUNS := Table(RunSchema(kinds19, statuses19), store[RUNS].rows)];
  }

  /** Migrations 12, 16 and 19, with their own lists. */
  function BackupMigrations(): seq<Statement> {
    ThreeMigrations(KINDS_8, STATUSES_12, KINDS_16, STATUSES_12, KINDS_16, STATUSES_19)
  }

  /**
   Over any database migration 8 left: every row of every table as it was, every
   key resolving, and the widest lists in force.
   */
  lemma BackupHistorySurvives(store: Store)
    requires BackupTables(store, RunSchema(KINDS_8, STATUSES_8))
    ensures ExecuteAll(store, BackupMigrations())
         == Ok(store[RUNS := Table(RunSchema(KINDS_16, STATUSES_19), store[RUNS].rows)])
    ensures Sound(store[RUNS := Table(RunSchema(KINDS_16, STATUSES_19), store[RUNS].rows)])
  {
    ThreeWidenings(store, KINDS_8, STATUSES_8, KINDS_8, STATUSES_12, KINDS_16, STATUSES_12, KINDS_16, STATUSES_19);
  }

  /** A run as the backup service writes it. */
  function SampleRun(kind: string, status: string): Row {
    map["id" := Text("r1"), "kind" := Text(kind), "trigger" := Text("manual"), "status" := Text(status),
        "started_at" := Text("2026-03-01T00:30:00Z"), "finished_at" := Null, "stacks_total" := Text("3"),
        "stacks_ok" := Text("3"), "stacks_failed" := Text("0"), "bytes_added" := Null, "error_message" := Null]
  }

  /** It fits exactly when its kind and status are in the lists. */
  lemma SampleRunFits(kind: string, status: string, kinds: set<string>, statuses: set<string>)
    ensures RowFits(SampleRun(kind, status), RunSchema(kinds, statuses)) <==> kind in kinds && status in statuses
  {
    var row, schema := SampleRun(kind, status), RunSchema(kinds, statuses);
    assert row.Keys == schema.columns;
    assert row["kind"] == Text(kind) && row["status"] == Text(status) && row["trigger"] == Text("manual");
    assert "kind" in schema.checks && "status" in schema.checks;
  }

  /** What the lists of the three migrations let in, and not before. */
  lemma ListsWiden()
    ensures "interrupted" in STATUSES_12 && "interrupted" !in STATUSES_8
    ensures "verify" in KINDS_16 && "verify" !in KINDS_8
    ensures "skipped" in STATUSES_19 && "skipped" !in STATUSES_12
    ensures KINDS_8 == {"backup", "sync", "restore", "dr_restore", "prune"}
    ensures STATUSES_8 == {"running", "success", "partial", "failed"}
  {
  }

  /** A run without a kind, a trigger, a status, a start or its counts is refused. */
  lemma RunNeeds(row: Row, kinds: set<string>, statuses: set<string>, column: string)
    requires column in {"kind", "trigger", "status", "started_at", "stacks_total", "stacks_ok", "stacks_failed"}
    ensures !RowFits(row[column := Null], RunSchema(kinds, statuses))
  {
    assert column in RunSchema(kinds, statuses).notNull;
  }

  // ----------------------------------------------------------- migration 21

  const HISTORY := "update_history"
  const HISTORY_NEW := "update_history_new"

  function HistorySchema(statuses: set<string>): Schema {
    Schema({"id", "container_id", "container_name", "stack_id", "stack_name", "image", "old_digest", "new_digest",
            "old_image_ref", "new_image_ref", "status", "trigger", "started_at", "completed_at", "duration_ms",
            "error_message"},
           {"container_id", "container_name", "image", "status", "trigger", "started_at"},
           map["status" := statuses, "trigger" := {"manual", "auto"}],
           None)
  }

  const HISTORY_STATUSES_3: set<string> := {"pending", "success", "failed", "paused"}
  const HISTORY_STATUSES_21: set<string> := HISTORY_STATUSES_3 + {"skipped"}

  lemma MoreStatusesFit(row: Row, statuses: set<string>, more: set<string>)
    requires RowFits(row, HistorySchema(statuses)) && statuses <= more
    ensures RowFits(row, HistorySchema(more))
  {
    var narrow, wide := HistorySchema(statuses), HistorySchema(more);
    assert narrow.columns == wide.columns && narrow.notNull == wide.notNull;
    forall c | c in wide.checks && c in row && row[c].Text? ensures row[c].text in wide.checks[c] {
      assert row[c].text in narrow.checks[c];
    }
  }

  /** Over any sound database: every update row as it was, every key resolving, and "skipped" allowed. */
  lemma UpdateHistorySurvives(store: Store)
    requires Sound(store) && HISTORY in store && HISTORY_NEW !in store
    requires store[HISTORY].schema == HistorySchema(HISTORY_STATUSES_3)
    requires Unreferenced(store, HISTORY) && Unreferenced(store, HISTORY_NEW)
    ensures ExecuteAll(store, RebuildAlone(HISTORY, HISTORY_NEW, HistorySchema(HISTORY_STATUSES_21)))
         == Ok(store[HISTORY := Table(HistorySchema(HISTORY_STATUSES_21), store[HISTORY].rows)])
    ensures Sound(store[HISTORY := Table(HistorySchema(HISTORY_STATUSES_21), store[HISTORY].rows)])
  {
    hide RowFits, RebuildAlone, ExecuteAll;
    var wide := HistorySchema(HISTORY_STATUSES_21);
    forall id | id in store[HISTORY].rows ensures RowFits(store[HISTORY].rows[id], wide) {
      MoreStatusesFit(store[HISTORY].rows[id], HISTORY_STATUSES_3, HISTORY_STATUSES_21);
    }
    RebuildAloneKeepsRows(store, HISTORY, HISTORY_NEW, wide);
    WidenedAloneIsSound(store, HISTORY, wide);
  }

  /** An update as the scheduler writes it. */
  function SampleUpdate(status: string): Row {
    map["id" := Text("u1"), "container_id" := Text("c1"), "container_name" := Text("web"), "stack_id" := Null,
        "stack_name" := Null, "image" := Text("nginx"), "old_digest" := Null, "new_digest" := Null,
        "old_image_ref" := Null, "new_image_ref" := Null, "status" := Text(status), "trigger" := Text("auto"),
        "started_at" := Text("2026-03-01T00:30:00Z"), "completed_at" := Null, "duration_ms" := Null,
        "error_message" := Null]
  }

  lemma SampleUpdateFits(status: string, statuses: set<string>)
    ensures RowFits(SampleUpdate(status), HistorySchema(statuses)) <==> status in statuses
  {
    hide SampleUpdate, HistorySchema;
    SampleUpdateColumns(status, statuses);
    SampleUpdateKeys(status, statuses);
    var row, schema := SampleUpdate(status), HistorySchema(statuses);
    assert "status" in schema.checks && "status" in row.Keys && row["status"].text == status;
    assert forall c :: c in schema.checks ==> c == "status" || c == "trigger";
    assert row["trigger"].text in schema.checks["trigger"];
  }

  lemma SampleUpdateKeys(status: string, statuses: set<string>)
    ensures SampleUpdate(status).Keys == HistorySchema(statuses).columns
  {
  }

  lemma SampleUpdateColumns(status: string, statuses: set<string>)
    ensures var row, schema := SampleUpdate(status), HistorySchema(statuses);
            && (forall c :: c in schema.notNull ==> c in row && row[c] != Null)
            && schema.checks == map["status" := statuses, "trigger" := {"manual", "auto"}]
            && "status" in row && row["status"] == Text(status) && "trigger" in row && row["trigger"] == Text("auto")
  {
  }

  lemma SkippedIsNew()
    ensures "skipped" in HISTORY_STATUSES_21 && "skipped" !in HISTORY_STATUSES_3
    ensures HISTORY_STATUSES_3 == {"pending", "success", "failed", "paused"}
  {
  }
}
