# Capstan: verified models of its data-handling cores

Capstan is a Go backend that manages Docker Compose stacks. This project models
the parts of it in which a mistake silently costs an operator data, and proves
that they keep what they promise:

- **Env files** (`Text`, `EnvFile`, `EnvRoundTrip`, `EnvValidation`,
  `EnvUnedited`): the parser with its quote and escape automaton, the printer,
  and the checks on a client's rows. What a save keeps, when it is the identity,
  and which rows come back exactly as they were written.
- **Timestamps compared as text** (`Calendar`, `Decimals`, `Layouts`,
  `Timestamps`, `Spellings`, `Rfc3339Calendar`, `UpdateHistory`,
  `StoredInstants`, `OldSpellings`, `Retention`): the civil calendar,
  RFC 3339 (sections 5.1 and 5.6), canonical forms, and every query and sweep
  whose text comparison must be a comparison of instants.
- **Migrations** (`Relational`, `TableRebuild`, `BackupRebuilds`,
  `MigrationRunner`, `StackIds`): a small relational store with cascades and
  foreign keys that follow a rename, the table-rebuild recipe and the two
  orderings that lose rows, the runner across boots and binary versions, and the
  rewrite of stack ids over four tables.
- **Stored secrets** (`Secrets`, `IdealCipher`): saving, batch saving, reading
  and re-encrypting under changing keys, over any authenticated cipher.
- **Files** (`AtomicWrite`, `ComposeSave`, `FolderPaths`, `StackNames`,
  `StackFiles`, `StackDelete`, `DeleteWitnesses`, `StackCreate`): the atomic
  write, the two-file save with rollback and every state a crash can leave,
  deletion among shared, linked and nested folders, and concurrent creation.
- **Concurrency** (`OperationLock`, `StreamingOperation`, `EventBus`,
  `BackupSchedule`, `ScanInterval`): the operation lock, a streamed operation
  whose client may vanish, the event bus, and the re-arming of both schedulers.

Code that computes a value is a function with lemmas about it. Code that changes
things step by step is a method or a class proved against such functions; which
calls fail is an input, or a nondeterministic choice that a ghost count of refused
calls records. Requests that interleave are events of a state machine over any
number of processes, and the theorems are about every sequence of events. Strings
are sequences of Unicode scalar values.

Six promises of the source turn out to need a condition, which is stated exactly:

- a save keeps a file's rows if and only if no row is an empty quotation without
  a key (`EnvRoundTrip.RowsSurviveSave`, with `EmptyQuotationVanishes` as the
  witness); the validator rejects no such row, because it treats an empty key
  with an empty value as a blank line;
- the stack-id rewrite keeps the number of stacks if and only if no prefixed id
  is already taken (`StackIds.CountKeptUnlessCollision`, with
  `CollisionLosesAStack` as the witness);
- a created stack keeps its compose file if and only if no later create of that
  stack, whose existence check failed with an error other than "not there" on the
  folder that was there, goes on to its compose write
  (`StackCreate.CreatedKeepsItsFile`, with `StatFaultCostsTheFile` as the
  witness). The comment at stack_crud.go:136 calls the directory create the real
  gate, but that create succeeds on an existing folder;
- a failing create takes a stack's row if and only if it undoes a folder row that
  it inserted itself and the stack is in that folder; rows registered since that
  insert go too (`StackCreate.OnlyOwnInsertIsUndone`, with
  `RollbackTakesAnothersRow` as the witness);
- the update scanner runs at the stored interval if and only if it did at the
  start or a save has since committed an interval other than the one it read
  (`ScanInterval.RunningMatchesStored`, with `SameIntervalNeverRestarts` as the
  witness: a scanner left off by a fault at boot);
- a delete that removes files leaves another stack's compose or env file readable
  as before if and only if nothing that the file is read through, its own entry,
  the links on its way or the folders they lead to, is among the entries to remove
  (`StackDelete.Host.Delete`, decided before the removal by `StackFiles.Doomed` and
  `StackFiles.Clear`). A well-named stack without links always keeps its files,
  unless the deleted stack's folder has become a file
  (`StackFiles.PlainStackIsClear`). Survivors are found by folder and compared by
  name alone, so a file reached by a link can go: an env file that is a link to the
  deleted stack's, in the same folder (`DeleteWitnesses.SharedFolderCostsLinkedEnv`)
  or in another (`WholeFolderCostsLinkedEnv`); a stack registered through a link
  inside the deleted folder (`WholeFolderCostsPath`); and a folder that is another
  stack's file (`FolderThatIsAFileIsLost`).

## Model

| member | source | states |
|---|---|---|
| `EnvFile.ClosingQuote` | backend/internal/handlers/env.go:631-648 | the automaton's index is the first quote not preceded by an odd run of backslashes, and its flag says whether the text ends inside an escape |
| `EnvFile.ParseEnvFile` | backend/internal/handlers/env.go:542-605 | the scanner loop yields one entry per line up to the first line the 64 KiB buffer cannot hold |
| `EnvRoundTrip.BufferLimit` | backend/internal/handlers/env.go:542-549 | a line of 65535 bytes is read and one of 65536 is not |
| `EnvFile.SerializeEnvFile` | backend/internal/handlers/env.go:650-679 | the buffer holds one newline-ended line per entry, in order |
| `EnvFile.ValidateEnvQuoting` | backend/internal/handlers/env.go:483-520 | which quotation fault an entry has, if any |
| `EnvFile.ValidateEnvCommentRow` | backend/internal/handlers/env.go:450-481 | a comment row is let through only if it reads back as itself on one line |
| `EnvFile.ValidateEnvEntries` | backend/internal/handlers/env.go:419-448 | the first faulty entry and its fault, or none |
| `EnvRoundTrip.PiecesRebuildRaw` | backend/internal/handlers/env.go:607-629 | splitting a value loses nothing: its pieces, quoted again, are the text that was split |
| `EnvRoundTrip.ParseAssignment` | backend/internal/handlers/env.go:542-605 | a key, "=" and a value written on one line parse to that key and the value's split |
| `EnvRoundTrip.ResavedReadsTheSame` | backend/internal/handlers/env.go:542-629 | a line that is parsed and printed reads as the same row, exactly unless the row is an empty quotation without a key |
| `EnvRoundTrip.ResavedFile` | backend/internal/handlers/env.go:542-605 | saving works line by line: the saved file is the lines re-saved, and reads back line by line |
| `EnvRoundTrip.SecondSaveChangesNothing` | backend/internal/handlers/env.go:650-679 | over every file content, serialize after parse is idempotent |
| `EnvRoundTrip.RowsSurviveSave` | backend/internal/handlers/env.go:542-679 | parse after serialize after parse is parse, if and only if no row is an empty quotation without a key |
| `EnvRoundTrip.EmptyQuotationVanishes` | backend/internal/handlers/env.go:650-679 | the witness: `=''` is read as a quoted empty value and saved as a blank line |
| `EnvRoundTrip.UneditedSaveIsIdentity` | backend/internal/handlers/env.go:542-679 | saving an unedited file returns its bytes if and only if it ends in a newline and every line is in canonical form |
| `EnvRoundTrip.CanonicalFileIsKept` | backend/internal/handlers/env.go:542-679 | a newline-ended file of trimmed lines without space around the first "=" (and without an empty value under an empty key) is kept byte for byte |
| `EnvValidation.CommentRowsAccepted` | backend/internal/handlers/env.go:450-481 | the comment rows let through are exactly the blank ones and the trimmed one-line texts that start with "#" or hold no "=" |
| `EnvValidation.WrittenQuoteCloses` | backend/internal/handlers/env.go:631-648 | a value closes at its own end once quoted, whatever follows the quote, if and only if it holds no unescaped quote and does not end inside an escape |
| `EnvValidation.QuotedReadsBack` | backend/internal/handlers/env.go:483-520 | a quoted entry with a well-formed key reads back with its key, quote and value, and its comment up to trailing space, if and only if its quotation closes where it was meant to |
| `EnvValidation.UnquotedReadsBack` | backend/internal/handlers/env.go:612-629 | an unquoted entry with a well-formed key reads back if and only if its value is empty without a comment, or trimmed, without " #" and not read as a quotation |
| `EnvValidation.RowReadsBackExactly` | backend/internal/handlers/env.go:486-629 | over every entry with a key and a permitted comment, it reads back as written if and only if its key is well formed and its value survives |
| `EnvValidation.QuotingCheckIsExact` | backend/internal/handlers/env.go:483-520 | for a quoted entry with a well-formed key the check refuses exactly the values that would not read back |
| `EnvValidation.AcceptedRowIsOneLine` | backend/internal/handlers/env.go:419-448 | no accepted entry can add or merge a line |
| `EnvValidation.AcceptedTable` | backend/internal/handlers/env.go:419-448 | an accepted list is written as exactly one line per entry and read back row by row |
| `EnvValidation.AcceptedTableReadBack` | backend/internal/handlers/env.go:542-605 | the row count is kept if and only if every line fits the scanner's buffer |
| `EnvValidation.CommentKeepsItsPlace` | backend/internal/handlers/env.go:450-481 | each non-empty comment row of an accepted list reads back as the same comment at the same index, as long as every row before it fits the scanner's buffer |
| `EnvValidation.AcceptedTableSurvives` | backend/internal/handlers/env.go:419-679 | an accepted list comes back row by row as it was sent, renumbered, if and only if every line fits the buffer and every variable has a key and a value the file can hold |
| `EnvUnedited.InlineCommentsAccepted` | backend/internal/handlers/env.go:504-519 | the accepted inline comments, over all rows: none, or white space and a "#" text on one line, with a space before it after an unquoted value |
| `EnvUnedited.ReadRowAccepted` | backend/internal/handlers/env.go:419-520 | of the rows the reader makes, the checks refuse exactly a value without a key and a carriage return |
| `EnvUnedited.UneditedTableAccepted` | backend/internal/handlers/env.go:419-520 | over every content, the unedited table is accepted if and only if no row holds a carriage return or a value without a key |
| `Timestamps.SecondTextsInOrder` | backend/internal/database/update_history.go:258-268 | the texts of two seconds sort as the seconds do, over years 0 to 9999 |
| `Timestamps.CivilReadsBack` | backend/internal/database/update_history.go:258-268 | a written civil time reads back, whatever follows it |
| `Timestamps.CivilRewritten` | backend/internal/database/update_history.go:258-268 | a civil time that was read is written as it was read |
| `Timestamps.CanonicalKeepsInstant` | backend/internal/database/update_history.go:258-268 | an interpretable value becomes the 20-character text of its instant floored to the second |
| `Timestamps.CanonicalOrder` | backend/internal/database/update_history.go:258-268 | stored texts sort, and are equal, exactly as the instants do, whatever offsets they came with |
| `Timestamps.CanonicalFixedPoints` | backend/internal/database/update_history.go:258-268 | the values left byte-identical are exactly the uninterpretable, the out-of-range and the already canonical |
| `Timestamps.CanonicalIdempotent` | backend/internal/database/update_history.go:258-268 | over every string at all, canonicalising twice is canonicalising once |
| `Rfc3339Calendar.DigitsAreADate` | backend/internal/database/update_history.go:258-268 | the digits of a date and time are interpretable if and only if they are one by RFC 3339 section 5.7 and appendix C, 29 February only in leap years |
| `Rfc3339Calendar.ClockGoesOn` | backend/internal/database/update_history.go:258-268 | which text is one second later within a day |
| `Rfc3339Calendar.DaysGoOn` | backend/internal/database/update_history.go:258-268 | and after the last second of a day, a month and a year |
| `Rfc3339Calendar.Anchored` | backend/internal/database/update_history.go:258-268 | the count of seconds is anchored at the Unix epoch |
| `Rfc3339Calendar.OffsetsShift` | backend/internal/database/update_history.go:258-268 | a time at "+hh:mm" is that much earlier in UTC, one at "-hh:mm" that much later |
| `Rfc3339Calendar.FractionIsCutOff` | backend/internal/database/update_history.go:258-268 | a fraction is cut off and never rounded |
| `Rfc3339Calendar.MarchExample` | backend/internal/database/canonical_timestamp_edge_test.go:13-26 | the cases of an offset normalised to the day before, in either letter case |
| `Rfc3339Calendar.LeapExamples` | backend/internal/database/update_history.go:258-268 | the last of February in a common and in a leap year, and the leap years around the centuries |
| `Spellings.SpellingsCollapse` | backend/internal/database/update_history.go:225-268 | every spelling of an instant, at any offset, with any fraction and in either letter case, is stored as the same text |
| `Spellings.FarInstantsAreKept` | backend/internal/database/update_history.go:253-268 | a value whose offset carries its UTC year past 0 to 9999 is kept as given |
| `UpdateHistory.FilterSelectsByInstant` | backend/internal/database/update_history.go:33-47 | the From and To filters, compared as text, select by instant to the second |
| `UpdateHistory.RecentByInstant` | backend/internal/database/update_history.go:396-427 | the 7- and 30-day counts count exactly the successes that recent |
| `UpdateHistory.PageIsTheSlice` | backend/internal/database/update_history.go:58-102 | every page is the slice its numbers ask for in unbounded arithmetic: the overflow guard refuses only offsets past the end |
| `UpdateHistory.PageDefaults` | backend/internal/database/update_history.go:56-110 | a size or page number that asks for nothing means 25 rows and the first page |
| `UpdateHistory.PagesCoverOnce` | backend/internal/database/update_history.go:58-102 | turning the pages shows every row once, in order |
| `UpdateHistory.Table.Insert` | backend/internal/database/update_history.go:271-310 | both timestamps, if storable, are stored canonically and keep their second, any other is stored as given, and no other row changes |
| `UpdateHistory.Table.SweepInterrupted` | backend/internal/database/update_history.go:349-375 | exactly the pending updates become failed, completed at the sweep's second |
| `UpdateHistory.Table.DeleteOlderThan` | backend/internal/database/update_history.go:377-394 | deletes exactly the updates completed before the bound's second, never one without completed_at |
| `StoredInstants.StoredInstantOrder` | backend/internal/database/stored_instant.go:25-31 | millisecond texts sort as their instants do, floored to the millisecond |
| `StoredInstants.StoredInstantReadsBack` | backend/internal/database/stored_instant.go:25-31 | a stored text names its instant floored to the millisecond |
| `StoredInstants.SweepComparesInstants` | backend/internal/database/users.go:170-176 | the sweep's text comparison is a comparison of milliseconds |
| `StoredInstants.SweepIsTight` | backend/internal/database/users.go:170-176 | nothing still valid is swept, and everything expired for a millisecond is |
| `StoredInstants.SessionTable.Create` | backend/internal/database/users.go:126-131 | stores the expiry so that it reads back to its millisecond, other rows untouched |
| `StoredInstants.SessionTable.DeleteExpiredAt` | backend/internal/database/users.go:172-176 | keeps exactly the sessions not expired by now, each as it was |
| `StoredInstants.RebuiltIsRfc3339` | backend/internal/database/stored_instant.go:45-60 | the substring arithmetic on Go's time text finds the offset and rebuilds RFC 3339 text, with any fraction and zone name |
| `StoredInstants.RebuiltKeepsInstant` | backend/internal/database/stored_instant.go:33-60 | what strftime is asked to convert names the same instant as the old value |
| `StoredInstants.GoTextMatches` | backend/internal/database/stored_instant.go:37-60 | the GLOB guard admits every old value |
| `StoredInstants.NewSpellingIsSkipped` | backend/internal/database/stored_instant.go:39-43 | the GLOB guard admits no new value |
| `StoredInstants.RespellingTwice` | backend/internal/database/stored_instant.go:39-60 | running the migration again changes nothing, whatever was in the column |
| `OldSpellings.GuardIsTheGlob` | backend/internal/database/stored_instant.go:69-75 | the guard admits exactly what the GLOB pattern of the migration matches, by a matcher of its own |
| `OldSpellings.OldBecomesStored` | backend/internal/database/stored_instant.go:45-75 | every old value becomes the stored spelling of the instant it names |
| `OldSpellings.OthersAreKept` | backend/internal/database/stored_instant.go:51-58 | a value outside the GLOB, or that strftime cannot read, stays as it is |
| `OldSpellings.ColumnIsStored` | backend/internal/database/stored_instant.go:39-75 | after the migration a column of old and new values holds stored spellings only, each of the instant it named |
| `OldSpellings.EstExample` | backend/internal/database/session_action_log_instant_test.go:176-203 | the case of a time after the clocks went back |
| `Retention.SavedDaysAreHonoured` | backend/internal/database/retention.go:48-64 | a saved day count, with any white space around it, is honoured as far as the seven-day floor |
| `Retention.DefaultIsNinety` | backend/internal/database/retention.go:48-107 | a setting never saved, empty or no number means 90 days, and one that cannot be read means none |
| `Retention.NegativeIsSeven` | backend/internal/database/retention.go:48-64 | a negative setting means seven days |
| `Retention.CutoffComparesInstants` | backend/internal/database/retention.go:141-172 | a canonical row is older than the cutoff text exactly when its instant is |
| `Retention.UpdatesByAge` | backend/internal/database/retention.go:155-199 | an update goes if and only if it completed before the cutoff; one without completed_at never |
| `Retention.RunsByAge` | backend/internal/database/retention.go:155-241 | a backup or cleanup run goes if and only if it started before the cutoff |
| `Retention.YoungUpdatesSurvive` | backend/internal/database/retention.go:256-308 | whatever the settings hold, an update younger than seven days, unfinished, or under an unreadable setting survives |
| `Retention.YoungRunsSurvive` | backend/internal/database/retention.go:256-308 | the same for backup and cleanup runs |
| `Retention.LogsByInstant` | backend/internal/database/audit.go:107-127 | action log entries are deleted exactly when older than the cutoff, to the millisecond, and not at all when the setting is unreadable |
| `Retention.YoungActionsSurvive` | backend/internal/database/audit.go:107-127 | an action younger than seven days survives the pass when the cutoff, in the server's zone, is no later than seven days ago |
| `Retention.EachByItsOwnSetting` | backend/internal/database/retention.go:256-308 | each table is pruned by its own setting, cutoff and statement, and kept whole without them |
| `Retention.History.DeleteOldActionLogs` | backend/internal/database/audit.go:116-127 | refuses below the floor and then deletes nothing |
| `Retention.History.DeleteOldUpdateHistory` | backend/internal/database/retention.go:178-199 | refuses below the floor and then deletes nothing |
| `Retention.History.DeleteOldBackupRuns` | backend/internal/database/retention.go:201-221 | the items of a deleted run go with it and no others do |
| `Retention.History.PruneHistory` | backend/internal/database/retention.go:243-308 | each table is pruned, or left exactly as it was, by its own setting and statement alone |
| `Relational.CascadeIsLeast` | backend/internal/database/migrations.go:75-90 | a cascade removes no row outside what the foreign keys make it remove |
| `Relational.NamesAreChecked` | backend/internal/database/migrations.go:1186-1222 | a statement that makes a table under a name in use, or uses one that is not there, is refused |
| `Relational.Database.Apply` | backend/internal/database/migrations.go:1186-1222 | a migration's statements all take effect, in order, or none does |
| `TableRebuild.RebuildKeepsEveryRow` | backend/internal/database/migrations.go:41-107 | over every sound database the safe ordering changes the parent's definition and nothing else: every row of every table, every key resolving |
| `TableRebuild.RebuildRefusesMisfits` | backend/internal/database/migrations.go:443-492 | a row outside the new lists stops the migration |
| `TableRebuild.RebuildAloneKeepsRows` | backend/internal/database/migrations.go:832-880 | the recipe for a table with no incoming key keeps every row |
| `TableRebuild.RenameOutLosesChild` | backend/internal/database/migrations.go:46-68 | renaming the parent out of its name empties the child table |
| `TableRebuild.RenameOutDangles` | backend/internal/database/migrations.go:58-68 | after it the child's key names no table, and every insert into the child fails on that name |
| `TableRebuild.DropUnderChildLosesChild` | backend/internal/database/migrations.go:80-96 | dropping the parent while the child is alive empties the child although every key resolves |
| `BackupRebuilds.RebuildWidens` | backend/internal/database/migrations.go:652-700 | one widening rebuild of backup_runs leaves a database ready for the next |
| `BackupRebuilds.SampleRunFits` | backend/internal/database/migrations.go:443-815 | a run as it is written fits exactly when its kind and status are in the lists |
| `BackupRebuilds.ListsWiden` | backend/internal/database/migrations.go:443-815 | what the lists of the three migrations let in, and not before |
| `BackupRebuilds.RunNeeds` | backend/internal/database/migrations.go:443-815 | the columns no run may leave empty |
| `BackupRebuilds.BackupHistorySurvives` | backend/internal/database/migrations.go:443-815 | migrations 12, 16 and 19 in turn, with their own columns and lists, keep every row of every table |
| `BackupRebuilds.UpdateHistorySurvives` | backend/internal/database/migrations.go:832-881 | migration 21, with its own columns and lists, keeps every row of every table and every key resolving |
| `BackupRebuilds.SampleUpdateFits` | backend/internal/database/migrations.go:848-865 | an update as it is written fits exactly when its status is in the list |
| `MigrationRunner.Database.Transact` | backend/internal/database/migrations.go:1186-1222 | script and version are committed together or not at all |
| `MigrationRunner.AppliedExactly` | backend/internal/database/migrations.go:1150-1228 | a migration takes effect exactly when it is new, its pre-check allows it, its script runs and the commit succeeds; a refused pre-check fails the boot |
| `MigrationRunner.Database.Boot` | backend/internal/database/migrations.go:1118-1228 | the guard and the loop, wherever a boot is cut short |
| `MigrationRunner.BootKeepsPlace` | backend/internal/database/migrations.go:1118-1228 | a boot moves the database along the line, never back and never past its own binary |
| `MigrationRunner.EveryRunIsAPrefix` | backend/internal/database/migrations.go:1118-1228 | over every sequence of boots the recorded versions are 1..k and the data is the first k migrations, each run once and in order |
| `MigrationRunner.OlderBinaryAppliesNothing` | backend/internal/database/migrations.go:1129-1180 | a binary older than the database refuses, or with the override applies nothing |
| `MigrationRunner.CleanBootCompletes` | backend/internal/database/migrations.go:1182-1228 | a boot nothing interrupts completes the binary's own schema |
| `StackIds.RenameStep` | backend/internal/database/migrations.go:1295-1306 | one insert-or-replace and delete is one more id in the closed form of the result, whatever the order |
| `StackIds.RootPrefixIs` | backend/internal/database/migrations.go:1239-1250 | the prefix is what follows the last slash of the stacks folder, or "stacks" when nothing does |
| `StackIds.CollectMappings` | backend/internal/database/migrations.go:1263-1293 | the ids to rewrite are the unprefixed ones, each once |
| `StackIds.RewriteIds` | backend/internal/database/migrations.go:1295-1316 | rewriting one id at a time, in any order, rewrites each once in all four tables |
| `StackIds.Database.MigrateStackIds` | backend/internal/database/migrations.go:1230-1331 | the whole rewrite, or nothing; nothing at all once the marker says 2 |
| `StackIds.AllPrefixed` | backend/internal/database/migrations.go:1280-1293 | every id is prefixed afterwards |
| `StackIds.ContentsKept` | backend/internal/database/migrations.go:1295-1306 | without a collision every stack is found, unchanged, under its new id |
| `StackIds.KeysComeFromStacks` | backend/internal/database/migrations.go:1295-1306 | every row afterwards is a stack that was there |
| `StackIds.CountKeptUnlessCollision` | backend/internal/database/migrations.go:1295-1306 | the number of stacks is kept if and only if no new id is already taken |
| `StackIds.ReferencesFollow` | backend/internal/database/migrations.go:1307-1315 | a reference that named a stack names the same stack afterwards |
| `StackIds.MigratingTwice` | backend/internal/database/migrations.go:1230-1331 | a second run changes nothing, even without the marker |
| `StackIds.CollisionLosesAStack` | backend/internal/database/migrations.go:1295-1302 | the witness: an unprefixed id overwrites an existing stack of the prefixed name |
| `Secrets.PlacesAreDistinct` | backend/internal/database/settings.go:45-49 | no two settings or directory tokens share associated data |
| `Secrets.SecretRows` | backend/internal/database/settings.go:12-49 | which settings and columns are secrets, which are tolerated in clear, and the data and prefix that seal them |
| `Secrets.ReadsOrFails` | backend/internal/database/settings.go:51-69 | under any encryptor a stored value reads as what it stands for, or fails |
| `Secrets.EncodedStands` | backend/internal/database/settings.go:119-145 | what is stored stands for what was saved and reads back at once |
| `Secrets.EncodedIsProtected` | backend/internal/database/settings.go:117-145 | no secret is stored in clear, but for a tolerated setting while there is no key; what is no secret is stored as it is |
| `Secrets.MovedSecretFails` | backend/internal/database/directories.go:156-162 | a secret copied to any other row or column does not decrypt there |
| `Secrets.SavingWithoutAKey` | backend/internal/database/settings.go:121-145 | without a key a password or token cannot be saved, and a tolerant setting only when it does not look sealed |
| `Secrets.SavingWithAKey` | backend/internal/database/settings.go:117-145 | with a key and entropy every save goes through |
| `Secrets.ResealedPreserves` | backend/internal/database/migrations.go:1023-1055 | a rewritten row reads as it did and is sealed, and one that cannot be decrypted is left |
| `Secrets.SecretStore.GetSetting` | backend/internal/database/settings.go:51-69 | the last value saved or an error, never another value, in every run of saves, re-encryptions and boots |
| `Secrets.SecretStore.GetDirectoryCredentials` | backend/internal/database/directories.go:135-154 | the same for directory tokens |
| `Secrets.SecretStore.SetSetting` | backend/internal/database/settings.go:71-79 | saved and readable at once, or refused with nothing changed |
| `Secrets.SecretStore.SetSettings` | backend/internal/database/settings.go:87-115 | all of a batch or none of it, a later value of one key winning |
| `Secrets.SecretStore.UpdateDirectoryCredentials` | backend/internal/database/directories.go:170-182 | saved and readable at once, or nothing changed |
| `Secrets.SecretStore.ReencryptSecrets` | backend/internal/database/migrations.go:943-1071 | all or nothing; every row reads as it did, unreadable ones are byte-identical, and a second pass rewrites none |
| `Secrets.SecretStore.ReencryptRows` | backend/internal/database/migrations.go:985-1065 | the pass over one column, in any order of rows |
| `IdealCipher.IdealIsLawful` | backend/internal/services/crypto.go:178-257 | a cipher that meets every law assumed of one exists |
| `IdealCipher.OldTextsOpen` | backend/internal/services/crypto.go:217-238 | that cipher opens unprefixed texts too, under their key and under the key they are the legacy of |
| `AtomicWrite.WriteIsSeen` | backend/internal/handlers/atomic_write.go:26-78 | a write through a path is seen through it and through no path that leads elsewhere |
| `AtomicWrite.DestinationOfChain` | backend/internal/handlers/atomic_write.go:42-78 | a chain of links leads to its end, if it is not too long |
| `AtomicWrite.WritableExactly` | backend/internal/handlers/atomic_write.go:42-78 | a path can be written exactly when nothing is there or it leads to a regular file |
| `AtomicWrite.FileSystem.Fill` | backend/internal/handlers/atomic_write.go:80-112 | the temporary file never holds content at another mode than the final one |
| `AtomicWrite.FileSystem.RenameIntoPlace` | backend/internal/handlers/atomic_write.go:80-119 | at every moment the name shows the whole old file or the whole new one, synced and at its mode |
| `AtomicWrite.FileSystem.WriteFileAtomic` | backend/internal/handlers/atomic_write.go:14-40 | writes through links to the file they lead to; it fails only for a dangling link, a special file or one failed call, and then changes nothing |
| `AtomicWrite.FileSystem.WriteComposeFileAtomic` | backend/internal/handlers/atomic_write.go:112-139 | the same, an existing compose file keeping its mode |
| `ComposeSave.RestoreEnv` | backend/internal/handlers/compose.go:245-261 | the old bytes again, or no file again, unless a call fails, and then no change; the compose file untouched |
| `ComposeSave.SaveEnv` | backend/internal/handlers/compose.go:377-446 | the env half: refused, undone or done, the compose file untouched in every state; undone whenever only one call fails |
| `ComposeSave.SaveCompose` | backend/internal/handlers/compose.go:448-490 | the compose half and its rollback, state by state; the rollback is complete whenever only one call fails |
| `ComposeSave.PairsOf` | backend/internal/handlers/compose.go:377-490 | the pairs a reader may find: old files or new ones, and unless stuck never the new compose beside the old env |
| `ComposeSave.PutComposeAndEnv` | backend/internal/handlers/compose.go:273-515 | in every state a crash can leave each file is wholly old or wholly new, never a new compose beside an old env unless the compose could not be rolled back; a save that nothing but a fault stands in the way of ends new and new unless a call fails, and old and old when only that call fails |
| `FolderPaths.ResolvedStays` | backend/internal/pathutil/pathutil.go:53-81 | resolving a resolved path changes nothing |
| `FolderPaths.StepsOfFind` | backend/internal/pathutil/pathutil.go:53-81 | what each thing on a path does to finding it: a link leads on, a file or a closed folder is an error, nothing is nothing |
| `FolderPaths.StepsOfResolve` | backend/internal/pathutil/pathutil.go:53-81 | an error stays an error, and what is not there is kept as it stands after what is |
| `FolderPaths.AbsentStays` | backend/internal/pathutil/pathutil.go:53-81 | a path that leads nowhere resolves to one that leads nowhere, and resolving that changes nothing |
| `FolderPaths.EntryOfResolved` | backend/internal/pathutil/pathutil.go:53-81 | what removal acts on is the folder itself unless the path ends in a link |
| `FolderPaths.NothingBelowAbsent` | backend/internal/pathutil/pathutil.go:53-81 | nothing exists below what a path that leads nowhere resolves to |
| `FolderPaths.FoundUnlessLost` | backend/internal/pathutil/pathutil.go:53-81 | after any removal a path leads where it did if and only if no entry on its trail has gone, and nowhere otherwise |
| `StackNames.ScannedNames` | backend/internal/services/scanner.go:1606-1785 | whatever is in a folder, the scanner records a compose file's name and an env file's name |
| `StackNames.NameInTheMiddle` | backend/internal/services/scanner.go:1728-1746 | the stack's name is what stands between the ends of its compose file's name |
| `StackNames.DefaultNames` | backend/internal/services/scanner.go:1728-1746 | the unnamed compose files are the default stack's |
| `StackNames.EnvFileChosen` | backend/internal/services/scanner.go:1748-1785 | a named stack takes its own env file if it is there, and else the default one if that is |
| `StackNames.OverridesAreSkipped` | backend/internal/services/scanner.go:1616-1622 | no override file makes a stack, whatever its name begins with |
| `StackNames.RolesNeverCross` | backend/internal/services/scanner.go:1700-1785 | no compose file name is an env file name, and each is one path component |
| `StackFiles.WellNamedNeverCross` | backend/internal/handlers/stack_crud.go:842-868 | among rows named by their writers no name to remove is another stack's file of the other kind |
| `StackDelete.Host.Scan` | backend/internal/services/scanner.go:1596-1692 | the scanner's row is well named and its folder registered |
| `StackDelete.Host.UpsertCreated` | backend/internal/handlers/stack_crud.go:186-247 | a create's row is well named |
| `StackDelete.Host.SetStackEnvFileIfUnset` | backend/internal/database/stacks.go:162-177 | one column of one row, only when it has no env file, and the row stays well named |
| `StackFiles.OneOfThree` | backend/internal/handlers/stack_crud.go:667-727 | once every folder resolves, another stack is exactly one of survivor, nested and outside |
| `StackDelete.Host.ListSurvivors` | backend/internal/handlers/stack_crud.go:667-727 | lists exactly the survivors and exactly the nested stacks, each once; fails exactly when a query does or a folder cannot be resolved, naming its stack |
| `StackFiles.SurvivorKeepsFilesUnlessCrossed` | backend/internal/handlers/stack_crud.go:842-868 | the names to remove include one of a survivor's if and only if names cross and no survivor uses that name in its own role |
| `StackFiles.SparedExactlyWhenClear` | backend/internal/handlers/stack_crud.go:816-868 | a stack's compose and env files read as before if and only if nothing they are read through has gone |
| `StackFiles.RemovalSparesExactly` | backend/internal/handlers/stack_crud.go:816-868 | the same decided before the removal: a stack clear of what is doomed is spared, and after a success no other is |
| `StackFiles.PlainStackIsClear` | backend/internal/handlers/stack_crud.go:816-868 | a well-named stack without links is clear of every removal, sharing the folder or not, unless the deleted folder has become a file |
| `DeleteWitnesses.FolderThatIsAFileIsLost` | backend/internal/handlers/stack_crud.go:816-828 | the witness: a folder that has become another stack's compose file takes that file along |
| `DeleteWitnesses.SharedFolderHost` | backend/internal/handlers/stack_crud.go:842-856 | a concrete host of the first kind, with names the scanner registers |
| `DeleteWitnesses.OtherFolderHost` | backend/internal/handlers/stack_crud.go:816-828 | a concrete host of the second kind |
| `DeleteWitnesses.LinkedFolderHost` | backend/internal/handlers/stack_crud.go:694-727 | a concrete host of the third kind |
| `DeleteWitnesses.FileForFolderHost` | backend/internal/handlers/stack_crud.go:816-828 | a concrete host of the fourth kind |
| `StackFiles.SecondIsAtHome` | backend/internal/handlers/stack_crud.go:842-856 | the second name is removed where the first was or not at all, even when the first was a link on the folder's own path |
| `DeleteWitnesses.SharedFolderCostsLinkedEnv` | backend/internal/handlers/stack_crud.go:842-856 | the witness: in a shared folder, an env file that is a link to the deleted stack's env file leads to nothing afterwards |
| `DeleteWitnesses.WholeFolderCostsLinkedEnv` | backend/internal/handlers/stack_crud.go:816-828 | the witness: an env file in another folder that is a link to the deleted stack's leads to nothing afterwards |
| `DeleteWitnesses.WholeFolderCostsPath` | backend/internal/handlers/stack_crud.go:694-727 | the witness: a stack registered through a link inside the deleted folder is outside it once resolved, and its files cannot be reached by its path afterwards |
| `StackDelete.Host.RemoveAll` | backend/internal/handlers/stack_crud.go:826-828 | all of the entry, a link as the link and a folder with what is under it, or part of that when it fails, folders last |
| `StackDelete.Host.RemoveStackFile` | backend/internal/handlers/stack_crud.go:870-890 | the entry of one name goes, a link as the link, unless it is a folder that holds something; an absent name is no error |
| `StackDelete.Host.RemoveStackFiles` | backend/internal/handlers/stack_crud.go:788-856 | exactly the doomed entries go when it succeeds and none but those when it fails; without a fault it succeeds exactly when every folder resolves and no name to remove is a folder that holds something; one unresolvable folder and nothing at all goes |
| `StackDelete.Host.Preflight` | backend/internal/handlers/stack_crud.go:455-580 | a delete goes ahead exactly when it is inside a root, every folder resolves, and the folder is shared or else holds no nested stack and nothing unconfirmed |
| `StackDelete.CollateralNames` | backend/internal/handlers/stack_crud.go:770-793 | the collateral is every entry of the resolved folder but the two of the stack's own names |
| `StackDelete.InsideRootIs` | backend/internal/handlers/stack_crud.go:406-416 | among real folders, inside the root means below it at any depth, and never the root itself |
| `StackDelete.InsideIsUnder` | backend/internal/handlers/stack_crud.go:406-416 | if no link has changed since the guard was checked and the parent folder was there then, everything removed is strictly under the root it matched |
| `StackDelete.DeletedHasParent` | backend/internal/handlers/stack_crud.go:550-580 | a delete that goes ahead has its folder's parent there, unless the folder is shared |
| `StackDelete.Host.DeleteDirectoryIfOrphaned` | backend/internal/database/stacks.go:127-154 | a folder row goes exactly when no stack row is in it |
| `StackDelete.Host.DeleteUnderLock` | backend/internal/handlers/stack_crud.go:605-641 | files, row and folder row in that order; no other stack's row goes |
| `StackDelete.Host.Delete` | backend/internal/handlers/stack_crud.go:418-665 | refused exactly as the checks say, with nothing touched; otherwise, whatever changed while the containers went down, no row of another stack goes, its files read as before if and only if they are clear of what is doomed, and always when it has no links; what goes is under a configured root unless a link changed; without a fault the stack, its files and its orphaned folder row do go |
| `StackCreate.StepKeepsInv` | backend/internal/handlers/stack_crud.go:97-280 | every step of every create, with any call failing, keeps the lock, the folders and the rows in order |
| `StackCreate.CreatedKeepsItsFile` | backend/internal/handlers/stack_crud.go:97-199 | in every interleaving a create that has written its row has its own compose file on disk, and keeps it if and only if no later create of that stack writes after its existence check failed on the folder |
| `StackCreate.StatFaultCostsTheFile` | backend/internal/handlers/stack_crud.go:136-199 | the witness: after a stat fault a second create replaces the first one's file, or removes its folder |
| `StackCreate.ExistingFolderIsRefused` | backend/internal/handlers/stack_crud.go:136-144 | a create whose existence check has an answer is refused on an existing folder and writes nothing |
| `StackCreate.FailedCreateLeavesNothing` | backend/internal/handlers/stack_crud.go:178-274 | a failing create whose rollback gets through leaves no folder, no lock and no row of its own |
| `StackCreate.OnlyOwnInsertIsUndone` | backend/internal/handlers/stack_crud.go:228-280 | a stack row is lost if and only if a failing create undoes a folder row that it inserted itself and the stack is in that folder, and then the row came after that insert |
| `StackCreate.RollbackTakesAnothersRow` | backend/internal/handlers/stack_crud.go:228-280 | the witness: another stack registered between the insert and the rollback loses its row |
| `OperationLock.Lock.Acquire` | backend/internal/services/operation_lock.go:87-108 | succeeds exactly when nobody holds the stack or everything, with a token never held before |
| `OperationLock.Lock.AcquireExclusive` | backend/internal/services/operation_lock.go:114-145 | succeeds exactly when nobody holds anything |
| `OperationLock.Lock.Release` | backend/internal/services/operation_lock.go:160-173 | only the holder's token frees the stack |
| `OperationLock.Releaser.Call` | backend/internal/handlers/operation_lock.go:14-28 | the first call frees the stack, and a later one leaves alone whoever holds it by then |
| `StreamingOperation.DrainStop` | backend/internal/handlers/operations.go:220-243 | the stop phase is drained to the end and its successful done frame is not forwarded |
| `StreamingOperation.DrainMain` | backend/internal/handlers/operations.go:253-262 | the main phase is drained to the end whether or not the client is there |
| `StreamingOperation.StreamBody` | backend/internal/handlers/operations.go:144-265 | whenever the client leaves it got the full run up to then, and all of it if it stays; every process is drained, and the log row is the run's own |
| `StreamingOperation.HandleOperation` | backend/internal/handlers/operations.go:106-268 | whatever others do to the lock meanwhile, the stack is this request's until the first release, which frees it and nothing else; the second leaves a later holder alone |
| `StreamingOperation.RunHasOneResultLast` | backend/internal/handlers/operations.go:220-262 | a run, a restart included, sends at most one done frame and sends it last |
| `StreamingOperation.PrefixHasOneResultLast` | backend/internal/handlers/operations.go:151-267 | what a leaving client got holds at most one done frame, last |
| `StreamingOperation.SeenResultIsLogged` | backend/internal/handlers/operations.go:269-284 | the done frame a client sees is the outcome that is logged |
| `StreamingOperation.LoggedOutcome` | backend/internal/handlers/operations.go:269-284 | the logged outcome is the one sent, and "failed" when none was |
| `EventBus.Bus.Unsubscribe` | backend/internal/handlers/monitoring.go:282-287 | out of the map first and closed after, so that the map holds open channels only |
| `EventBus.Bus.Broadcast` | backend/internal/handlers/monitoring.go:289-299 | every subscriber with room gets the event, a full one misses it, nobody else is touched |
| `EventBus.NeverSendsOnClosed` | backend/internal/handlers/monitoring.go:265-299 | no interleaving of subscribes, unsubscribes and broadcasts sends on a closed channel |
| `EventBus.SendDelivers` | backend/internal/handlers/monitoring.go:289-299 | one send goes to the end of the buffer if there is room, is dropped if not, and changes nothing else |
| `EventBus.ReceivedInOrderOnce` | backend/internal/handlers/monitoring.go:289-299 | in every interleaving buffers stay within capacity and what a subscriber gets is a subsequence of what was sent to it, no broadcast twice |
| `EventBus.BroadcastNeverBlocks` | backend/internal/handlers/monitoring.go:289-299 | a broadcast that has begun visits its channels by its own steps alone, however full the buffers are |
| `EventBus.BroadcastFinishes` | backend/internal/handlers/monitoring.go:275-299 | from every reachable state a broadcast begins once the present writer has taken its own last steps, reaches every channel in the map and ends |
| `EventBus.SubscriberGetsInAndOut` | backend/internal/handlers/monitoring.go:276-287 | when nobody holds the lock a subscriber gets in, and out again with its channel closed, by its own steps |
| `BackupSchedule.BackupService.StartScheduler` | backend/internal/services/backup.go:381-413 | starts what is stored, and refuses and stays stopped exactly when a key cannot be read |
| `BackupSchedule.BackupService.UpdateSettings` | backend/internal/handlers/backup.go:542-561 | a save that changes the schedule restarts the scheduler from what it stored |
| `BackupSchedule.StepKeepsInv` | backend/internal/handlers/backup.go:67-73 | whatever interleaves, a restart that will read the stored schedule is due, or under way with what is stored, or done |
| `BackupSchedule.RunningMatchesStored` | backend/internal/handlers/backup.go:542-561 | once any number of interleaved saves have finished, the running schedule is the stored one, unless the last start could not read it and refused |
| `BackupSchedule.RestartGetsThrough` | backend/internal/handlers/backup.go:542-561 | a save whose turn it is stops the scheduler, starts it as stored, and lets the next one in |
| `BackupSchedule.RefusedRestartGetsThrough` | backend/internal/services/backup.go:381-400 | one that cannot read a key leaves the scheduler stopped, says so, and lets the next one in |
| `BackupSchedule.SaveWrites` | backend/internal/handlers/backup.go:542-561 | a save's transaction stores the whole schedule or nothing, and touches neither the lock nor the running schedule |
| `ScanInterval.Settings.UpdateScanInterval` | backend/internal/handlers/settings.go:772-838 | one save: a fault leaves stored and running interval as they were, and only a change puts a scanner that is out of step back in step |
| `ScanInterval.RunningMatchesStored` | backend/internal/handlers/settings.go:772-838 | from any start, whenever scanIntervalMu is free the running interval is the stored one if and only if it was at the start or a save has committed a change |
| `ScanInterval.SaveGetsThrough` | backend/internal/handlers/settings.go:772-838 | a save whose turn it is stores its interval, restarts or stops the scanner on a change, and lets the next one in |
| `ScanInterval.FailedSaveGetsThrough` | backend/internal/handlers/settings.go:772-838 | a save that fails changes neither interval and lets the next save in |
| `ScanInterval.SameIntervalNeverRestarts` | backend/internal/handlers/settings.go:823-829 | the witness: a scanner left off at boot is not started by saving the same interval again |

## Left out

- Timestamps.ReadRfc3339: the strict grammar of RFC 3339 section 5.6 without leap seconds; the few other spellings Go's parser lets through (a comma before the fraction, a one-digit hour) are taken as uninterpretable.
- Timestamps.ToUpper: upper-cases ASCII letters only; no other character upper-cases into one the grammar uses.
- StoredInstants.StoredInstant: instants outside years 0 to 9999 have no fixed-width text and are required not to occur.
- StoredInstants.Respelled: SQLite's strftime is a parameter; that it converts RFC 3339 text to the stored spelling of the same instant is its own contract.
- Retention.Cutoff: a cutoff before year 0000 is no cutoff here; SQLite gives NULL or a text that begins with "-", below every canonical row.
- Retention.History.PruneHistory: the action log's cutoff, the same time of day so many days ago in the server's zone, is a parameter, because it depends on zone data.
- Retention.YoungActionsSurvive: a setting of seven days gives a cutoff later than seven days ago when the clocks went forward meanwhile, by as much as they did; and a setting above 106,751,991,167,300 days, whose seconds do not fit in 63 bits, can wrap around to a cutoff in the future.
- EnvFile.ParseEnvFile: strings are Unicode scalar values, so invalid UTF-8 in an env file is not represented; the derived `sensitive` hint of an entry is not modelled.
- Relational.Database.Apply: column defaults, indexes and column types are not modelled; the rebuilds list every column.
- MigrationRunner.Database.Boot: what each of the 25 scripts does is a parameter; the rebuilds among them are modelled in BackupRebuilds.
- StackIds.Database.MigrateStackIds: the other columns that hold stack ids (auto-update policies, backup items) are not touched by the source and are not modelled.
- Secrets.SecretStore.ReencryptSecrets: the compare-and-swap never loses here, because nothing else writes inside the transaction.
- AtomicWrite.FileSystem.RenameIntoPlace: a crash keeps the calls already made, in order; the reordering of renames by a power loss is not modelled (the folder is not synced).
- ComposeSave.PutComposeAndEnv: requires that the two names lead to different files, which the source takes for granted; linting, password confirmation and path containment come before it and are left out.
- StackDelete.Host.RemoveStackFiles: link targets are cleaned absolute paths; modes, and writes by others during the removal, are not modelled.
- StackDelete.Host.Delete: of `docker compose down` only its success is an input, and so is what else happened meanwhile; the collateral is a set, without the order it is listed in. When the folder's parent did not exist at the guard, which only a stack that shares the folder gets past, nothing is promised about where it leads later.
- StackCreate.CreatedKeepsItsFile: deletes, edits and other processes, which also change a stack's folder, are not events here; the env file is only one more way for the step after the compose write to fail.
- StackCreate.OnlyOwnInsertIsUndone: scans are reduced to registering rows; their pruning of rows is not an event here.
- StreamingOperation.HandleOperation: authentication, the connection cap and the ping loop are left out; the log row is the outcome, reason and output only.
- EventBus.ReceivedInOrderOnce: each subscriber subscribes and unsubscribes once, as its handler does.
- BackupSchedule.RunningMatchesStored: the scheduler's shutdown latch is not modelled.
- ScanInterval.RunningMatchesStored: the apply timer and the other update settings are not modelled, nor a host without a scheduler.
- EventBus.BroadcastFinishes: that the scheduler lets the writer and the broadcast run is taken for granted; writers queueing ahead of a broadcast are not ordered.
- HTTP routing, JSON, status codes, audit rows, cookies, JWT and password hashing: plumbing with no hard invariant.
- Docker, restic, rclone and git themselves, and the cryptography: only their contracts are used.
- The dashboard, health, version and CORS handlers, single-column updates such as the push switch, and the frontend: easy members only.
