# Coire, verified models

Dafny models of the parts of Coire whose correctness is a law over all inputs or all histories, with
proofs of those laws. Each module names the file it models; nothing here depends on the original program.

- **Evaluation patches** (`Decimal`, `HunkHeader`, `HeaderGrammar`, `TextLines`, `Utf8`, `EditScript`, `Patch`,
  `PatchLaws`, `PatchTexts`, `PatchSpelling`, `PatchReversal`, `PatchReach`, `PatchSeams`, `PatchWitness`): the strict
  unified-diff applier, from text to text.
  Edit scripts have a meaning of their own; the two loops are proved to compute it, and drift, conservation,
  round trips, the exact condition for undoing a patch and the exact texts a patch can reach follow.
- **Upgrade and evaluation tables** (`Sql`, `Tables`, `UpgradeOperations`, `UpgradeHandovers`,
  `UpgradeRecoveries`, `EvaluationFence`): CHECK constraints in SQL's three-valued logic, UNIQUE slots and
  triggers, and what they guarantee over every history of row changes.
- **Benchmark queue** (`Benchmark`, `BenchmarkLaws`): the executor's transactions with a crash or an error
  possible between any two of them.
- **Studio cutover and activation** (`Fabric`, `Alias`, `Paths`, `Activation`): host scripts over explicit host state,
  where every command may fail before or after its effect and every observation may fail.
- **Bounded machines** (`Spool`, `Capture`, `Contamination`, `Search`): each against the unbounded or
  unindexed thing it stands for.
- **Flags and lifecycles** (`Verification`, `Calls`, `Runs`, `Credentials`, `Redaction`).

`dafny verify dfyconfig.toml` checks the whole project.

## Where the code is not what one would expect

- A patch cannot always be undone. Its reverse gives the fixture back exactly when no hunk states old start
  zero, which the code reads as one but never accepts as a new start, and the result splits into the lines it was
  joined from: a line without a break before another line, an empty last line, or a carriage return before a line
  feed stands against that (`PatchReversal.TextReversalIff`). Without bare carriage returns the same is decided by
  the fixture and the operations alone (`PatchSeams.SeamlessReversalIff`).
- Not every text has a patch to every other: a last line without a line break can only be removed by the last
  line of a patch (`PatchWitness.PatchExistsIff`).
- No terminal handover phase is final in the database: a row may leave it for any phase its consumed
  authority allows, of these only for terminal ones while another handover is unfinished
  (`UpgradeHandovers.NextPhases`, `UpgradeHandovers.CommittedMustWait`).
- Redaction does not touch keys, tuples, or lists directly inside a list (`Redaction.RedactIsCleanIff` and the
  lemmas beside it).
- The query beside the verification flag selects the row that last wrote the flag, at all times, exactly when run
  times advance (`Verification.SelectedIsLatestIff`); otherwise flag and selected row may disagree
  (`Verification.ClockMustAdvance`).
- Retiring an adapter clears its flag while its passed evaluation stays the latest (`Verification.VerifiedMeans`,
  `Verification.RetiredAfterPass`).
- A repeated case id that is hit makes the contamination scan raise instead of reporting
  (`Contamination.ReturnsIff`); its caller then reports the inputs as missing.
- A completed activation rollback leaves the `current` link with the absolute path of its resolved end. That is the
  original text only when it was an absolute path of names with no link on the way: not for a link to a link, for a
  path under a linked directory, or for a relative link (`Paths.NamesItsEndIff`). A stop that raises after taking
  effect leaves the service down with no rollback (`Activation.Node.Activate`).
- The fabric script approves the generated alias under a dotted mask too, which the alias script itself does not
  take for configured (`Alias.ApprovedIff`).
- The apply and repair actions of the fabric script are suspended at its command line; the model is of the
  functions behind them.
- A search whose hit has a path longer than 1024 characters raises (`Search.SearchWorkspace`).

## Assumptions

- Each command of the host scripts does what its name says or nothing; macOS may change anything but static
  host routes while a script sleeps or toggles the service, and non-static routes around any other command. A
  reliable host is one where no command or observation fails, asking for the service once restores the bridge at
  once, and macOS changes nothing else meanwhile; only the clauses that say so assume one. For the alias and the
  activation it is one where no step fails; `quiet` adds that nobody else changes the host.
- The benchmark queue has one executor and atomic commits; sequences within a run are the positions at which
  its placements were enqueued.
- SHA-256 is a function given as a parameter; `Contamination.HitMeans` alone assumes that it does not collide
  on the two inputs compared. Case folding and the spool's encoder are parameters too, the latter with a
  marker of at most 512 bytes. Clocks, identifiers and chunk boundaries are inputs.
- A database session that raises rolls its changes back.

## Model

| member | source | states |
|---|---|---|
| `HunkHeader.ParseOfPrint` | apps/coire-agent/src/coire_agent/evaluation_tasks.py:10-12 | a hunk header printed with any four numbers is read back as those numbers |
| `Decimal.ReadOfPrint` | apps/coire-agent/src/coire_agent/evaluation_tasks.py:10-12 | a decimal number followed by anything but a digit is read back, with the rest of the text left over |
| `Decimal.DigitIff` | apps/coire-agent/src/coire_agent/evaluation_tasks.py:10-12 | the ten digits one by one |
| `Decimal.ValueIs` | apps/coire-agent/src/coire_agent/evaluation_tasks.py:30-33 | a number is read digit by digit, leading zeros included |
| `HeaderGrammar.HeaderIff` | apps/coire-agent/src/coire_agent/evaluation_tasks.py:10-12 | a line is read as a header exactly when it is spelled as one: digits for both starts, digits after a comma for each count or none, in which case the count is one, and any text without a line feed behind the closing marker |
| `Patch.ApplyFixturePatch` | apps/coire-agent/src/coire_agent/evaluation_tasks.py:16-59 | on texts: the applier refuses a patch of more than 16384 bytes in UTF-8 and otherwise joins the lines the parsed patch means, or fails as it does; the two nested loops are proved against that |
| `Patch.ReplayHunk` | apps/coire-agent/src/coire_agent/evaluation_tasks.py:42-57 | the inner loop, from any cursor and text so far, hands over exactly what is owed to the outer loop, or fails |
| `Patch.ReplayOne` | apps/coire-agent/src/coire_agent/evaluation_tasks.py:27-57 | one turn of the outer loop checks a header and hands over what is owed after its hunk, or fails |
| `Patch.ReplayBody` | apps/coire-agent/src/coire_agent/evaluation_tasks.py:26-58 | the outer loop gives the replay of all hunks from the start of the source |
| `Patch.MatchHeader` | apps/coire-agent/src/coire_agent/evaluation_tasks.py:27-29 | a line is taken as a header exactly when the whole pattern matches it |
| `PatchSpelling.ReadOpIff` | apps/coire-agent/src/coire_agent/evaluation_tasks.py:43-49 | a line is an operation exactly when it is one of the three marks and the text |
| `PatchSpelling.ReadHeaderIff` | apps/coire-agent/src/coire_agent/evaluation_tasks.py:27-33 | a line of a body is a header exactly when the grammar spells it, with the numbers it spells |
| `PatchSpelling.AcceptedNamesOneFixture` | apps/coire-agent/src/coire_agent/evaluation_tasks.py:13-21 | an accepted patch begins with the two lines of one of the two fixtures, in full, and no others |
| `PatchSpelling.AppliedIff` | apps/coire-agent/src/coire_agent/evaluation_tasks.py:16-19 | a patch is applied exactly when its encoding has at most 16384 bytes and its hunks mean something |
| `PatchSpelling.SpelledTextApplies` | apps/coire-agent/src/coire_agent/evaluation_tasks.py:16-59 | any text that names either fixture and whose other lines read as given hunks gives what the hunks mean |
| `PatchSpelling.HeadingIsIgnored` | apps/coire-agent/src/coire_agent/evaluation_tasks.py:10-12 | counts may be left out, and free text behind the marker changes nothing |
| `PatchSpelling.LineIsAdded` | apps/coire-agent/src/coire_agent/evaluation_tasks.py:16-59 | a patch of the note with one count left out adds any line behind any other |
| `PatchSpelling.NoteIsPatched` | apps/coire-agent/tests/test_evaluation_runner.py:20 | the patch of the repository's own test gives the text it should |
| `Patch.ReplayOpsReads` | apps/coire-agent/src/coire_agent/evaluation_tasks.py:42-57 | reading a hunk line by line equals collecting its operations first and then checking contents and both counts |
| `Patch.MeaningOfHunk` | apps/coire-agent/src/coire_agent/evaluation_tasks.py:30-57 | the meaning of a patch splits at its first hunk into the untouched gap, the hunk and the meaning of the rest |
| `Patch.WalkIsMeaning` | apps/coire-agent/src/coire_agent/evaluation_tasks.py:26-58 | walking hunk by hunk gives the meaning of the whole script, errors included |
| `Patch.ReplayMeans` | apps/coire-agent/src/coire_agent/evaluation_tasks.py:26-58 | from every loop state, replaying the remaining lines equals the meaning of the hunks they parse to |
| `Patch.ReplayIsMeaning` | apps/coire-agent/src/coire_agent/evaluation_tasks.py:26-59 | the cursor-driven replay of a patch body equals its parse-then-denote meaning, errors included |
| `EditScript.DenoteKeeps` | apps/coire-agent/src/coire_agent/evaluation_tasks.py:36-58 | every source line outside the edits survives, at its place shifted by the growth of the edits before it |
| `EditScript.DenoteHolds` | apps/coire-agent/src/coire_agent/evaluation_tasks.py:42-58 | the new lines of every edit stand at that edit's shifted place |
| `EditScript.DenoteLength` | apps/coire-agent/src/coire_agent/evaluation_tasks.py:36-59 | the result is longer than the source by the sum of the edits' growth |
| `EditScript.DenoteIsOnlyRewrite` | apps/coire-agent/src/coire_agent/evaluation_tasks.py:26-59 | the line-by-line reading of a script (kept lines, new lines, length) is met by one text only, the script's denotation |
| `PatchLaws.ParseOfPrintPatch` | apps/coire-agent/src/coire_agent/evaluation_tasks.py:16-33 | any nonempty list of hunks survives printing as patch lines and parsing |
| `PatchLaws.ParseHunksInverse` | apps/coire-agent/src/coire_agent/evaluation_tasks.py:26-57 | parsing loses nothing but the spelling of the headers: the parsed hunks give the read lines back |
| `PatchLaws.AcceptedHunksStateOneScript` | apps/coire-agent/src/coire_agent/evaluation_tasks.py:26-59 | hunks are accepted if and only if they state an edit script of the source; they state no other, and the result is its denotation |
| `PatchLaws.HeadersAgreeIffDrift` | apps/coire-agent/src/coire_agent/evaluation_tasks.py:30-39 | the incremental position check is the closed law: each header states its own counts and its old start plus the net growth of all earlier hunks |
| `PatchLaws.AcceptedHunksConserve` | apps/coire-agent/src/coire_agent/evaluation_tasks.py:30-58 | an accepted patch keeps all lines outside its hunks, grows the text by the sum of its growths, and states drift-correct new starts |
| `PatchLaws.ZeroNewStartRefused` | apps/coire-agent/src/coire_agent/evaluation_tasks.py:30-39 | a header with new start zero is never accepted |
| `PatchLaws.ReversalIff` | apps/coire-agent/src/coire_agent/evaluation_tasks.py:26-58 | on lists of lines the reversed hunks give the source back if and only if no hunk states old start zero; otherwise they are refused |
| `TextLines.LinesOfJoinIff` | apps/coire-agent/src/coire_agent/evaluation_tasks.py:19-22 | joining a list of lines and splitting the text gives the list back exactly when every line is nonempty and uncut and every two neighbours are cut apart, for all line breaks Python knows |
| `TextLines.JoinOfLines` | apps/coire-agent/src/coire_agent/evaluation_tasks.py:22-59 | splitting a text and joining its lines gives the text back |
| `TextLines.CutIff` | apps/coire-agent/src/coire_agent/evaluation_tasks.py:19-22 | the ten line breaks one by one, with a carriage return and its line feed kept together |
| `Utf8.EncodeIsRead` | apps/coire-agent/src/coire_agent/evaluation_tasks.py:17 | each character can be read back from its bytes, and they are as many as the size limit counts |
| `Utf8.BytesAreEncoded` | apps/coire-agent/src/coire_agent/evaluation_tasks.py:17 | the size of a text is the length of its UTF-8 encoding |
| `Utf8.EncodingIsUnique` | apps/coire-agent/src/coire_agent/evaluation_tasks.py:17 | different texts have different encodings |
| `TextLines.FirstBadCut` | apps/coire-agent/src/coire_agent/evaluation_tasks.py:22-59 | where a badly cut list of pieces goes wrong: up to there the split of its text is the list, and there it holds a longer line or the piece is empty |
| `PatchTexts.PrintableIff` | apps/coire-agent/src/coire_agent/evaluation_tasks.py:19-21 | some text splits into the lines of given hunks exactly when every operation but the last line ends in a line break and none is cut inside |
| `PatchTexts.ParsedIsPrintable` | apps/coire-agent/src/coire_agent/evaluation_tasks.py:19-57 | the hunks of every patch text can be written as a text again |
| `PatchTexts.PatchTextApplies` | apps/coire-agent/src/coire_agent/evaluation_tasks.py:16-59 | writing printable hunks as a text and applying the text gives what the hunks mean |
| `PatchTexts.ScriptTextApplies` | apps/coire-agent/src/coire_agent/evaluation_tasks.py:16-59 | writing any ordered, in-bounds, non-overlapping edit script with printable lines as a patch text and applying it gives the joined denotation |
| `PatchReversal.TextReversalIff` | apps/coire-agent/src/coire_agent/evaluation_tasks.py:16-59 | for texts: the reversed patch text turns the result back into the fixture if and only if no hunk states old start zero and the result lines are cut where the result text is; with the size limit, if and only if the reversed text is also within it |
| `PatchReversal.BadCutDiffers` | apps/coire-agent/src/coire_agent/evaluation_tasks.py:22-59 | hunks that turn badly cut pieces into a fixture never turn the split of their text into it, whatever lines coincide |
| `PatchReversal.UnendedIsNotReversible` | apps/coire-agent/src/coire_agent/evaluation_tasks.py:26-59 | a patch with all old starts positive, on a fixture without a final line break, whose reverse is refused |
| `PatchReversal.ZeroStartIsNotReversible` | apps/coire-agent/src/coire_agent/evaluation_tasks.py:31-39 | an accepted patch with old start zero whose reverse is refused |
| `PatchSeams.WalkIsSeamlessIff` | apps/coire-agent/src/coire_agent/evaluation_tasks.py:26-59 | the result lines are all ended but the last exactly when nothing is inserted behind a last line without a break and a text inserted without one is nonempty and the last of all |
| `PatchSeams.SeamlessReversalIff` | apps/coire-agent/src/coire_agent/evaluation_tasks.py:16-59 | when no line ends in a carriage return alone, undoing a patch is decided by the fixture and the operations: it works if and only if no hunk states old start zero and the operations leave no seam |
| `PatchReach.PatchedIsReachable` | apps/coire-agent/src/coire_agent/evaluation_tasks.py:16-59 | whatever a patch gives is reachable: the fixture or the result ends in a line break, or the fixture's last line stands in the result at its start, after a break or at its end |
| `PatchWitness.ReachableHasPatch` | apps/coire-agent/src/coire_agent/evaluation_tasks.py:16-59 | every reachable text has a patch, of at most 16384 bytes when the bytes and the lines of fixture and text are at most 16286 together |
| `PatchWitness.PatchExistsIff` | apps/coire-agent/src/coire_agent/evaluation_tasks.py:16-59 | some patch turns a fixture into a target exactly when the target is reachable |
| `PatchWitness.PatchWithinLimitIff` | apps/coire-agent/src/coire_agent/evaluation_tasks.py:16-59 | the same with the size limit, for fixture and target whose bytes and lines are at most 16286 together |
| `PatchWitness.NoPatchFromTo` | apps/coire-agent/src/coire_agent/evaluation_tasks.py:16-59 | no patch turns `a` into `b` when neither ends in a line break |
| `Tables.RunConsistent` | apps/coire-api/src/coire_api/db.py:3122-3135 | in every state of every insert, update and delete history all rows pass their checks and no two break a unique constraint |
| `Tables.RunKeeps` | apps/coire-api/alembic/versions/0034_upgrades.py:136-168 | a row its triggers protect is never lost, and every later version is reachable from every earlier one, over whole histories |
| `UpgradeOperations.ChecksAreDecided` | apps/coire-api/src/coire_api/db.py:3122-3135 | no check is unknown under three-valued logic; the checks pass exactly on rows with a declared phase whose slot is held unless the phase is one of the four final ones, which are spelled out |
| `UpgradeOperations.ConflictsAre` | apps/coire-api/src/coire_api/db.py:3115-3135 | two rows conflict exactly on the generation, the slot or the request, and no trigger stands on the table |
| `UpgradeOperations.RequestsAreDistinct` | apps/coire-api/src/coire_api/db.py:3115-3121 | in every reachable table state no two operations share a generation or a request |
| `UpgradeOperations.OneActive` | apps/coire-api/src/coire_api/db.py:3099-3135 | in every reachable table state at most one operation is unfinished |
| `UpgradeHandovers.ChecksAreDecided` | apps/coire-api/src/coire_api/db.py:3332-3363 | no check is unknown; the checks pass exactly when slot, transfer and commit fit the phase, with the phases of each rule spelled out |
| `UpgradeHandovers.RulesProtect` | apps/coire-api/alembic/versions/0034_upgrades.py:136-168 | the trigger refuses deletion, any change of a frozen column and any change of a payload that is set, and nothing else; rows conflict exactly on the slot or the request |
| `UpgradeHandovers.AuthorityIsKept` | apps/coire-api/alembic/versions/0034_upgrades.py:136-168 | over all histories a handover is never lost, and a transfer or commit never changes once set and leaves only its seven or four phases, spelled out |
| `UpgradeHandovers.FailedUnchangedWasNeverTransferred` | apps/coire-api/src/coire_api/db.py:3332-3363 | a handover that failed unchanged had no transfer and no commit at any earlier time |
| `UpgradeHandovers.OneActive` | apps/coire-api/src/coire_api/db.py:3314-3331 | in every reachable table state at most one handover is unfinished |
| `UpgradeHandovers.RowMayTakeIff` | apps/coire-api/alembic/versions/0034_upgrades.py:136-168 | as far as the row itself decides, it may take a phase exactly when the phase is declared and its consumed authority allows it |
| `UpgradeHandovers.UpdateIsAcceptedIff` | apps/coire-api/src/coire_api/db.py:3314-3331 | an update is accepted by a consistent table exactly when the trigger lets it through, its checks pass, and the row is terminal or no other handover is unfinished |
| `UpgradeHandovers.NextPhases` | apps/coire-api/alembic/versions/0034_upgrades.py:136-168 | the phases a row of a consistent table may take next are exactly the declared ones its consumed authority allows, and while another handover is unfinished only the terminal ones of these; no terminal phase is final by itself |
| `UpgradeHandovers.CommittedMustWait` | apps/coire-api/src/coire_api/db.py:3314-3331 | two rows: a committed handover's own authority allows it to be restored, and no update to that is accepted while the other is unfinished |
| `UpgradeHandovers.CommittedAndAccepted` | apps/coire-api/src/coire_api/db.py:3314-3331 | a consistent table with two such rows |
| `UpgradeRecoveries.Checks` | apps/coire-api/src/coire_api/db.py:3168-3240 | no check of the recovery table is ever unknown, over all nullable columns and JSON values |
| `UpgradeRecoveries.CheckedMeans` | apps/coire-api/src/coire_api/db.py:3168-3240 | the three-valued checks pass if and only if the identity, warm, cold and end laws hold in two-valued logic, with every phase, key and literal spelled out |
| `UpgradeRecoveries.LanesAreExclusive` | apps/coire-api/src/coire_api/db.py:3168-3240 | a recovered row is cold without any warm authority or warm with all three warm claims; handback forces the cold lane, recovering and verifying the warm one; cancelled-unchanged rows hold no authority |
| `UpgradeRecoveries.RulesProtect` | apps/coire-api/src/coire_api/upgrades/recovery_schema_sql.py:3-5 | the trigger refuses deletion, any change of a frozen column and any change of one of the twelve payloads that is set, and nothing else; rows conflict exactly on the slot or the request |
| `UpgradeRecoveries.LaneIsPermanent` | apps/coire-api/src/coire_api/upgrades/recovery_schema_sql.py:3-5 | over all histories a cold claim rules the warm lane out for ever and warm authority rules the cold lane out for ever |
| `UpgradeRecoveries.CancelledUnchangedHadNoEffect` | apps/coire-api/src/coire_api/upgrades/recovery_schema_sql.py:3-5 | a recovery that ended unchanged held no authority and no resolution at any earlier time |
| `UpgradeRecoveries.CancellationIsKept` | apps/coire-api/src/coire_api/upgrades/recovery_schema_sql.py:3-5 | a recorded cancellation stays and confines every later phase |
| `UpgradeRecoveries.OneActive` | apps/coire-api/src/coire_api/db.py:3153-3240 | in every reachable table state at most one recovery is unfinished |
| `Sql.NotIsSound` | apps/coire-api/src/coire_api/db.py:3168-3240 | negation in three-valued logic: what holds however an unknown condition turns out |
| `Sql.AndIsSound` | apps/coire-api/src/coire_api/db.py:3168-3240 | the same for conjunction |
| `Sql.OrIsSound` | apps/coire-api/src/coire_api/db.py:3168-3240 | the same for disjunction |
| `Sql.FieldIff` | apps/coire-api/src/coire_api/db.py:3168-3240 | a field is found exactly in an object that has it |
| `Sql.FieldTextIff` | apps/coire-api/src/coire_api/db.py:3168-3240 | a comparison with a text is true of that text only, and unknown exactly on a missing or null field |
| `Sql.ComparisonsAre` | apps/coire-api/src/coire_api/db.py:3168-3240 | the other comparisons are unknown exactly when a side is |
| `EvaluationFence.StaleIffNotFenced` | apps/coire-api/alembic/versions/0032_evaluation_verbs.py:287-302 | the trigger lets a result in exactly when its run exists, owns the fence and ended in one of the four ways, and the result says which, NULLs included |
| `EvaluationFence.InsertIsAcceptedIff` | apps/coire-api/alembic/versions/0032_evaluation_verbs.py:287-302 | a new result is stored exactly when its run has none yet and it is fenced |
| `EvaluationFence.RunsMayChange` | apps/coire-api/alembic/versions/0032_evaluation_verbs.py:287-302 | no result constrains how runs change |
| `EvaluationFence.ResultIsImmutable` | apps/coire-api/alembic/versions/0032_evaluation_verbs.py:287-302 | a stored result is never changed or removed |
| `EvaluationFence.ResultWasFenced` | apps/coire-api/alembic/versions/0032_evaluation_verbs.py:287-302 | every stored result was inserted at one step at which its run's fence and outcome matched |
| `EvaluationFence.OneResultPerRun` | apps/coire-api/src/coire_api/db.py:2691-2700 | in every history a run has at most one result |
| `Benchmark.Executor.Next` | apps/coire-api/src/coire_api/benchmark_executor.py:68-93 | the loop over the listed rows returns a least eligible command, and nothing exactly when none is eligible |
| `Benchmark.EligibleIff` | apps/coire-api/src/coire_api/benchmark_executor.py:68-93 | a command may be dispatched exactly when it is pending or running and every earlier one of its run has succeeded |
| `Benchmark.MissingRunFails` | apps/coire-api/src/coire_api/benchmark_executor.py:95-204 | an attempt whose run is missing fails its command and records nothing |
| `Benchmark.Executor.Start` | apps/coire-api/src/coire_api/benchmark_executor.py:110-127 | the first transaction marks command and run running, or changes nothing when either is missing |
| `Benchmark.Executor.Record` | apps/coire-api/src/coire_api/benchmark_executor.py:131-184 | the second transaction stores the result, the command's success and the run's state together, or nothing |
| `Benchmark.Executor.Fail` | apps/coire-api/src/coire_api/benchmark_executor.py:186-204 | a failure marks the command and its run failed |
| `Benchmark.Executor.ExecuteSafely` | apps/coire-api/src/coire_api/benchmark_executor.py:95-108 | one call leaves one of the attempt outcomes, whatever crashed or raised inside it |
| `BenchmarkLaws.AttemptEffect` | apps/coire-api/src/coire_api/benchmark_executor.py:110-204 | the two transactions of an attempt compose to one move of the command, one run state and at most one result row |
| `BenchmarkLaws.MoveKeepsLaw` | apps/coire-api/src/coire_api/benchmark_executor.py:145-204 | moving a run's next command on keeps order, counts and run state in agreement |
| `BenchmarkLaws.InvAlways` | apps/coire-api/src/coire_api/benchmark_executor.py:68-204 | the queue invariant holds in every state of every history of enqueues, crashes, retries and failures |
| `BenchmarkLaws.EnqueueKeepsInv` | apps/coire-api/src/coire_api/routes/admin_sharding.py:101-131 | a newly created run with its commands keeps the invariant |
| `BenchmarkLaws.RecordedExactlyOnce` | apps/coire-api/src/coire_api/benchmark_executor.py:110-184 | in every reachable state a run has as many results as succeeded commands, these are a prefix in sequence order, it is completed iff all succeeded and failed iff one failed |
| `BenchmarkLaws.RowsInOrder` | apps/coire-api/src/coire_api/benchmark_executor.py:110-184 | every result row of every reachable state was added by a step that recorded a command of its run, with exactly as many commands of the run before it in sequence order as the run has rows before it |
| `BenchmarkLaws.SuccessIsFinal` | apps/coire-api/src/coire_api/benchmark_executor.py:68-184 | a succeeded command is never changed or eligible again, and results are only appended |
| `BenchmarkLaws.FailureIsIsolated` | apps/coire-api/src/coire_api/benchmark_executor.py:68-108 | after a failure no command of that run ever changes or is eligible again and the run stays failed |
| `BenchmarkLaws.OneEligible` | apps/coire-api/src/coire_api/benchmark_executor.py:68-93 | a run that is neither completed nor failed has exactly one eligible command |
| `BenchmarkLaws.NextExistsIff` | apps/coire-api/src/coire_api/benchmark_executor.py:68-93 | the queue has a next command exactly when some run is unfinished: a failed run never blocks another |
| `BenchmarkLaws.EnqueueIsStep` | apps/coire-api/src/coire_api/routes/admin_sharding.py:101-131 | a new run with new commands can always be enqueued, its commands numbered in the order given |
| `BenchmarkLaws.DispatchIsStep` | apps/coire-api/src/coire_api/benchmark_executor.py:95-204 | every ending of the dispatch of an eligible command is a step of a history |
| `BenchmarkLaws.EveryLiveRunCanComplete` | apps/coire-api/src/coire_api/benchmark_executor.py:68-204 | from every state of every history, whatever crashed before, a run that has not failed can still be completed |
| `Fabric.Host.Capture` | deploy/cluster/scripts/studio-rdma-fabric.py:94-124 | a captured baseline records exactly which of the two pinned routes exist, and the bridge serves as captured; on a reliable host a baseline is captured exactly when the bridge has one address, the interface is its member and has none, and the peer differs |
| `Fabric.ServesIff` | deploy/cluster/scripts/studio-rdma-fabric.py:192-208 | what the script takes for pinned, for serving directly and for serving by the bridge, spelled out |
| `Fabric.RecoveredIsCaptured` | deploy/cluster/scripts/studio-rdma-fabric.py:434-451 | once a captured state is recovered its static host routes are exactly the captured ones: none is lost and no route the script made remains |
| `Fabric.RecoveredFromAnyCut` | deploy/cluster/scripts/studio-rdma-fabric.py:434-451 | the same when a run was killed in any state it went through and a later restore completed |
| `Fabric.CapturedIsKept` | deploy/cluster/scripts/studio-rdma-fabric.py:258-307 | no run ever removes or changes a static host route of the captured state |
| `Fabric.MayDeleteIff` | deploy/cluster/scripts/studio-rdma-fabric.py:434-446 | the only routes that may ever be deleted are the two pins, each only if the baseline does not record it |
| `Fabric.Host.ReactivateSavedBridge` | deploy/cluster/scripts/studio-rdma-fabric.py:372-395 | if it returns the bridge serves the endpoint; off and on are both always issued; static routes are untouched in every state on the way |
| `Fabric.Host.RemoveTrialRoute` | deploy/cluster/scripts/studio-rdma-fabric.py:434-446 | a pinned route survives only if the baseline records it; no other destination changes |
| `Fabric.Host.Restore` | deploy/cluster/scripts/studio-rdma-fabric.py:434-451 | from any state at all: if it returns, the bridge serves the saved endpoint, no trial route remains, and the commands were exactly the removal of each trial route and of the direct address that stood there, then off and on; in every state on the way every other static route is kept and none is made; on a reliable host (as Fabric.Host defines it) with its service preserved it returns |
| `Fabric.Host.InstallLocalRoute` | deploy/cluster/scripts/studio-rdma-fabric.py:258-281 | if it returns the local route is pinned by the one command its route called for; a new static route is exactly that pin and every other is kept; on a reliable host it returns exactly when the route is absent or the script's to change |
| `Fabric.Host.ReplacePeerRoute` | deploy/cluster/scripts/studio-rdma-fabric.py:289-299 | a defective pin of an earlier trial is deleted and added anew; no other destination changes |
| `Fabric.Host.InstallPeerRoute` | deploy/cluster/scripts/studio-rdma-fabric.py:284-307 | the same for the peer route, with a defective pin deleted and added anew |
| `Fabric.Host.VerifyDirect` | deploy/cluster/scripts/studio-rdma-fabric.py:310-334 | it returns only after five good samples, with time between them, of the direct interface serving with both routes pinned and a neighbor that is not this host; on a reliable host exactly when it serves |
| `Fabric.Host.Cutover` | deploy/cluster/scripts/studio-rdma-fabric.py:127-148 | the four commands in order, or a nonempty beginning of them up to one that failed; when all succeed the bridge is down without address and member and the interface has the address; static routes are untouched in every state on the way |
| `Fabric.Host.PinAndVerify` | deploy/cluster/scripts/studio-rdma-fabric.py:454-464 | if it returns the direct endpoint is proved, with the interfaces as they were when it began until the script slept; baseline routes are kept in every state on the way; on a reliable host it returns exactly when both routes can be pinned and the neighbor is known and another host |
| `Fabric.Host.Apply` | deploy/cluster/scripts/studio-rdma-fabric.py:454-464 | it ends refused with the network unchanged, verified, rolled back to a recovered state, or stranded; verified means that a state on the way was cut over and served directly; on a reliable host exactly which of these it is, with the commands issued, and never stranded while the saved service is preserved; in every state on the way only the two pins are ever made and no baseline route is missing |
| `Fabric.Host.Trial` | deploy/cluster/scripts/studio-rdma-fabric.py:454-464 | capture and apply together: a run that is rolled back leaves the bridge serving as captured and exactly the captured static host routes; on a reliable host exactly when it is verified |
| `Fabric.Host.KilledTrial` | deploy/cluster/scripts/studio-rdma-fabric.py:434-464 | capture and apply killed in any state they pass through, then a restore after macOS had its time: if it completes, the bridge serves as captured and the static host routes are exactly the captured ones; on a reliable host with its service preserved it completes |
| `Fabric.Host.RepairPeerRoute` | deploy/cluster/scripts/studio-rdma-fabric.py:467-485 | the same four endings for the repair of the peer route, with baseline routes kept in every state on the way; on a reliable host exactly which |
| `Alias.AliasIs` | deploy/cluster/scripts/studio-rdma-alias.py:32-38 | the alias is the first or second host of the /30 with the digest's number modulo 16128 from 169.254.1.0 |
| `Alias.AliasesShareOneNetwork` | deploy/cluster/scripts/studio-rdma-alias.py:32-38 | for every digest the two addresses are distinct hosts of one /30 inside the usable range of section 2.1 of RFC 3927 |
| `Alias.ApprovedIff` | deploy/cluster/scripts/studio-rdma-fabric.py:523-534 | the fabric script approves exactly the interface the alias script takes for configured, and the same address under a dotted mask, which the alias script does not |
| `Alias.Machine.Load` | deploy/cluster/scripts/studio-rdma-alias.py:138-152 | only a baseline of this host, with its own alias and no direct address, is loaded |
| `Alias.Machine.Rollback` | deploy/cluster/scripts/studio-rdma-alias.py:155-166 | only the saved alias is removed, only when present; if it returns no IPv4 address is left and the captured facts hold; on a reliable host it returns exactly when the baseline is this host's, the facts are unchanged and nothing but the alias is there |
| `Alias.Machine.Watch` | deploy/cluster/scripts/studio-rdma-alias.py:83-98 | it returns only after five samples that each found the alias and the facts unchanged; on a quiet reliable host exactly when they are so |
| `Alias.Machine.Apply` | deploy/cluster/scripts/studio-rdma-alias.py:169-204 | the commands issued are none, the generated alias's add, or that add and its removal; a refusal changes nothing on the interface; a completed rollback leaves no address; on a quiet reliable host the alias is configured exactly when neither an address nor a baseline stood there |
| `Alias.Machine.Restore` | deploy/cluster/scripts/studio-rdma-alias.py:207-249 | an alias that was there is never touched; a removal is issued only after this run's own add; on a quiet reliable host exactly when the alias is configured |
| `Activation.ReplacedIff` | deploy/cluster/scripts/activate-training-node.py:43-77 | a service is replaced exactly when its label, survival policy, interpreter and node name are the expected ones and both images or neither are given, each pinned |
| `Activation.ReplacementPreserves` | deploy/cluster/scripts/activate-training-node.py:43-77 | a proposed service keeps every setting outside the environment and every variable outside the two or four named keys |
| `Activation.ReplacementSets` | deploy/cluster/scripts/activate-training-node.py:43-77 | the values of the named keys, spelled out |
| `Activation.Node.Install` | deploy/cluster/scripts/activate-training-node.py:191-218 | link, hostfile, plist and registration change in this order, or a beginning of it; on success all are new |
| `Activation.Node.Swap` | deploy/cluster/scripts/activate-training-node.py:180-218 | the same once the old registration is gone: cut anywhere, each of the three files is old or new |
| `Activation.Node.RollBack` | deploy/cluster/scripts/activate-training-node.py:219-240 | if it completes, plist, link, hostfile and registration were put back in this order, hostfile absence included |
| `Activation.Node.Activate` | deploy/cluster/scripts/activate-training-node.py:158-240 | all or nothing over plist, link and hostfile for every failure point, with the order of the changes; only a failed stop or an unfinished rollback can leave the service down; a completed rollback leaves the absolute path of the link's resolved end, which is the original text if and only if that was an absolute path of names with no link on the way; when no step fails the health checks decide between activated and rolled back |
| `Paths.WalkIsReal` | deploy/cluster/scripts/activate-training-node.py:162 | wherever resolution ends, neither the path nor a directory above it is a link |
| `Paths.RealIsWalked` | deploy/cluster/scripts/activate-training-node.py:162 | a path without links on the way is resolved to itself |
| `Paths.WalkFollows` | deploy/cluster/scripts/activate-training-node.py:162 | resolution ends where following the links step by step does, with parent directories and relative texts |
| `Paths.ResolveFollows` | deploy/cluster/scripts/activate-training-node.py:162 | the resolved end of a link is where its text leads |
| `Paths.NamesItsEndIff` | deploy/cluster/scripts/activate-training-node.py:162 | the text of a link is the absolute path of its resolved end exactly when it is an absolute path of names, without dots, and no link stands on the way to it |
| `Paths.LinkToLink` | deploy/cluster/scripts/activate-training-node.py:162 | a link to a link resolves to another path than its text |
| `Paths.LinkedDirectory` | deploy/cluster/scripts/activate-training-node.py:162 | so does a link to a plain directory under a linked one |
| `Paths.RelativeLink` | deploy/cluster/scripts/activate-training-node.py:162 | and a relative link, whose end its text does not spell |
| `Spool.KeepsSome` | apps/coire-agent/src/coire_agent/activity.py:83-115 | every list of receipts has a longest prefix whose members all had room when they came |
| `Spool.KeepsOnce` | apps/coire-agent/src/coire_agent/activity.py:83-115 | that prefix is unique |
| `Spool.KeptFits` | apps/coire-agent/src/coire_agent/activity.py:83-115 | the kept prefix always leaves the marker reserve and one record free |
| `Spool.LogWithinLimits` | apps/coire-agent/src/coire_agent/activity.py:69-115 | whatever is recorded, the file stays within both limits, marker included |
| `Spool.LineOf` | apps/coire-agent/src/coire_agent/activity.py:48-67 | the file is the encodings of the receipts numbered from one, each ended by a line feed |
| `Spool.RoomIff` | apps/coire-agent/src/coire_agent/activity.py:83-115 | a receipt has room exactly when one more record and 512 bytes are left behind it |
| `Spool.AllowedIff` | apps/coire-agent/src/coire_agent/activity.py:83-115 | which receipts a caller may record, and the marker |
| `Spool.ReceiptsAre` | apps/coire-agent/src/coire_agent/activity.py:117-149 | a step records its start, what its children record, and an end that says how it left |
| `Spool.ActivitySpool.Open` | apps/coire-agent/src/coire_agent/activity.py:30-46 | a spool opens exactly when its limits leave room for a marker |
| `Spool.ActivitySpool.Write` | apps/coire-agent/src/coire_agent/activity.py:48-67 | a payload is appended whole through partial writes, exactly when it fits |
| `Spool.ActivitySpool.Overflow` | apps/coire-agent/src/coire_agent/activity.py:69-81 | the first refused receipt writes exactly one marker, and that write never meets the byte limit |
| `Spool.ActivitySpool.Record` | apps/coire-agent/src/coire_agent/activity.py:83-115 | the file stays the encoding of the longest kept prefix and at most one final marker, numbered from one; nothing is written after it |
| `Spool.ActivitySpool.RecordAll` | apps/coire-agent/src/coire_agent/activity.py:83-115 | any run of receipts, each at its own time, leaves the file the unbounded list truncates to |
| `Spool.AllReceiptsAllowed` | apps/coire-agent/src/coire_agent/activity.py:117-149 | nothing that nested steps record is refused as not allowed |
| `Spool.StepsAreBracketed` | apps/coire-agent/src/coire_agent/activity.py:117-149 | nested and successive steps record a list well bracketed by call id, whatever fails in them |
| `Spool.SpooledSteps` | apps/coire-agent/src/coire_agent/activity.py:83-149 | the file of a run of steps is well bracketed, or a marker ends a prefix of a well bracketed list |
| `Capture.Drain` | apps/coire-agent/src/coire_agent/coding.py:206-247 | the read loop captures the same head, tail and truncation flag for every way of splitting the output into chunks |
| `Capture.ExtendCapture` | apps/coire-agent/src/coire_agent/coding.py:206-247 | extending a capture by a chunk is capturing the longer output |
| `Capture.OutputIff` | apps/coire-agent/src/coire_agent/coding.py:206-247 | there is an output exactly when the file ends before it is found oversized, and it is all that was read until then |
| `Capture.CaptureIsPrefixAndSuffix` | apps/coire-agent/src/coire_agent/coding.py:206-247 | head is the first cap bytes, tail the last 16384, and truncated holds exactly when head is not everything |
| `Credentials.MatchTransfers` | apps/coire-api/src/coire_api/audit.py:29-31 | whether text matches the credential pattern is decided by the matched text alone |
| `Credentials.MatchIff` | apps/coire-api/src/coire_api/audit.py:29-31 | the pattern matches with a length exactly when a key or a web token of that length stands there, both spelled out |
| `Credentials.WordIff` | apps/coire-api/src/coire_api/audit.py:29-31 | its character class by code points |
| `Credentials.SubstituteFirst` | apps/coire-api/src/coire_api/audit.py:34-36 | the text before the first credential is kept, that credential becomes the mark, and so on behind it |
| `Credentials.FreeIff` | apps/coire-api/src/coire_api/audit.py:34-36 | nothing looks like a credential exactly when none begins anywhere |
| `Credentials.SubstituteIsFree` | apps/coire-api/src/coire_api/audit.py:34-36 | substitution leaves no credential and creates none across the seams of the mark |
| `Credentials.SubstituteFixesFree` | apps/coire-api/src/coire_api/audit.py:34-36 | text without a credential is left alone |
| `Credentials.SafeIsFree` | apps/coire-api/src/coire_api/audit.py:34-36 | truncation and its ellipsis create no credential either |
| `Credentials.SafeIsCut` | apps/coire-api/src/coire_api/audit.py:34-36 | a safe string is the substituted one, cut after 500 characters with an ellipsis |
| `Credentials.SafeIsIdempotent` | apps/coire-api/src/coire_api/audit.py:34-36 | making a safe string safe again changes nothing |
| `Redaction.RedactDetail` | apps/coire-api/src/coire_api/audit.py:39-64 | the field-by-field loop computes the recursive redaction of nested objects and lists |
| `Redaction.SecretIff` | apps/coire-api/src/coire_api/audit.py:27 | a key names a secret exactly when one of the seven words stands in it, in any mixture of cases |
| `Redaction.FieldIs` | apps/coire-api/src/coire_api/audit.py:49-63 | a field keeps its key; under a secret one its value is the mark, under any other it is redacted |
| `Redaction.EveryText` | apps/coire-api/src/coire_api/audit.py:39-64 | every text of a tree is hidden, made safe or kept, as its place says, and nothing else happens to it |
| `Redaction.ItemKeyIsPlain` | apps/coire-api/src/coire_api/audit.py:52-62 | the key list items are redacted under names no secret itself |
| `Redaction.ItemIsField` | apps/coire-api/src/coire_api/audit.py:54-58 | a text or an object in a list becomes what redacting the single field with that key gives |
| `Redaction.RedactIsIdempotent` | apps/coire-api/src/coire_api/audit.py:39-64 | redacting twice is redacting once, for all trees |
| `Redaction.RedactKeepsShape` | apps/coire-api/src/coire_api/audit.py:39-64 | all keys, their order and the shape of everything not under a secret key are kept |
| `Redaction.RedactIsCleanIff` | apps/coire-api/src/coire_api/audit.py:39-64 | no key and no string of the result looks like a credential and nothing is kept under a secret key, exactly when all that redaction does not touch was so already: keys, tuples, and lists and tuples directly inside a list |
| `Redaction.InnerListEscapes` | apps/coire-api/src/coire_api/audit.py:52-58 | a list directly inside a list comes through unchanged, with the secret it holds |
| `Redaction.TupleEscapes` | apps/coire-api/src/coire_api/audit.py:52-63 | so does a tuple |
| `Redaction.KeyEscapes` | apps/coire-api/src/coire_api/audit.py:50-63 | so does every key that looks like a credential and names no secret |
| `Redaction.CredentialKey` | apps/coire-api/src/coire_api/audit.py:27-31 | such a key |
| `Verification.SelectedIsNewest` | apps/coire-api/src/coire_api/evaluations.py:234-244 | the query's row is newer, by time then id, than every other conclusive row about the variant |
| `Verification.LatestIff` | apps/coire-api/src/coire_api/evaluations.py:108-132 | the latest row about a subject is the last one with a verdict about it |
| `Verification.SelectedIsLatestIff` | apps/coire-api/src/coire_api/evaluations.py:225-245 | at every moment the query selects the row that last wrote the flag, if and only if the clock advances from each conclusive row to the next |
| `Verification.ClockMustAdvance` | apps/coire-api/src/coire_api/evaluations.py:225-245 | a concrete log with a clock that went back, where flag and query disagree |
| `Verification.RowKeepsAgreement` | apps/coire-api/src/coire_api/evaluations.py:108-132 | every flag stays the fold of the log: the latest conclusive row about that variant, or about that adapter while it is not retired; other rows never change it |
| `Verification.RowMeans` | apps/coire-api/src/coire_api/evaluations.py:108-132 | what a row does to the flags, verdict by verdict: an infrastructure error changes nothing |
| `Verification.VerifiedMeans` | apps/coire-api/src/coire_api/evaluations.py:117-128 | a verified adapter passed last; flag and latest verdict differ exactly for a retired adapter that passed last |
| `Verification.RetiredPassed` | apps/coire-api/src/coire_api/training/adapters.py:670 | a retired adapter that passed last and is not verified |
| `Verification.RetiredAfterPass` | apps/coire-api/src/coire_api/training/adapters.py:670 | the registry comes to that adapter: made, finished, passed and retired |
| `Verification.Registry.Finish` | apps/coire-api/src/coire_api/training/adapters.py:506-559 | an adapter becomes ready once, unverified, and all flags stay in agreement |
| `Verification.Registry.Retire` | apps/coire-api/src/coire_api/training/adapters.py:670 | retiring clears the flag, keeps the evaluation, and all flags stay in agreement |
| `Verification.Registry.Record` | apps/coire-api/src/coire_api/evaluations.py:78-132 | a refused record changes nothing; an accepted one appends one row and keeps all flags in agreement with the log |
| `Verification.Registry.VariantFlag` | apps/coire-api/src/coire_api/evaluations.py:225-245 | the flag holds exactly when the latest conclusive base evaluation passed |
| `Verification.Registry.AdapterFlag` | apps/coire-api/src/coire_api/evaluations.py:209-222 | the flag holds exactly when the target is exact, its adapter ready and the adapter's latest conclusive evaluation passed, and points to a passed evaluation of that same adapter |
| `Contamination.BuildIndex` | apps/coire-agent/src/coire_agent/evaluation_contamination.py:68-69 | the index lists, under each digest, exactly the ids of the cases with that digest |
| `Contamination.CollectHits` | apps/coire-agent/src/coire_agent/evaluation_contamination.py:70-80 | the collected ids are exactly those of cases some example hits; rows are counted and unsupported ones noticed |
| `Contamination.ScanInputs` | apps/coire-agent/src/coire_agent/evaluation_contamination.py:57-95 | the indexed scan answers what comparing every case with every example answers, or the validation error |
| `Contamination.ReportIsNaive` | apps/coire-agent/src/coire_agent/evaluation_contamination.py:81-95 | filtering fixtures by hit id and validating the report equals the direct comparison |
| `Contamination.ReturnedIsNaive` | apps/coire-agent/src/coire_agent/evaluation_contamination.py:57-95 | a report that is returned is the naive one, with no assumption on case ids |
| `Contamination.NaiveIs` | apps/coire-agent/src/coire_agent/evaluation_contamination.py:57-95 | that report case by case: unsupported examples and missing input are unavailable, otherwise the status follows the hits |
| `Contamination.HitIdsInOrder` | apps/coire-agent/src/coire_agent/evaluation_contamination.py:81-90 | the ids are those of the cases that are hit, all of them, in the order of the fixtures |
| `Contamination.UnsupportedIff` | apps/coire-agent/src/coire_agent/evaluation_contamination.py:27-39 | an example is unsupported exactly when it is a plain text or not supervised on its final answer |
| `Contamination.ReturnsIff` | packages/coire-core/src/coire_core/models/evaluation.py:310-337 | on supported examples a report is returned exactly when no hit case shares its id and the sizes fit |
| `Contamination.UnavailableIs` | apps/coire-agent/src/coire_agent/evaluation_contamination.py:57-95 | without input, or with an unsupported example, the report says so exactly when the sizes fit |
| `Contamination.ValidatedMeans` | packages/coire-core/src/coire_core/models/evaluation.py:310-337 | what every validated report says of itself, limits spelled out |
| `Contamination.RepeatedIdIsRefused` | packages/coire-core/src/coire_core/models/evaluation.py:323-330 | a concrete repeated id that is hit: the scan refuses |
| `Contamination.ScanIgnoresOrder` | apps/coire-agent/src/coire_agent/evaluation_contamination.py:73-80 | the result depends on the examples as a multiset only |
| `Contamination.HitMeans` | apps/coire-agent/src/coire_agent/evaluation_contamination.py:23-54 | without a collision, an example hits a case exactly when it offers no tools and asks that prompt and nothing else before its target |
| `Contamination.HitIgnoresTarget` | apps/coire-agent/src/coire_agent/evaluation_contamination.py:27-39 | the supervised target, message ids and metadata never decide a hit |
| `Calls.CallRow.Bind` | apps/coire-api/src/coire_api/runs.py:114-122 | creating a run binds it to the call it was prepared for, exactly when the call is accepted, unbound and matching; otherwise nothing changes |
| `Calls.CallRow.Attach` | apps/coire-api/src/coire_api/mcp_calls.py:104-109 | a run is bound only to an unbound call that is accepted or preparing; otherwise nothing changes |
| `Calls.CallRow.Store` | apps/coire-api/src/coire_api/mcp_calls.py:112-141 | a result is stored only on a live call, for its own run and tool, and drops the visual inputs |
| `Calls.CallRow.Fail` | apps/coire-api/src/coire_api/mcp_calls.py:144-156 | any call but a succeeded one ends in the given failure state; otherwise nothing changes |
| `Calls.CreatedIs` | apps/coire-api/src/coire_api/coding_calls.py:66-86 | a new call is accepted, bound to no run, and holds its visual inputs |
| `Calls.AttachedIff` | apps/coire-api/src/coire_api/mcp_calls.py:104-109 | when a run is attached, and all it changes |
| `Calls.StoredIff` | apps/coire-api/src/coire_api/mcp_calls.py:112-141 | when a result is stored, and all it changes |
| `Calls.FailedIff` | apps/coire-api/src/coire_api/mcp_calls.py:144-156 | when a call fails, and all it changes, the code cut after sixty-four characters |
| `Calls.CallsAreLawful` | apps/coire-api/src/coire_api/mcp_calls.py:104-156 | over any interleaving a result is present exactly on succeeded calls and matches tool and run, ended calls keep no visual inputs, and a failure code stands exactly on failed calls |
| `Calls.CallsAreMonotone` | apps/coire-api/src/coire_api/mcp_calls.py:104-156 | a succeeded call is frozen, a run binding is written at most once, and an ended call never lives again |
| `Calls.ResultIsReadableIff` | apps/coire-api/src/coire_api/mcp_calls.py:159-178 | in every history a result can be read exactly on a succeeded call, as its own tool, and belongs to the call's run |
| `Runs.RunRow.Transition` | apps/coire-api/src/coire_api/runs.py:391-417 | a step is taken and logged exactly when the run is not terminal and a pending kill only ends in a kill |
| `Runs.RunRow.RequestKill` | apps/coire-api/src/coire_api/coding_calls.py:92-142 | the owner's kill, with its answer and the whole row after it |
| `Runs.RunRow.KillAsAdmin` | apps/coire-api/src/coire_api/routes/admin_runs.py:56-87 | the administrator's kill: no effect on a run that is ending or ended |
| `Runs.RunRow.StopForEvaluation` | apps/coire-api/src/coire_api/evaluation/execution.py:127-140 | an evaluation's stop revokes first and requests the kill of a live run |
| `Runs.RunRow.CommitPlacement` | apps/coire-api/src/coire_scheduler/runs.py:214-252 | a run is placed at most once, never after a kill request and only while admitted; the answer says whether it needs no further placement |
| `Runs.OwnerKills` | apps/coire-api/src/coire_api/coding_calls.py:92-142 | the owner's kill of a live run, field by field: a placed run waits and its node is told, an unplaced one is killed |
| `Runs.OthersKillNothing` | apps/coire-api/src/coire_api/coding_calls.py:101-110 | nobody else's kill and no kill of an ended run changes anything |
| `Runs.AdministratorKills` | apps/coire-api/src/coire_api/routes/admin_runs.py:56-87 | the administrator's kill, field by field |
| `Runs.EvaluationStops` | apps/coire-api/src/coire_api/evaluation/execution.py:127-140 | the stop of an evaluation, field by field |
| `Runs.KillReachesNode` | apps/coire-api/src/coire_api/coding_calls.py:114-127 | once a placed run is killed the command to its node is there for ever |
| `Runs.SchedulerSteps` | apps/coire-api/src/coire_scheduler/runs.py:150-252 | what the scheduler may do: never a kill of its own, one placement, and only kill and removal while a kill is requested |
| `Runs.AcceptedIff` | apps/coire-api/src/coire_api/run_tokens.py:131-136 | when a token is accepted, as far as the run decides it |
| `Runs.InvAlways` | apps/coire-api/src/coire_api/coding_calls.py:92-142 | token, command, placement and log agree in every state of every interleaving of kills, scheduler and executor steps |
| `Runs.KillCommandMeansRevoked` | apps/coire-api/src/coire_api/coding_calls.py:111-127 | a kill command stands only on a placed run whose kill was requested, with its token revoked while the kill is pending |
| `Runs.KillIsFinal` | apps/coire-api/src/coire_api/runs.py:391-417 | terminal runs keep state and log, a requested kill ends only in a kill, and no command, placement or log row is lost |
| `Runs.KilledTokenIsDead` | apps/coire-api/src/coire_api/run_tokens.py:131-136 | after its owner's kill request a run's token is never accepted again, even if the executor rotates it later |
| `Runs.KillIsIdempotent` | apps/coire-api/src/coire_api/coding_calls.py:92-142 | a repeated kill gives the same answer and changes nothing but the time it was asked at |
| `Runs.KillKeepsCommands` | apps/coire-api/src/coire_api/coding_calls.py:114-127 | a kill adds at most the one kill command, with the token revoked, and never touches an existing command |
| `Runs.LogIsOnePath` | apps/coire-api/src/coire_api/runs.py:391-417 | the transition rows form one unbroken path: the first leads from nothing to queued, each other begins where the last ended, the last ends at the present state, and each step is allowed |
| `Search.SearchWorkspace` | apps/coire-agent/src/coire_agent/coding.py:121-136 | the nested loops return the first 128 matching lines in walk order, or the error of a bad query or an uncitable path |
| `Search.SearchLines` | apps/coire-agent/src/coire_agent/coding.py:131-135 | one file's loop appends its matching lines until the cap |
| `Search.FoundIs` | apps/coire-agent/src/coire_agent/coding.py:121-136 | the answer is the first 128 matching lines, each cited once, in walk order, and nothing but matching lines; the limits on query and path are spelled out |
| `Search.StripSplits` | apps/coire-agent/src/coire_agent/coding.py:121-136 | stripping takes exactly the blanks off both ends |
| `Search.ValidIff` | apps/coire-agent/src/coire_agent/coding.py:138-146 | a citation is valid exactly when its file can be read, has the line, and the line holds the stripped excerpt |
| `Search.SpaceIff` | apps/coire-agent/src/coire_agent/coding.py:121-136 | those blanks by code points |
| `Search.FoundIsValid` | apps/coire-agent/src/coire_agent/coding.py:138-146 | every citation a search returns passes validation on the same workspace |
| `Search.FoundIsComplete` | apps/coire-agent/src/coire_agent/coding.py:121-136 | below the cap every matching line of every readable file is cited |

## Left out

- Unicode digits other than ASCII in hunk headers, which the code's pattern also reads as numbers, and patches with lone surrogates, which cannot be encoded and are refused.
- PatchWitness.PatchWithinLimitIff: is stated for fixture and target whose bytes and lines are at most 16286 together; beyond that only one half is proved, that whatever is reached is reachable, because the shortest patch of two long texts has no closed form.
- Patch.ApplyFixturePatch: does not model Python's limit of 4300 digits on numbers read from text: the code refuses a header with a longer number, which in the model may still be a small one behind leading zeros.
- PatchSeams.SeamlessReversalIff: is stated for texts in which no line ends in a carriage return alone; PatchReversal.TextReversalIff covers the others.
- `_assert` and `score_case`, and the runs of model-written code they score.
- Foreign keys, column types and lengths of the upgrade and evaluation tables; the constraints of `evaluation_runs`.
- The succession tables beside recoveries, whose triggers refuse every change.
- `recover_unaddressed_bridge`, hostfile generation, parsing of `ifconfig`, `route` and `ibv_devinfo` output, ARP priming, and the subnet checks of a snapshot, which enter as one flag.
- Spool.ActivitySpool.Open: does not model a spool file that exists already, because the laws are about what one spool writes.
- Spool.ActivitySpool.Write: does not model operating system errors in a write, which raise to the caller.
- Alias.Machine.Apply: does not model a baseline file that was cut off while it was written.
- Activation.Node.Activate: does not say whether an unfinished rollback leaves the service up, because any of its two service commands may have taken effect; file contents are opaque values.
- Activation.ReplacementPreserves: takes the image digest validator as a parameter.
- BenchmarkLaws.InvAlways: has no step that deletes a node, which in the database removes the commands of that node with it.
- Benchmark.Executor.Record: does not model a commit whose outcome the executor never learns.
- Verification.Registry.Record: takes the model and digest checks of an exact target as one flag; the adapter's readiness is modelled.
- Verification.Registry.VariantFlag: leaves out the check of the evaluated harness runtime against the node, which reads settings and node state.
- Verification.Registry.AdapterFlag: leaves out the same check, and takes the model and digest checks of an exact target as one flag.
- Verification.Registry.Finish: takes the checks of artifact, copies and reserved generation as one flag.
- Verification.Registry.Retire: takes the version and pinning checks as one flag, and leaves out the draining of instances.
- Runs.RunRow.CommitPlacement: takes maintenance and write qualification as two flags.
- Redaction.RedactDetail: models keys as strings, and lower-casing only as far as the secret hints can see it.
- Contamination.ScanInputs: leaves out the replay of sampler cursors that selects the consumed examples, and the turning of a validation error into an unavailable report.
- Runs.RunRow.RequestKill: leaves out the audit row and the reason text; ownership of a call is an identifier comparison.
- Runs.InvAlways: executor checks that only narrow when a token is rotated or a command advances are dropped, so the law covers more histories than the code has.
- Calls: creation limits on the task text, and the owner lookup.
- Search.SearchWorkspace: takes the directory walk and each file's lines as the workspace; unsafe, oversized and undecodable files are one refused kind; a file name that is not UTF-8, which no citation can hold, is left out.
- `CodingWorkspace.context`, dataset mixtures and samplers, other migrations, HTTP routes, authentication, the console, the Go launcher and deployment scripts: plumbing, or easy members only.
