# Neon test tooling: a verified model

This project models the local algorithms of the Neon EVM test repository and proves what they promise. It has
three parts.

**Shared state.** Test workers share an error log and cost report files through a file lock; threads of the
OpenZeppelin run share a list of key sets; wrapped load-test calls share an event buffer. Each is a state
machine: a `Step` is one atomic action of one worker, `Run` takes any list of steps, and every theorem quantifies
over all lists of steps and any number of workers. `LockedFile` is the common lock protocol; `ErrorLog` and
`StatsCollector` instantiate it. The same operations appear as classes whose methods change their fields.

**Bytes.** `Construct` gives a deep embedding of the declarative codecs (`Format`, `Build`, `Parse`), with one
round-trip theorem for every format, value and trailing bytes, and its converse. `Metaplex`, `Holder` and
`Instructions` declare the repository's layouts in it; their bytes are also written out, for the metadata structs in
`MetaplexBytes` as the Borsh encoding of typed records. `Holder` also has the upload of a transaction in 920-byte
parts that the network may apply in any order, and the reader.

**Cost reports.** `ActionNames` numbers repeated actions and splits the numbers off again through a backtracking
regular expression; `ResultsDb` saves reports and replaces old ones, commit by commit; `Tags` and `History` choose
the reports of a comparison; `Plots` pads, fills, bounds and labels a plotted series; `ReportSeries` follows the data
from recorded actions to plotted rows across all of these. `RawTx` and `CamelCase` build EIP-1559 transaction
parameters. `Lists`, `Characters` and `Wrappers` are helpers.

Assumptions, all explicit in the model:

- One `write_text` of a file is one atomic step, and in the interleaved runs the file's directory exists. A file
  lock excludes other workers, whether they are processes or threads. One `pop` or `append` of a shared list is
  atomic, and so is one access to the event buffer; `uuid4` gives fresh ids.
- The on-chain program is an environment contract (`Holder.Execute`): it copies the payload at its offset, moves
  `len` to the largest end written, starts `len` again on a new hash, and refuses an end past 64 bits or past the
  account. Nothing else of the program is modelled. Hashes and keys are opaque byte strings; what nodes, files and
  the clock answer is an input.
- Text is ASCII, so `len` of a string is its number of bytes. Numbers kept as `Decimal` or `float` are exact; the
  fee multiplier is exactly 11/10.
- Queries without an order return rows as stored, and reports with equal timestamps keep their stored order.

Where the code does less than its documentation or names suggest, the model follows the code. A theorem says exactly
when the expectation holds, and a lemma gives an input for which it does not:

- `ErrorLog.HasLogsWithoutCounts`, `ErrorLog.EmptyListOfFailures`: adding an empty list of failures makes
  `has_logs` true while there is nothing to count.
- `KeyPool.PopNeverFails`, `KeyPool.RaiseLeaksKeys`: a job that raises before `append` keeps its key set for ever,
  and a later `pop(0)` can meet an empty list.
- `LocustEvents.BufferIsInFlight`, `LocustEvents.KilledCallStays`: a call left by an exception outside `Exception`
  stays in the buffer.
- `ActionNames.DistinctUnlessClash`, `ActionNames.NumberedNamesCollide`: numbered names collide when a name that
  occurs once already looks like a numbered repeat.
- `Holder.UploadReadsBack`, `Holder.LongerTextStays`: an upload over a longer text with the same hash does not read
  back.
- `Construct.ParseSound`, `Metaplex.FlagByteTwo`: a flag byte above 1 is read as True, so bytes are rebuilt exactly
  only when all flag bytes are 0 or 1.
- `ResultsDb.HistoryKept`, `ResultsDb.LatestForOneService`: a report tagged `latest` for only one of the services
  replaces the whole `latest` history of its repo.
- `History.PairsOccurIff`, `History.PairMayBeNew`: a returned row's dapp and action both occur in the last report, but
  perhaps not together; they must exactly if the last report has each of its actions for each of its dapps.
- `History.ComparedIsNewest`, `History.NewerLatest`: the compared report, from which the history takes its names, need
  not have the greatest timestamp, from which the plots take theirs.
- `RawTx.RefusedExactly`, `RawTx.NoPriorityFee`: an automatic maximum fee without priority fee is refused, and so is
  the text "auto" for any parameter that has no automatic value.
- `Plots.RowsAlignWithTicks`, `Plots.TwoRowsOneTimestamp`: rows align with tick labels only if the action has at most
  one row per timestamp.

## Model

| member | source | states |
|---|---|---|
| LockedFile.RunInvariant | utils/error_log.py:42-79 | every interleaving of any number of workers keeps the lock exclusive, each loaded or edited copy in step with the file, and the file equal to the replay of the committed edits |
| LockedFile.NoLostUpdate | utils/error_log.py:71-79 | in every reachable state the file is the sequential replay of its history, and each resting worker has there exactly the edits whose calls returned normally, in order: none lost, none doubled, none from a raising body |
| LockedFile.EveryEditOnce | utils/error_log.py:71-79 | when all workers rest, the edits in the file are together exactly the edits whose calls returned, counted with multiplicity |
| LockedFile.MutualExclusion | utils/error_log.py:73-79 | two workers are never inside the lock together |
| LockedFile.CreationKeepsContent | utils/stats_collector.py:34-36 | a creation step meets an existing file only in `clear`: creating a missing file never overwrites one |
| LockedFile.NoDeadlock | utils/error_log.py:71-79 | while some worker is inside a call, some worker can take a step of its call |
| LockedFile.LoneCall | utils/error_log.py:71-79 | a call that nothing interrupts applies its edit once to the file, which it creates if its job says so, and gives the lock back; without a file it leaves everything as it was |
| ErrorLog.LoneUpdate | utils/error_log.py:56-84 | a method of the class leaves the same file as such a call of the protocol, and returns normally exactly if the edit is among those returned there |
| StatsCollector.LoneRecord | utils/stats_collector.py:32-43 | recording leaves the same report as such a call of the protocol, whether the report existed or not |
| LockedFile.ReplaySinceClear | utils/error_log.py:42-44 | after a clear the file depends only on what was committed later |
| LockedFile.FileStays | utils/error_log.py:29-31 | once the file exists it exists for ever, so later loads succeed |
| ErrorLog.ErrorLogFile.constructor | utils/error_log.py:23-40 | a missing log is created blank if its directory exists, an existing one is kept |
| ErrorLog.ErrorLogFile.Clear | utils/error_log.py:33-44 | the log becomes blank and the answer is True, or nothing changes and the answer is False when the directory is missing |
| ErrorLog.ErrorLogFile.HasLogs | utils/error_log.py:52-54 | fails exactly on a missing file; otherwise the answer is yes exactly if some group has an entry, even an empty one |
| ErrorLog.ErrorLogFile.GetCountByGroup | utils/error_log.py:86-95 | fails exactly on a missing file; otherwise exactly the groups with names are counted, with the number of their failures and errors |
| ErrorLog.ErrorLogFile.AddFailure | utils/error_log.py:56-59 | one name is appended to its group's failures and nothing else changes, and the new log is returned; a missing file is an error and stays missing |
| ErrorLog.ErrorLogFile.AddError | utils/error_log.py:61-64 | one name is appended to its group's errors and nothing else changes |
| ErrorLog.ErrorLogFile.AddFailures | utils/error_log.py:66-69 | a list of names is appended to its group's failures and nothing else changes |
| ErrorLog.ErrorLogFile.AddComment | utils/error_log.py:81-84 | one comment is appended and nothing else changes |
| ErrorLog.FileHoldsNames | utils/error_log.py:56-84 | the lists of the replayed log are the names committed since the last creation or clear, in commit order; `has_logs` holds exactly if a failure, an error or a list of failures was committed since then |
| ErrorLog.FileHoldsComments | utils/error_log.py:81-84 | the comments of the replayed log are those committed since the last creation or clear, in order |
| ErrorLog.CountsAreLengths | utils/error_log.py:86-95 | a group is counted exactly if it has failures or errors, with their total: no zero entries |
| ErrorLog.EveryReadIsCurrent | utils/error_log.py:46-95 | in every interleaving, at every moment, a reader counts exactly the names, and finds exactly the comments, committed since the last clear |
| ErrorLog.HasLogsWithoutCounts | utils/error_log.py:52-54 | `has_logs` is true with nothing to count exactly when keys exist and every list under them is empty |
| ErrorLog.EmptyListOfFailures | utils/error_log.py:66-69 | that happens after adding an empty list of failures |
| StatsCollector.StatisticsCollector.Record | utils/stats_collector.py:32-43 | the report is created only if missing, then gets one action at its end |
| StatsCollector.RecordingRun | utils/stats_collector.py:32-43 | in every interleaving of collectors, what each set out to record is what it has recorded followed by what it is recording; the file is created at most once, first, and only if it was missing |
| StatsCollector.ActionsReplay | utils/stats_collector.py:72-86 | such a history leaves the earlier actions followed by all recorded ones in lock order |
| StatsCollector.RacingCollectors | utils/stats_collector.py:32-86 | any number of collectors racing on a missing or existing file leave the earlier actions and then every recorded action exactly once, each collector's own in order |
| KeyPool.Prioritise | clickfile.py:207-222 | the loop yields the priority files, then the others, each in the order found |
| KeyPool.PriorityFirst | clickfile.py:208-222 | the list handed to the pool has every test file as often as it was found, and no priority file after another one |
| KeyPool.PriorityNames | clickfile.py:208-217 | a path is a priority file exactly if it is any prefix followed by one of the three names |
| KeyPool.PriorityInOrder | clickfile.py:213-222 | the list is the priority files and then the others, each part in the order found and with nothing lost or doubled |
| KeyPool.RunInvariant | clickfile.py:224-265 | in every interleaving, started plus queued tests are the given list, and every key set and every started test is accounted for |
| KeyPool.KeysConserved | clickfile.py:228-251 | each key set is free, held by a running job or lost with a raised one, by count; with distinct sets no two running jobs hold the same one and held ones are not free |
| KeyPool.KeysInTurn | clickfile.py:228-251 | the list is a queue: in every interleaving the prepared key sets followed by those put back are exactly those handed out, in that order, followed by the free ones |
| KeyPool.PopNeverFails | clickfile.py:228 | `pop(0)` meets an empty list exactly when running and raised jobs account for all sets, so only after a job has raised; never when none raises |
| KeyPool.AllTestsRunOnce | clickfile.py:261-265 | at the end every test ran exactly once, in the pool's order of starting, and without raising jobs all sets are free again |
| KeyPool.RaiseLeaksKeys | clickfile.py:228-251 | a concrete run in which a raising job leaves the next `pop(0)` nothing |
| KeyPool.RunsEnd | clickfile.py:261-265 | no run has more than four steps a test |
| KeyPool.SomeStepPossible | clickfile.py:261-265 | until all work is done some step other than raising is possible, so maximal runs reach the end state |
| LocustEvents.LocustEventHandler.InitEvent | loadtesting/proxy/common/events.py:107-122 | the buffer gets one entry for the id, with the counter's reading and without outcome |
| LocustEvents.LocustEventHandler.Update | loadtesting/proxy/common/events.py:170-176 | the outcome is merged into the entry, or the lookup fails and nothing changes |
| LocustEvents.LocustEventHandler.FireEvent | loadtesting/proxy/common/events.py:124-141 | the entry is removed and one event fired with its name, type and elapsed milliseconds, and its response and length or its error as far as it has them; a missing id fires nothing and is an error |
| LocustEvents.RunInvariant | loadtesting/proxy/common/events.py:147-182 | in every interleaving no lookup fails, every entry is its own call's, and each done call has fired exactly once |
| LocustEvents.BufferIsInFlight | loadtesting/proxy/common/events.py:159-177 | the buffer's keys are the calls in flight and the killed ones; exactly those in flight if and only if no call was killed |
| LocustEvents.OneEventPerCall | loadtesting/proxy/common/events.py:161-178 | a call that returned or raised an Exception and was fired has exactly one event, with its own data; the others have none |
| LocustEvents.DoneAsEnded | loadtesting/proxy/common/events.py:161-178 | the request type, start, outcome and firing time of a fired call are those of this very call's own steps |
| LocustEvents.FiredEvent | loadtesting/proxy/common/events.py:107-178 | for every run, a call that was started, ended and fired has exactly one event, with the request type of its start, the elapsed milliseconds, and either the response and its length or the error that its function ended with |
| LocustEvents.Remembered | loadtesting/proxy/common/events.py:147-182 | a call has one start, one end and one firing in a run, which the state records |
| LocustEvents.FiredTime | loadtesting/proxy/common/events.py:127-132 | the response time fired is the time from the call's start to its firing, in milliseconds |
| LocustEvents.KilledCallStays | loadtesting/proxy/common/events.py:161-177 | a started and killed call is in the buffer and not in flight |
| LocustEvents.PerformAll | loadtesting/proxy/common/events.py:147-182 | for every interleaving of wrapped calls, the handler's buffer and fired events after its methods were called step by step are those of the state machine |
| Construct.RoundTrip | utils/metaplex.py:68-90 | for every format, fitting value and trailing bytes, parsing the built bytes returns the value and leaves the trailing bytes |
| Construct.PrefixFree | utils/metaplex.py:68-188 | no encoding is a prefix of another; equal bytes come from equal values |
| Construct.ParseSound | utils/metaplex.py:68-90 | every parsed value can be built again to as many bytes as were consumed, and to the same bytes exactly when all flag bytes were 0 or 1 |
| Construct.FromToLE | utils/metaplex.py:88 | reading a little-endian integer of any width undoes writing it |
| Construct.ToFromLE | utils/metaplex.py:88 | writing undoes reading |
| Construct.UInt64Bytes | utils/layouts.py:9-10 | a 64-bit integer is its eight base-256 digits, least significant first |
| Metaplex.StructsRoundTrip | utils/metaplex.py:152-188 | `CreateMetadataV3Instruction`, `CreateInstruction` and `MetadataAccount` round-trip before any suffix, prefix-free and injective |
| Metaplex.FlagByteTwo | utils/metaplex.py:73-77 | flag bytes 1 and 2 are both read as True, and only 1 is written |
| Metaplex.CreateMetadataRoundTrip | utils/metaplex.py:218-257 | the builder succeeds exactly for at most 32, 10 and 200 bytes and a 16-bit fee, and its bytes parse back to the arguments |
| MetaplexBytes.InstructionBytes | utils/metaplex.py:218-257 | the built bytes written out: tag 33, three strings with 32-bit lengths, 16-bit fee, three absent options, True, one absent option |
| Metaplex.StripPadding | utils/metaplex.py:283-284 | stripping NULs undoes NUL padding exactly when the text has no outer NUL of its own |
| Metaplex.GetMetadataReadsBack | utils/metaplex.py:277-296 | an account with padded strings is read back with every field as stored, the mint as text and the strings without their padding, exactly if no string has an outer NUL of its own |
| MetaplexBytes.AccountEncodes | utils/metaplex.py:134-165 | `MetadataAccount` builds, from any well-formed typed record, its Borsh encoding, written out field by field |
| MetaplexBytes.CreateEncodes | utils/metaplex.py:114-188 | so does `CreateInstruction`, behind its two constants |
| MetaplexBytes.CreateV3Encodes | utils/metaplex.py:142-176 | so does `CreateMetadataV3Instruction`, behind its constant |
| MetaplexBytes.CreatorsEncode | utils/metaplex.py:92-96 | a list of creators is 32 address bytes, a flag and a share for each |
| MetaplexBytes.AccountBytesUnique | utils/metaplex.py:152-165 | the bytes of an account, whatever follows them, determine the account |
| MetaplexBytes.GetMetadataOfBytes | utils/metaplex.py:277-296 | reading the bytes of an account with padded strings gives the account with its mint as text and without the padding, exactly if no string has an outer NUL of its own |
| Holder.WriteHolderBytes | utils/instructions.py:68-80 | the data is the byte 0x26, the hash, the offset's eight bytes written out, and the payload |
| Holder.AccountBytesWritten | utils/layouts.py:4-11 | a holder account is tag, version, owner, hash, eight bytes of `len`, eight bytes of heap offset, and the data |
| Holder.ExecuteWrite | utils/instructions.py:68-80 | the bytes of `make_WriteHolder` are read by the program as the hash, offset and payload given |
| Holder.WriteRefusals | integration/tests/neon_evm/test_holder_account.py:174-192 | the two writes of the tests are refused, as overflow and as too large for the account |
| Holder.ReaderReadsLen | integration/tests/neon_evm/test_holder_account.py:32-36 | the reader returns the first `len` bytes after the 82-byte header, through the header's own bytes |
| Holder.Part | utils/evm_loader.py:140-141 | a part has 920 bytes, or all that is left if that is less |
| Holder.PartsTile | utils/evm_loader.py:137-151 | every position of the transaction lies in exactly one part, which has the right byte there |
| Holder.WritesBytes | utils/evm_loader.py:137-151 | an upload has as many writes as 920-byte parts are needed, each written out: 0x26, hash, the part's offset in eight bytes, the part's bytes |
| Holder.Connection.WriteTransactionToHolderAccount | utils/evm_loader.py:131-154 | the loop sends exactly these writes, byte for byte, each once and in order, and then confirms each receipt once |
| Holder.DeliveredData | utils/evm_loader.py:140-151 | after any writes in any order with repetition, every part applied is in place |
| Holder.DeliveredLen | utils/evm_loader.py:140-151 | and `len` is the largest end applied, or an older longer `len` of the same hash |
| Holder.UploadReadsBack | integration/tests/neon_evm/test_holder_account.py:73-87 | for every account, transaction and delivery of all writes in any order, some applied twice, the reader returns the raw transaction exactly when it fits and the account holds no longer text under the same hash |
| Holder.LongerTextStays | integration/tests/neon_evm/test_holder_account.py:32-36 | an account with two bytes under the same hash does not read back an upload of one |
| Holder.DeliveryFrame | utils/evm_loader.py:140-151 | every delivery, even into too small an account, keeps it valid and its size, and under the upload's own hash never shrinks `len` |
| Instructions.SerializeInstruction | utils/helpers.py:197-207 | the accumulating loop writes exactly the declared wire form, for any number of accounts |
| Instructions.SerializedParts | utils/helpers.py:197-207 | the wire form is program, account count, accounts, data length and data |
| Instructions.SerializedDecodes | utils/helpers.py:197-207 | a serialized instruction is decoded in front of any bytes, consuming nothing else |
| Instructions.ConcatenationUnique | utils/helpers.py:197-207 | a concatenation of serialized instructions determines the instructions and their number |
| Instructions.StepDataDecodes | utils/instructions.py:168-204 | step data is built exactly for 32-bit counts and splits back into tag, treasury buffer, step count, index and payload |
| Instructions.OtherDataDecodes | utils/instructions.py:229-257 | cancel, deposit and create-holder data split back into their parts before any suffix |
| Instructions.MakeStep | utils/instructions.py:191-218 | the instruction carries the step data and the five fixed accounts followed by the additional ones in order, all writable and only the operator signing |
| ActionNames.ParseDecimal | deploy/cli/cost_report.py:93-97 | `int` undoes the decimal text of a number |
| ActionNames.LeftmostDigit | deploy/cli/cost_report.py:96 | the leftmost digit counts for a power of ten, one for each digit after it |
| ActionNames.NumberActions | deploy/cli/cost_report.py:34-46 | the counting loops give every action its specified name |
| ActionNames.CountActions | deploy/cli/cost_report.py:34 | the counter holds how often each name occurs, and no others |
| ActionNames.NumbersAreConsecutive | deploy/cli/cost_report.py:38-46 | the numbers given to one name are exactly 1 to its count, each once, in encounter order |
| ActionNames.NumberedInjective | deploy/cli/cost_report.py:43 | a numbered name determines its base and its number |
| ActionNames.DistinctUnlessClash | deploy/cli/cost_report.py:34-46 | names of one app are pairwise distinct exactly when no once-occurring name equals a repeated name, a space and a number up to its count |
| ActionNames.EngineIsPreferred | deploy/cli/cost_report.py:94 | the backtracking search returns the match with the shortest first group, then most spaces, then most digits, and fails only when nothing matches |
| ActionNames.SplitUndoesNumbering | deploy/cli/cost_report.py:93-97 | `split_action` of a numbered name gives the base and the number exactly for a non-empty single-line base that does not end in a space (or has one character) |
| ActionNames.NumberedSplit | deploy/cli/cost_report.py:93-97 | splitting any numbered non-empty name that splits at all gives its number and the shortest part of the base before its final spaces, whatever the number |
| ActionNames.FinalNewlineIgnored | deploy/cli/cost_report.py:94 | a newline at the very end of a numbered name is not part of the match |
| ActionNames.NumberedNamesCollide | deploy/cli/cost_report.py:34-46 | "a", "a" and "a 1" get two equal names |
| ActionNames.DictionaryOrder | deploy/cli/cost_report.py:84 | texts are compared at their first difference by character, and a text comes before its extensions |
| ActionNames.RepeatsKeepTheirOrder | deploy/cli/cost_report.py:82-85 | in every sorted order of the report, repeats of any action stand in their original, numeric order |
| Tags.GetPreviousTags | deploy/test_results_db/db_handler.py:104-139 | fails exactly for a malformed tag; otherwise returns distinct stored tags below it in descending order, by their three numbers read as one of six digits; none left out is above one of them, and none is left out before the limit is used up; a negative limit counts from the end |
| Tags.LessByWeight | deploy/test_results_db/db_handler.py:125-136 | version order is the order of 10000 major + 100 minor + micro |
| Tags.VersionsOrdered | deploy/test_results_db/db_handler.py:125-129 | descending version order is a total preorder, so the sort is well defined |
| Tags.TailIsBelow | deploy/test_results_db/db_handler.py:133-136 | from the first lower tag on, the sorted list holds exactly the lower tags |
| Tags.TagPattern | clickfile.py:83 | a text is a tag exactly if it splits into v or t and three dotted numbers of one or two digits, up to a final newline; its version is these numbers |
| Tags.VersionBranchPattern | clickfile.py:82 | a text is a version branch exactly if it splits into v or t, two dotted numbers and a text on one line that begins with x |
| ResultsDb.PostgresTestResultsHandler.GetCostReportIds | deploy/test_results_db/db_handler.py:45-52 | every report of the pair has its id in the list and every id in it is one of theirs; in a consistent store a report's id is in it exactly if its repo is the given one and its EVM tag, for the EVM, or else its proxy tag, is the given tag |
| ResultsDb.PostgresTestResultsHandler.DeleteDataByReportIds | deploy/test_results_db/db_handler.py:54-57 | a row stays exactly if its report is not listed; rows that stay keep number and order, reports are untouched, and it is one commit |
| ResultsDb.PostgresTestResultsHandler.DeleteCostReports | deploy/test_results_db/db_handler.py:59-62 | a report stays exactly if its id is not listed; reports that stay keep number and order, rows are untouched, and it is one commit |
| ResultsDb.PostgresTestResultsHandler.SaveCostReport | deploy/test_results_db/db_handler.py:64-82 | the report is added last and nothing else changes; in a consistent store its id is that of no other report and of no row, and the store stays consistent |
| ResultsDb.PostgresTestResultsHandler.SaveCostReportData | deploy/test_results_db/db_handler.py:84-102 | all rows are stored grouped by dapp, in one commit |
| ResultsDb.PostgresTestResultsHandler.DeleteEarlier | clickfile.py:1100-1118 | earlier reports of the pair go, rows first, in two commits, unless it is a merge of both services or there are none |
| ResultsDb.PostgresTestResultsHandler.SaveDappsCostReportToDb | clickfile.py:1095-1128 | the command commits exactly the specified states, in order |
| ResultsDb.RunsKeep | clickfile.py:1095-1128 | over every run of saves, each stopped after any commit, every row refers to an existing report, ids are not reused, and each repo has at most one report per tag that is neither `latest` nor a version branch |
| ResultsDb.SaveKeeps | clickfile.py:1113-1128 | every single commit of a save keeps this |
| ResultsDb.SaveLeavesOthers | clickfile.py:1113-1128 | at every commit, reports and rows of other repo and tag pairs are exactly as before |
| ResultsDb.RunsLeavePair | clickfile.py:1095-1128 | over every run of saves for other pairs, each stopped after any commit, a pair's reports and rows stay as they were |
| ResultsDb.SaveRemoves | clickfile.py:1095-1118 | a completed save removes exactly the earlier reports of its repo with its EVM tag, for the EVM, or else its proxy tag, with exactly their rows; and none for a merge of both services to develop or to one version branch |
| ResultsDb.SaveStores | clickfile.py:1121-1128 | a completed save ends with its report under a new id and exactly its own rows, by ascending dapp and within a dapp in their order |
| ResultsDb.HistoryKept | clickfile.py:1100-1118 | earlier reports all stay exactly for a merge to develop or to one version branch of both services, or when the pair had none |
| ResultsDb.LatestForOneService | clickfile.py:1104-1118 | a consistent store with one `latest` report loses it to a save with `latest` for one service only |
| ResultsDb.RunsKeepPairs | clickfile.py:1095-1128 | over every run of interrupted saves of data with one row for each dapp and action, no report gets two rows for one dapp and action |
| History.StoredTags | deploy/test_results_db/db_handler.py:116-123 | the distinct tags of the repo, each once |
| History.ChoosePreviousTags | clickfile.py:1179-1191 | a release gets the greatest stored releases below it, as many as the depth allows; a branch its version branch or `latest` |
| History.UsedIsSelection | deploy/test_results_db/db_handler.py:155-183 | by the columns of the store: the used reports are at most `depth`, each once, the newest of the tag first; the others carry previous tags, newest first, none left out is newer, and none is left out before the depth is used up |
| History.HistoryUses | deploy/test_results_db/db_handler.py:157-183 | for every such list and depth at least 1, the history uses at most `depth` reports, each once, the newest of the tag first |
| History.HistoryUsesNewest | deploy/test_results_db/db_handler.py:157-169 | the others have previous tags, are as many as depth and store allow, and none left out is newer |
| History.GetHistoricalData | deploy/test_results_db/db_handler.py:141-241 | fails exactly without depth or without a report for the tag; otherwise the frame sorted by timestamp, dapp and action of exactly the rows of the used reports whose dapp and action occur in the last one, each once, with its own report and tag |
| History.PairsOccurIff | deploy/test_results_db/db_handler.py:185-206 | for every consistent store that holds the last report and its rows, whatever else it holds, every returned row's dapp and action occur together in the last report, if and only if the last report has each of its actions for each of its dapps |
| History.PairMayBeNew | deploy/test_results_db/db_handler.py:185-206 | a consistent store of two `latest` reports whose history returns a row of the older one with a pair that the last one lacks |
| History.NewPairReturned | deploy/test_results_db/db_handler.py:185-241 | on such a store the query does return that row |
| History.ComparedIsNewest | clickfile.py:1179-1200 | no used report is newer than the compared one exactly when only that one is used or no report with a previous tag is newer |
| History.NewerLatest | clickfile.py:1188-1200 | a branch compared with a newer `latest` report |
| History.CompareDappResults | clickfile.py:1179-1200 | fails exactly without depth or without a report for the tag; otherwise there are previous tags as the command's case demands and a selection of reports by them, in terms of the stored columns and timestamps, and the frame holds exactly the stored rows of these reports whose dapp and action occur in the first, each with its report and tag, by timestamp, dapp and action |
| Plots.FillGaps | deploy/test_results_db/test_results_handler.py:98-109 | the left-to-right in-place loop fills exactly the isolated inner gaps, from the original neighbours, as if all at once |
| Plots.GapFilledWith | deploy/test_results_db/test_results_handler.py:106-109 | an isolated gap between numbers becomes their midpoint; otherwise the cell above, or the one below when that is empty or zero |
| Plots.FillTwice | deploy/test_results_db/test_results_handler.py:98-109 | filling again changes nothing |
| Plots.PadRows | deploy/test_results_db/test_results_handler.py:76-89 | the loop against the growing table appends exactly one empty row per missing timestamp |
| Plots.RowsAlignWithTicks | deploy/test_results_db/test_results_handler.py:34-91 | after padding and sorting, row i has timestamp i for all i exactly when the action had at most one row per timestamp, and then row i carries tick label i |
| Plots.OwnOrEmpty | deploy/test_results_db/test_results_handler.py:76-91 | every row of the padded and sorted table is one of the action's own, all of which are there, or an empty one for a timestamp the action lacks |
| Plots.TwoRowsOneTimestamp | deploy/test_results_db/test_results_handler.py:76-91 | two rows at one timestamp do not align with the ticks |
| Plots.LimitsWritten | deploy/test_results_db/test_results_handler.py:55-69 | the limits are exactly half the spread outside the least and greatest value, or half the value's size without a spread |
| Plots.PointsWithinLimits | deploy/test_results_db/test_results_handler.py:55-69 | every original or filled number lies within the limits, original ones at least half the spread inside |
| Plots.LabelPoints | deploy/test_results_db/test_results_handler.py:93-156 | exactly one label, with its own value, on each present point that differs from its previous or next present point, none elsewhere; red exactly if it differs from the previous |
| ReportSeries.PrepareReportData | deploy/cli/cost_report.py:31-70 | the loops over apps and actions give each action its row with the app's name, the numbered name and its figures; they fail exactly when nothing was reported |
| ReportSeries.PreparedDiffer | deploy/cli/cost_report.py:31-65 | a prepared report has one row for each dapp and action exactly when no app's numbered names clash |
| ReportSeries.TicksOfFrame | deploy/test_results_db/test_results_handler.py:34-35 | the ticks of a sorted frame are ascending, one for each of its timestamps, each with the tag of a row of that timestamp |
| ReportSeries.FrameAligned | deploy/test_results_db/test_results_handler.py:34-91 | in a frame the query returns, from reports with distinct timestamps and one row for each report, dapp and action, every series has after padding and sorting its row i at tick i with its label, showing the metric of the frame's row for that dapp, action and timestamp, or nothing if there is none |
| ReportSeries.SavedReportsAlign | deploy/test_results_db/test_results_handler.py:34-91 | this holds after any run of interrupted saves of reports whose names do not clash |
| CamelCase.CamelOfWords | utils/helpers.py:210-213 | words joined by underscores become the first word and the other words with capitals |
| CamelCase.CamelUndone | utils/helpers.py:210-213 | the conversion can be undone, so distinct names keep distinct keys |
| RawTx.KeyNames | utils/web3client.py:327-331 | each parameter is stored under the key web3 expects, `from_` under `from` |
| RawTx.KeysDistinct | utils/web3client.py:327-331 | no two parameters share a key and none is called `type` |
| RawTx.KeysByName | utils/web3client.py:301-334 | the keys of the result are `type` and the camelCase names of exactly the present parameters |
| RawTx.MoveToEnd | utils/web3client.py:295-299 | the gas parameters come last, in order, and the others keep theirs |
| RawTx.MakeRawTxEip1559 | utils/web3client.py:290-334 | for every mix of given, automatic and absent parameters in any keyword order: one key for each present parameter and `type`, each with its given or automatic value, gas estimated on the map without gas and fees; otherwise the refusal of some parameter |
| RawTx.RefusedExactly | utils/web3client.py:310-325 | with numeric fees the call is refused exactly for "auto" where nothing can be looked up, or an automatic maximum fee without priority fee |
| RawTx.NoPriorityFee | utils/web3client.py:315 | with only an automatic maximum fee given, the missing priority fee is a key error and nothing else is refused |
| RawTx.ConvertedPrice | utils/web3client.py:553-561 | a gas price is refused exactly below the base fee; a converted one is the price paid under EIP-1559, also while the base fee rises up to it, and falls with the base fee |
| RawTx.AutoMaxFeeCovers | utils/web3client.py:315 | the automatic maximum fee covers base plus priority fee, and keeps the priority fee whole exactly while the base fee rises by at most a tenth |
| RawTx.MakeRawTx | utils/web3client.py:234-252 | it fails exactly for a price below the base fee or "auto" as sender, receiver, amount or data; sender, receiver, amount, data, nonce and chain id are passed on, the last two looked up when missing; with gas price and gas limit the converted fees pay exactly that price, otherwise both fees are automatic; gas is as given or estimated, and the type is 2 |

## Left out

- The Neon EVM program, mempool, tracer and proxy; network clients, retries, faucets, S3, Slack, Terraform; all of
  `ui/`, test fixtures and load-test task bodies.
- Cryptography and address derivation: keys, hashes and seeds are opaque bytes.
- Partly written files seen by readers that do not take the lock.
- LocustEvents.LocustEventHandler.FireEvent: listeners that raise are not modelled, because the hook is a
  library's.
- The base58 text of an address, which is any function of its bytes, and characters of more than one byte in the
  length limits of `create_metadata_instruction_data`.
- `FINALIZED_STORAGE_ACCOUNT_INFO_LAYOUT` and the other layouts of `utils/layouts.py`: easy instances of
  `Construct.RoundTrip`.
- The account lists of write-holder, cancel, deposit and create-holder instructions.
- The reading and merging of report files by name in `prepare_report_data`, lower-casing and stripping of names,
  and the look-up of transactions.
- The markdown text of `report_data_to_markdown`, and the fallback order of pandas for equal keys.
- Report rows with values that the database refuses, and commands that run at the same time against the store.
- Fonts, dot sizes, axes and everything matplotlib draws; the percentage column.
- The legacy branch of `make_raw_tx`, and addresses given as account objects.
