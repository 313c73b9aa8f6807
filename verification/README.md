# Verification of the build, deployment and evaluation tooling

A model, in Dafny 4.11, of the self-contained cores inside the repository's JavaScript tooling, with proofs of what
they promise. `dafny verify dfyconfig.toml` verifies all of it.

| part | modules |
|---|---|
| the local Docker build decision, as a state machine over the pipeline's runs | `DockerBuildDecision`, `DockerBuildRuns`, `CiPipeline` |
| CRC-32, the stored zip and PNG chunks | `Crc32`, `ByteFields`, `StoredZip`, `PngChunks` |
| the evaluation-question generator, its client and its validator | `Apportionment`, `QuestionWindows`, `QuestionVerifier`, `PickFair`, `QuestionLog`, `QuestionIds`, `QuestionRun`, `QuestionGenerator`, `QuestionSet`, `QuestionSchema`, `SapClient`, `RunRequests` |
| the properties-bundle generator | `PropertyValues`, `PropertiesBundle`, `BundleReading`, `BundleRuns`, `BundleFiles`, `SchemaWalk`, `SchemaShown`, `SchemaCalls`, `SchemaRanks`, `SchemaTexts`, `SchemaFields` |
| the setup's secrets in two env files | `EnvFiles`, `SetupSecrets`, `DockerSetup` |
| scanners | `JsonScanner`, `JsTokens`, `JsPrinting`, `Brackets`, `CopyBlocks`, `CopyHeader`, `CopyFilter` |
| the licence headers and the commit replay | `SourceHeaders`, `CommitReplay` |
| JavaScript's string operations, and what the modules share | `Text`, `Wrappers` |

Code that loops or changes state is a method, or a class with the source's fields, proved against a definition that
does not mention it: polynomial division for CRC-32, a reader for the zip and the PNG, largest remainder for the
apportionment, the RFC 8259 grammar for the JSON scanner, written source for the tokenizer, a repository with trees for
the build decision, the validator for the generator. The generator's loop is proved to be a function of the model's
replies (`QuestionRun`), and what a run guarantees is proved about that function. Code made of expressions is functions,
and the lemmas about them.

## What turned out different from what is promised

The model keeps the code as it is. Where a promise does not hold for all inputs, a lemma gives the inputs that break
it, and another says exactly when it holds.

- Build decision: `git diff --name-only` lists a detected rename under its new name only. A file moved out of the image
  paths therefore goes unnoticed (`CiPipeline.RenameOutOfImage`), and the skip is right if and only if no rename leaves
  the image paths (`DockerBuildRuns.SkipIsMarkerTree`).
- Marker: it is recorded after a clean start, but nothing looks at the working tree again before the images are built.
  An edit in between that is undone later leaves a marker for a tree that was never validated
  (`CiPipeline.EditDuringRun`). Over all histories, with edits and renames anywhere, every marker is right if and only if
  every run that records built the image of its commit, or that one was validated before
  (`CiPipeline.HistoryIsSoundExactlyWhen`).
- Bundles: "running it twice changes nothing the second time" fails for an English text that starts with white space
  the printer does not escape (`BundleFiles.SecondRunDropsCut`), and for a kept entry that the end of the file cut off
  in the middle of a continuation; `BundleFiles.TwiceIsOnce` and `BundleFiles.IdempotentExactlyWhen` have the exact
  conditions.
- Schema walk: references in `allOf` are not marked as seen. A property that includes its own definition through
  `allOf` is walked forever, although composing it runs into no cycle (`SchemaRanks.IncludedPropertyNeverEnds`). The walk
  ends if and only if no chain of its calls comes back to a node with nothing more seen (`SchemaCalls.EndsExactlyWhen`).
- Token check: a token set to nothing in a kept gateway file and chosen for regeneration is filled in although a
  mismatch was predicted. Such a key is never offered (`SetupSecrets.PredictionIsRightWhenOffered`).
- Env files: a value's second line is a line of the file, and may assign another key (`EnvFiles.LineBreakInjects`). What a
  rewritten file says for any values is `EnvFiles.WhatRewrittenSays`; it says what it should if and only if nothing but
  white space follows the first line of a text that is written (`EnvFiles.RewrittenSays`), so a trailing line break does
  no harm and a leading one does.
- Commit replay: directories are never removed from the destination's disk, so a commit that puts a file where there
  is or once was a directory ends the run with an exception (`CommitReplay.Destination.Sync`); a second run finds the
  newest commits again when they change no file (`CommitReplay.RerunFindsNothing`).
- Headers: a header with a line that ends in a carriage return, or one that reads as a shebang on a file without one,
  is added again on every run (`SourceHeaders.AddTwiceIsOnce`). Removing the header after adding it does not give the
  normalised file back where a line that stays ends in a carriage return of its own (`SourceHeaders.RemoveChangesAFile`);
  `SourceHeaders.RemoveUndoesAdd` has the exact condition.
- Dumps: the expression for the header of the blobs' data is matched over the whole text, where white space and the
  column list may run across lines and a line also ends at a carriage return or a Unicode separator. A row of another
  table that reads as the header is taken for it, and the rest of its table is counted (`CopyBlocks.RowReadsAsHeader`);
  so are two rows that read as it together (`CopyBlocks.TwoRowsReadAsHeader`), and a row with a separator behind it
  (`CopyBlocks.SeparatorEndsHeader`). The right header is found if and only if it matches at no place before
  (`CopyBlocks.DumpIsFound`). A row that starts like the header of an excluded table, or does so behind a separator, takes
  the rest of its table's data with it (`CopyFilter.RowIsCutAt`, `CopyFilter.SeparatorIsCutAt`); the filter leaves exactly
  the other tables if and only if at no place in what stays a line starts so with a terminator line behind it
  (`CopyFilter.OnlyCdsModelGoes`).
- Question generator: a wanted kind whose files hold only white space passes the planning and makes the run throw when
  its turn comes, after the kinds before it were asked about (`QuestionSet.RunOverEnds`).

## Model

| member | source | states |
|---|---|---|
| `Crc32.MakeEntry` | ci/file-search-eval/build-office-corpus.js:29-33 | a table entry is eight division steps of its index |
| `Crc32.MakeTable` | cli-tools/sail-recon-profile.js:34-42 | all 256 entries, filled in place, are eight division steps of their index |
| `Crc32.Update` | ci/file-search-eval/build-office-corpus.js:37 | one lookup moves the register from the message read to the message with the next byte |
| `Crc32.Crc32` | ci/file-search-eval/build-office-corpus.js:35-39 | for every byte string the result is the remainder of long division by the CRC-32 generator, first 32 coefficients and result complemented, bits reflected |
| `Crc32.LongDivisionIsRun` | ci/file-search-eval/build-office-corpus.js:35-39 | long division of a message with a register added to its front is running the register bit by bit over the message |
| `Crc32.FoldedRun` | ci/file-search-eval/build-office-corpus.js:37 | folding up to 32 bits into the register at once and stepping is running them through one at a time |
| `Crc32.StepsAreLinear` | ci/file-search-eval/build-office-corpus.js:31 | any number of division steps is linear over exclusive or |
| `Crc32.LookupIsEightSteps` | ci/file-search-eval/build-office-corpus.js:37 | eight steps are the table entry of the low byte added to the rest of the register moved by eight |
| `Crc32.Crc32IsUnique` | cli-tools/sail-recon-profile.js:43-47 | the division fixes every bit, so the two copies of the code return the same word |
| `ByteFields.CrcOf` | ci/file-search-eval/build-office-corpus.js:35-39 | as an unsigned number: in range, and the division remainder of the data |
| `ByteFields.Put16` | ci/file-search-eval/build-office-corpus.js:50-53 | a little-endian field reads back, and no other octet changes |
| `ByteFields.Put32` | ci/file-search-eval/build-office-corpus.js:49 | a little-endian field reads back, and no other octet changes |
| `ByteFields.Put32BE` | cli-tools/sail-recon-profile.js:49-52 | a big-endian field reads back |
| `StoredZip.MakeLocal` | ci/file-search-eval/build-office-corpus.js:48-58 | every field of the local header is that of the entry (section 4.3.7 of APPNOTE.TXT) |
| `StoredZip.MakeCentral` | ci/file-search-eval/build-office-corpus.js:60-72 | every field of the directory header is that of the entry, with the offset given (section 4.3.12) |
| `StoredZip.MakeEnd` | ci/file-search-eval/build-office-corpus.js:77-82 | every field of the end record (section 4.3.16) |
| `StoredZip.WriteParts` | ci/file-search-eval/build-office-corpus.js:46-75 | the loop throws exactly when a field would overflow, else writes the records and headers of all entries, each header with the summed size of the records before it |
| `StoredZip.StoredZip` | ci/file-search-eval/build-office-corpus.js:42-84 | returns an archive exactly when every field fits, and a reader that starts at the end record and follows the directory recovers exactly the entries, in order |
| `StoredZip.ReadsBack` | ci/file-search-eval/build-office-corpus.js:42-84 | so for every archive of this shape, whoever wrote it |
| `StoredZip.DirectoryReadsBack` | ci/file-search-eval/build-office-corpus.js:60-74 | from any header on, the reader recovers the entries from there on, each from the record at its offset |
| `StoredZip.RecordSizes` | ci/file-search-eval/build-office-corpus.js:74 | the records take exactly the room the running offset counts |
| `StoredZip.HeaderSizes` | ci/file-search-eval/build-office-corpus.js:76-81 | the directory takes exactly the size the end record states |
| `PngChunks.PngChunk` | cli-tools/sail-recon-profile.js:48-53 | throws exactly when the length does not fit its field, else length, type, data and the checksum of type and data |
| `PngChunks.ChunkReadsBack` | cli-tools/sail-recon-profile.js:48-53 | a reader takes exactly the chunk off the front of whatever follows |
| `PngChunks.SolidPng` | cli-tools/sail-recon-profile.js:54-64 | a reader finds the three chunks in order, the width and the height in the first |
| `DockerBuildDecision.FailingQueryBuilds` | ci/scripts/docker-build-decision.js:49-107 | without the skip variable, any failing git query that is asked leads to a build |
| `DockerBuildDecision.UnusableMarkerBuilds` | ci/scripts/docker-build-decision.js:77-90 | a local run whose marker is missing, unreadable or no commit id builds |
| `DockerBuildDecision.SkipsExactlyWhen` | ci/scripts/docker-build-decision.js:112-197 | a local run without overrides skips if and only if every query answers, the marker is an ancestor and none of the listings holds an image path |
| `DockerBuildDecision.CiSkipsExactlyWhen` | ci/scripts/docker-build-decision.js:142-194 | a run on a CI server without overrides skips if and only if the work tree query answers and the one listing it compares with, told by the variables, answers, is not empty and holds no image path; a build is for exactly the image paths listed |
| `DockerBuildDecision.AnyRunSkipsExactlyWhen` | ci/scripts/docker-build-decision.js:112-197 | any run, by the values of its variables and the answers: when it skips the build |
| `DockerBuildDecision.OverridesDecide` | ci/scripts/docker-build-decision.js:114-129 | the forcing variable builds whatever else is set, the skipping one else skips |
| `DockerBuildDecision.RelevantIsImagePath` | ci/scripts/docker-build-decision.js:21-64 | the list of paths names exactly the five folders and four files the images are built from |
| `DockerBuildDecision.CleanExactlyWhen` | ci/scripts/docker-build-decision.js:64-75 | a start counts as clean if and only if both listings answer and hold no image path |
| `DockerBuildRuns.QuietListing` | ci/scripts/docker-build-decision.js:64-67 | a listing without image paths hides exactly the image paths renamed to somewhere else |
| `DockerBuildRuns.RelevantListing` | ci/scripts/docker-build-decision.js:92-107 | with renames staying inside, a listing holds an image path if and only if one differs |
| `DockerBuildRuns.CleanStartIsHead` | ci/scripts/docker-build-decision.js:67-75 | a clean start works on the image tree of HEAD if and only if no rename left the image paths |
| `DockerBuildRuns.SkipIsMarkerTree` | ci/scripts/docker-build-decision.js:77-107 | a local run that skips works on the image tree of the marker commit if and only if no rename left the image paths |
| `DockerBuildRuns.SkipsExactlyWhenUnchanged` | ci/scripts/docker-build-decision.js:112-197 | with every query answered, it skips if and only if the image trees of marker, HEAD and tracked files agree and no untracked file is an image path |
| `CiPipeline.Pipeline.Start` | ci/ci-pipeline.js:1146-1156 | what the start of a run sets: HEAD, whether the start is clean, whether to build |
| `CiPipeline.Pipeline.RecordLocalDockerBuild` | ci/ci-pipeline.js:164-184 | the marker is written with the commit of the start, only for a clean start with a known HEAD, and may be left partial by a failing write |
| `CiPipeline.PartialMarker` | ci/ci-pipeline.js:179 | the marker reads as the recorded commit if and only if its forty characters were written, and as no commit otherwise |
| `CiPipeline.StepIsSound` | ci/ci-pipeline.js:164-184 | every disciplined step (no image edit between start and build, no rename out of the image paths) keeps: a readable marker names a commit whose image tree was built and validated |
| `CiPipeline.StepIsSoundExactlyWhen` | ci/ci-pipeline.js:164-184 | any step, edits during a run and renames out of the image paths included, keeps the marker right if and only if it does not record a commit whose image tree was neither built by the run nor validated before |
| `CiPipeline.EveryHistoryIsSound` | ci/ci-pipeline.js:2146-2148 | so in every disciplined history of commits, moves of HEAD, edits between runs and runs that succeed or fail |
| `CiPipeline.HistoryIsSoundExactlyWhen` | ci/ci-pipeline.js:2146-2148 | in any history at all, edits during runs and renames out of the image paths included: every marker was right if and only if every recording run built the image tree of the commit it recorded or that tree was validated before |
| `CiPipeline.StartTreesDecide` | ci/ci-pipeline.js:164-184 | where no rename leaves the image paths, that is: if and only if every recording run built the tree it started on or that tree was validated before |
| `CiPipeline.SkippedTreesAreValidated` | ci/scripts/docker-build-decision.js:112-197 | where every recording run before did so, a local run that skips, no rename leaving the image paths then, works on the marker commit's image tree, which was built and validated |
| `CiPipeline.SkipsValidatedExactlyWhen` | ci/scripts/docker-build-decision.js:112-197 | a local run that skips works on the marker commit's image tree, which was validated if and only if the marker is right |
| `CiPipeline.EditDuringRun` | ci/ci-pipeline.js:164-184 | the discipline is needed: for any image edit between the start of a run and its image build, undone afterwards, the next run skips on a tree never validated |
| `CiPipeline.RenameOutOfImage` | ci/scripts/docker-build-decision.js:70-107 | so is the one on renames: for any rename out of the image paths the run skips although the image lost the file |
| `Apportionment.Allocate` | ci/file-search-eval/question-set.js:78-85 | largest remainder: the shares add up to the total, each is its quota rounded down or up, and what is rounded up has the larger remainder, earlier first on ties |
| `Apportionment.ScaleMix` | ci/file-search-eval/question-set.js:32-42 | throws exactly on an empty mix, keeps a mix of the right size, else apportions exactly the target |
| `Apportionment.LeftOver` | ci/file-search-eval/question-set.js:81-83 | what rounding down leaves is exactly the sum of the remainders |
| `Apportionment.LeftOverStaysUneven` | ci/file-search-eval/question-set.js:83 | the rounding up never reaches a quota that is a whole number |
| `Apportionment.EvenQuotasAreExact` | ci/file-search-eval/question-set.js:78-85 | a whole quota is met exactly, and a weight of zero gets nothing |
| `Apportionment.ApportionmentIsUnique` | ci/file-search-eval/question-set.js:78-85 | total, bounds and order leave one result |
| `Apportionment.ApportionmentExists` | ci/file-search-eval/question-set.js:78-85 | for any weights there is a result with that total, those bounds and that order |
| `QuestionWindows.SplitWindows` | ci/file-search-eval/question-set.js:45-58 | the windows are the parts of the text that are not blank, in order; the parts together are the text |
| `QuestionWindows.PiecesAreSplit` | ci/file-search-eval/question-set.js:45-58 | the parts put together are the text, each within the size and cut at the last paragraph break of its second half if there is one |
| `QuestionWindows.PlanKind` | ci/file-search-eval/question-set.js:62-75 | fails exactly when no file can supply the kind; else those windows with their shares of all the text, which add up to one |
| `QuestionWindows.PlanIsPlan` | ci/file-search-eval/question-set.js:62-75 | planned windows are text of files that can supply the kind, nothing of them accepted or asked yet, with positive shares of the whole |
| `QuestionWindows.PoolIsEmpty` | ci/file-search-eval/question-set.js:65-70 | a kind has no window if and only if all text of its files is white space |
| `QuestionWindows.Pool` | ci/file-search-eval/question-set.js:65-70 | there is a pool exactly when a file can supply the kind; the windows are the parts that are not blank of every such file, in order |
| `QuestionWindows.FileWindows` | ci/file-search-eval/question-set.js:68-69 | a file's windows are the parts that are not blank of a split of its text, at most 40000 characters each for multihop questions and 12000 for others |
| `QuestionWindows.PoolGrows` | ci/file-search-eval/question-set.js:66-69 | the windows of a kind are those of the files that can supply it, Markdown and PDF for multihop questions and its own kind for others, one file after another |
| `QuestionWindows.SharesAreParts` | ci/file-search-eval/question-set.js:70-71 | a window's share is the part its text is of all |
| `QuestionGenerator.PlanWindows` | ci/file-search-eval/question-set.js:62-75 | throws exactly when a wanted kind has no source; else the plan of every wanted kind and of no other |
| `QuestionVerifier.Verifier.Verify` | ci/file-search-eval/question-set.js:161-199 | accepts if and only if the candidate is well formed, has a question of ten characters, the right number of quotes, every quote quotable, two of them far apart, and is unlike everything accepted; the memory grows by exactly that, else not at all |
| `QuestionVerifier.QuoteFault` | ci/file-search-eval/question-set.js:173-184 | a quote has no fault if and only if it is at most 300 characters, its normalised text at least 20 and somewhere in that of its file and nowhere in any other's, without markup where the file is a scan, and not contained in the question's bare words |
| `QuestionVerifier.FarApartSpans` | ci/file-search-eval/question-set.js:185-188 | two quotes pass if and only if their first occurrences are at least 400 characters apart |
| `QuestionVerifier.Similarity` | ci/file-search-eval/question-set.js:149-154 | the counted ratio reaches four fifths if and only if at least four of five words of either question are shared |
| `QuestionVerifier.TokensStand` | ci/file-search-eval/question-set.js:145-147 | the words compared are what stands between spaces in the question's bare words and is longer than two characters |
| `QuestionLog.LogHasDistinctTexts` | ci/file-search-eval/question-set.js:188-197 | no two accepted questions have the same normalised text |
| `QuestionLog.PickKeepsDistinct` | ci/file-search-eval/question-set.js:288-296 | any pick from them keeps that |
| `QuestionLog.CleanIsNotBlank` | ci/file-search-eval/question-set.js:161-175 | a cleaned question of the least length is not blank, as the validator wants |
| `QuestionLog.CleanIsWords` | ci/file-search-eval/question-set.js:168 | a cleaned question is the words of the question with one space between them, whatever white space stood there |
| `QuestionLog.PickedAreSound` | ci/file-search-eval/question-set.js:161-199 | whatever is picked from the log, no text twice, is grounded in the files and has no two that clash |
| `PickFair.GroupByFile` | ci/file-search-eval/question-set.js:208-210 | the queues hold the items of their files, in order, and nothing else |
| `PickFair.PickFair` | ci/file-search-eval/question-set.js:207-216 | min(quota, all) items, a prefix of every file's, and any two files' counts differ by at most one unless the smaller is used up |
| `QuestionIds.IdsSayPositions` | ci/file-search-eval/question-set.js:295 | every id is well formed and says its position, so ids are distinct |
| `QuestionGenerator.Generator.Charge` | ci/file-search-eval/question-set.js:247-251 | tokens are added to the totals, and to the estimated ones exactly when estimated |
| `QuestionGenerator.Generator.Judge` | ci/file-search-eval/question-set.js:277-279 | a candidate is accepted if and only if it is well formed, grounded and new after the log, which then grows by exactly it and stays a log of good questions |
| `QuestionGenerator.Generator.Take` | ci/file-search-eval/question-set.js:274-282 | one candidate of the run: log, window and counts move as `QuestionRun.Taken` says, and nothing else |
| `QuestionGenerator.Generator.Ask` | ci/file-search-eval/question-set.js:239-285 | one call of the run, or none once a budget is spent |
| `QuestionGenerator.Generator.Settle` | ci/file-search-eval/question-set.js:253-272 | the tokens grow by exactly the cost of the reply: a prompt for every failed attempt, and the answer as reported or else estimated; which replies stop the run, which throw |
| `QuestionGenerator.SplitRequest` | ci/file-search-eval/question-set.js:236-238 | the request of a kind is split by the one apportionment there is |
| `QuestionGenerator.Generator.RunKind` | ci/file-search-eval/question-set.js:233-286 | one kind of a round: exactly the calls, tokens and questions of `QuestionRun.KindRun` |
| `QuestionGenerator.Generator.Run` | ci/file-search-eval/question-set.js:232-287 | all rounds end in exactly the state of `QuestionRun.Rounds`, for every behaviour of the model |
| `QuestionRun.TakenAllKeeps` | ci/file-search-eval/question-set.js:273-282 | the candidates of a reply extend the log by exactly those acceptable in turn, all of them counted, no other window or charge touched |
| `QuestionRun.KindRunEnds` | ci/file-search-eval/question-set.js:233-286 | a kind ends in an exception if and only if a call fails for good or the kind has nothing to ask about; calls so far are kept, and a budget stops it exactly when the run says so |
| `QuestionRun.EveryRunEnds` | ci/file-search-eval/question-set.js:225-287 | whatever the model answers: the tokens are the summed costs of the replies, the log is what is acceptable of them in turn, no call starts beyond the calls or with the tokens used up; it throws if and only if its last call failed for good or, no budget spent, a wanted kind has only blank text |
| `QuestionRun.NoKindIsForgotten` | ci/file-search-eval/question-set.js:232-287 | a run that ends by itself has asked about every kind the mix wants |
| `QuestionRun.RequestIsRoundedUp` | ci/file-search-eval/question-set.js:234-238 | a kind is asked for its deficit times the factor, rounded up, and for nothing without a deficit |
| `QuestionRun.KindRunAsksFor` | ci/file-search-eval/question-set.js:234-259 | one turn of a kind calls for each window at most once, in order, for its part of the deficit by shares over accepted questions, at most fifteen; a turn cut short made the first of these calls |
| `QuestionSet.Select` | ci/file-search-eval/question-set.js:288-293 | the picks of the kinds one after another, each a fair pick of what was accepted of its kind, counted as selected |
| `QuestionSet.CountsAddUp` | ci/file-search-eval/question-set.js:288-300 | the set has as many questions as the counts add up to, of every kind min(mix, accepted) |
| `QuestionSet.RunOverEnds` | ci/file-search-eval/question-set.js:225-287 | a run over docs throws if and only if its last call failed for good or, no budget spent, a wanted kind has files with only white space; costs, log and budgets hold either way |
| `QuestionSet.GenerateQuestionSet` | ci/file-search-eval/question-set.js:225-301 | for every model behaviour: the state is that of the run over the docs, with its costs, log and budgets; nothing is returned if and only if a wanted kind has no source or that run throws; else the questions are the fair picks from its log, as many as the counts say, and pass all per-question checks of the validator; every question's quotes stand in its own file and no other, and no two questions clash |
| `QuestionSet.GenerateAndValidate` | ci/file-search-eval/question-set.js:225-301 | the validator rejects a generated set if and only if the counts, min(mix, accepted) of every kind of the run over the docs, add up to a size out of bounds |
| `QuestionSet.GoodSetIsValid` | ci/file-search-eval/questions-schema.js:37-65 | good questions with distinct texts pass every check, under any manifest that knows their files |
| `QuestionSchema.QuestionErrors` | ci/file-search-eval/questions-schema.js:37-65 | nothing is reported if and only if all questions are valid with distinct ids and texts |
| `QuestionSchema.ValidateQuestionSet` | ci/file-search-eval/questions-schema.js:20-67 | no error if and only if header, number and questions are valid |
| `QuestionSchema.HeaderErrorsExactlyWhen` | ci/file-search-eval/questions-schema.js:25-36 | no header error if and only if the header is valid |
| `SapClient.Client.Spend` | ci/file-search-eval/sap-client.js:53-56 | counts a request unless the cap is spent |
| `SapClient.Client.Request` | ci/file-search-eval/sap-client.js:53-72 | a request is sent and counted together, or neither; a refused completion takes the token with it |
| `SapClient.Client.AuthHeaders` | ci/file-search-eval/sap-client.js:58-72 | a token is requested if and only if there is none or less than a minute is left of it; it fails if and only if the cap is spent or the reply has no token; a new one expires when the reply says |
| `SapClient.Client.FindDeployment` | ci/file-search-eval/sap-client.js:74-90 | fails for good if and only if the last request did not bring a token or a running deployment; at most one listing, no completion; the address is that of the newest running deployment, of several as new the first listed |
| `SapClient.Client.Complete` | ci/file-search-eval/sap-client.js:92-130 | by the replies: every request but the last goes on (a token, a running deployment, a completion without answer or refused with 0, 401, 429 or 500 and above); answered if and only if the last is a completion that did not fail, fatal if and only if it ends otherwise, given up if and only if three completions went on, over the budget if and only if another request was due; the attempts reported are those posted, and a wait follows each that another attempt follows |
| `SapClient.Client.WaitFor` | ci/file-search-eval/sap-client.js:36-47 | the wait after a failed attempt: two seconds, then four, or what the service asks for when it has too many requests, in seconds or until a date, never less than none or more than thirty seconds |
| `RunRequests.ServeRun` | ci/file-search-eval/generate-questions.js:105-111 | one client over all calls of a run: what each call came to and how many completions it posted, in all no more than the cap on requests |
| `RunRequests.RunOnClient` | ci/file-search-eval/question-set.js:242-264 | for the run whose replies are what the client returned or threw: only its last call is fatal, which it throws on, or finds the cap spent, which stops it; every other is answered or given up after three attempts, and the prompts charged are the completions posted, to the number, except for a last error that does not say how many it took |
| `JsonScanner.ExtractFirstJsonObject` | cli-tools/test-sail-proxy-cli.js:54-73 | for any object text of RFC 8259 after text without a brace and before anything, exactly that text; no object if and only if there is no brace |
| `JsonScanner.ValueIsNeutral` | cli-tools/test-sail-proxy-cli.js:59-71 | every value of the grammar leaves the scanner at the depth it found, outside strings, and never closes in between |
| `JsonScanner.OnlyTheObject` | cli-tools/test-sail-proxy-cli.js:54-73 | an object text followed by anything has one extraction: the object text |
| `PropertyValues.EscapeIsCharwise` | ci/scripts/schema-texts.js:186-193 | the chained replacements escape character by character |
| `PropertyValues.UnescapeUndoesEscape` | ci/scripts/schema-texts.js:186-234 | resolving the escapes undoes escaping, for every value |
| `PropertyValues.PrintedKeyMatches` | ci/scripts/schema-texts.js:213-230 | a printed entry is recognised by its key, with everything behind the separator as its value |
| `PropertyValues.ParseOfPrinted` | ci/scripts/schema-texts.js:226-234 | exactly what reading a printed value gives: the value without the bare white space it starts with |
| `PropertyValues.ParseUndoesPrint` | ci/scripts/schema-texts.js:186-234 | reading undoes printing if and only if the value does not start with white space other than space, tab, LF or CR |
| `PropertyValues.EscapedEndsEven` | ci/scripts/schema-texts.js:186-199 | an escaped value ends in an even number of backslashes |
| `PropertyValues.PrintedNeverContinues` | ci/scripts/schema-texts.js:196-199 | so a printed entry never runs on into the next line |
| `PropertiesBundle.ReadEntry` | ci/scripts/schema-texts.js:218-220 | the lines of one entry: as long as they continue and there are more |
| `PropertiesBundle.SplitLines` | ci/scripts/schema-texts.js:208-223 | own lines and raw entries, each exactly those the definitions on the line list give |
| `PropertiesBundle.SplitBundle` | ci/scripts/schema-texts.js:205-226 | the same for the text, without the blank own lines at the end |
| `PropertiesBundle.KnownTranslations` | ci/scripts/schema-texts.js:252-260 | for every English the first translation the file holds |
| `PropertiesBundle.LinesOfText` | ci/scripts/schema-texts.js:277 | the lines of a rendered bundle |
| `BundleReading.MatchesExactlyWhen` | ci/scripts/schema-texts.js:212 | a line is that of a key if and only if it is white space, the key, white space and a separator, the key as long as it can be |
| `BundleReading.SplitsStretches` | ci/scripts/schema-texts.js:205-226 | in any file the own lines are those of neither the header nor an entry, and the entries are a key's line with all its continuation lines, both in order |
| `BundleReading.SplitOfFile` | ci/scripts/schema-texts.js:205-226 | every file is made of such lines, so splitting any text gives exactly these |
| `BundleReading.DropsBlankEnd` | ci/scripts/schema-texts.js:224 | of the own lines those behind the last that is not blank are dropped, and no other |
| `BundleReading.ContinuationIsJoined` | ci/scripts/schema-texts.js:226-230 | an entry over several lines reads as its pieces on one line, without the backslashes and indents |
| `BundleReading.UnicodeReads` | ci/scripts/schema-texts.js:232-234 | a Unicode escape reads as the character with that code, outside the surrogates |
| `BundleReading.LetterReads` | ci/scripts/schema-texts.js:232-234 | the other escapes: four letters for white space, any other character for itself |
| `BundleRuns.RawEntriesAreRaw` | ci/scripts/schema-texts.js:205-226 | every entry found is whole; only the last can be cut off, and only where the file ends in a continuing line |
| `BundleRuns.SplitOfRewritten` | ci/scripts/schema-texts.js:205-278 | splitting a rewritten bundle gives back its own lines and the entries written |
| `BundleRuns.SplitOfRendered` | ci/scripts/schema-texts.js:268-278 | the same for a rendered bundle |
| `BundleRuns.RenderedKeys` | ci/scripts/schema-texts.js:268-278 | a rendered bundle holds the entries' keys and no other |
| `BundleRuns.ParsingUndoesRendering` | ci/scripts/schema-texts.js:237-278 | the values of a rendered English bundle are exactly the entries if and only if every text round-trips |
| `BundleRuns.EnglishIsIdempotent` | ci/scripts/schema-texts.js:268-278 | an English bundle rendered twice is the same, whatever the file held |
| `BundleRuns.TranslationsSurvive` | ci/scripts/schema-texts.js:268-278 | an existing translation survives byte for byte unless it is the placeholder of an English since changed |
| `BundleRuns.ClosedFileHasNoDangling` | ci/scripts/schema-texts.js:218-220 | a file whose last line does not continue has no cut-off entry |
| `BundleRuns.LanguageIsIdempotent` | ci/scripts/schema-texts.js:268-278 | a language bundle rendered twice is the same if and only if no entry it keeps was cut off by the end of the file |
| `BundleFiles.StaleBundles` | ci/scripts/schema-texts.js:407-419 | lists exactly the bundles that change, and writes all of them or none; what they hold then is `BundleFiles.BundlesHold` |
| `BundleFiles.RenderedAs` | ci/scripts/schema-texts.js:268-278 | the entry written for every key of a bundle: a value that stays, byte for byte; else the first translation its English has in the file, or the English, escaped |
| `BundleFiles.RenderedValues` | ci/scripts/schema-texts.js:252-278 | what a rendered bundle is read back as, key by key: values that stay, translations and English filled in |
| `BundleFiles.BundlesHold` | ci/scripts/schema-texts.js:407-419 | after a run both English bundles hold the English and the six others that, their placeholders judged by what the default bundle said before the run |
| `BundleFiles.TwiceIsOnce` | ci/scripts/schema-texts.js:407-419 | for texts that round-trip: over all eight bundles the second run changes nothing if and only if no language bundle keeps a cut-off entry |
| `BundleFiles.IdempotentExactlyWhen` | ci/scripts/schema-texts.js:226-278 | the texts for which the second run never changes anything are exactly those that all round-trip |
| `BundleFiles.SecondRunDropsCut` | ci/scripts/schema-texts.js:247-278 | for every text that does not round-trip, bundles that a second run changes |
| `SchemaCalls.MadeEnd` | ci/scripts/schema-texts.js:102-175 | the calls that composing or walking a node makes nest less deep than its own |
| `SchemaCalls.EndsExactlyWhen` | ci/scripts/schema-texts.js:102-175 | composing and walking end if and only if no chain of their calls comes back to one it holds: to the same node, with no more references seen |
| `SchemaRanks.ComposedAreUnder` | ci/scripts/schema-texts.js:94-114 | every property a composed node shows ranks no higher than the node, and is smaller where it ranks the same |
| `SchemaRanks.ComposeRankIsLess` | ci/scripts/schema-texts.js:102-114 | the references that composing follows are among those the walk has to rank |
| `SchemaRanks.CallDescends` | ci/scripts/schema-texts.js:102-175 | with the references in `allOf`s ranked, every call of the walk sees a reference for the first time or goes to a node under the one above |
| `SchemaRanks.RankedEnds` | ci/scripts/schema-texts.js:102-175 | so then the walk ends wherever it starts, however references outside `allOf` may cycle |
| `SchemaRanks.IncludedPropertyNeverEnds` | ci/scripts/schema-texts.js:141-162 | composing without a cycle is not enough: a definition whose property includes the definition walks that property again with nothing more seen, and never ends |
| `SchemaTexts.SameWalk` | ci/scripts/schema-texts.js:141-175 | what a walk puts does not depend on the bound on how deep its calls nest |
| `SchemaTexts.WalkIsGood` | ci/scripts/schema-texts.js:149-174 | every key the walk puts is a key of the bundles |
| `SchemaShown.ResolveFollows` | ci/scripts/schema-texts.js:94-99 | a reference is followed from target to target as far as there is one and the reference is new |
| `SchemaShown.ComposeFinds` | ci/scripts/schema-texts.js:102-114 | a composed node shows under a name its own property before all others, else that of the first composing branch that shows one, else none |
| `SchemaShown.ComposedApart` | ci/scripts/schema-texts.js:102-114 | and every name once |
| `SchemaFields.PutsAreSaid` | ci/scripts/schema-texts.js:141-175 | the walk puts an exception if and only if some place reached gives one, and else exactly the texts that the places reached give |
| `SchemaFields.CollectSchemaTexts` | ci/scripts/schema-texts.js:131-181 | for every schema on which the walk does not come back, said of the document: the entries are exactly a label for every property reached, its title or else the derived name, and a description for every property and map value reached that has one, each under its path; it throws if and only if a name reached cannot be a key, items stand beside a property of that name, or a key would carry two texts |
| `EnvFiles.ParseEnvFile` | docker/setup-docker.js:674-698 | the last assignment of every key, trimmed |
| `EnvFiles.WrittenAssigns` | docker/setup-docker.js:770 | a line as it is written assigns exactly its value, trimmed, to its key |
| `EnvFiles.UpdatedLineSays` | docker/setup-docker.js:748-787 | a rewritten line assigns the first line of the new value to the same key and then makes the assignments of its other lines, or assigns what it did |
| `EnvFiles.WhatRewrittenSays` | docker/setup-docker.js:741-790 | for any values: the template's assignments in turn, each rewritten one with the lines of its value in turn |
| `EnvFiles.RewrittenSays` | docker/setup-docker.js:741-790 | the rewritten file says the template's keys with the values given, and everything else as before, if and only if only white space follows the first line of each text written, the quotes of a client secret included |
| `EnvFiles.RewrittenLines` | docker/setup-docker.js:741-790 | for values of one line each the rewritten file has the template's lines, each rewritten on its own |
| `EnvFiles.OtherLinesStay` | docker/setup-docker.js:745-753 | blank lines, comments and lines without a key stay as they are |
| `EnvFiles.AssignmentIsRewritten` | docker/setup-docker.js:755-785 | a line of a key becomes the key and its value, quoted where a client secret holds `$` or `=`, or stays where there is none; the admin's database user and password are taken from the shared ones |
| `EnvFiles.OffItsLineIsWrong` | docker/setup-docker.js:763-771 | a key whose text goes on behind its first line never gets its value, not even from another value's lines |
| `EnvFiles.LineBreakInjects` | docker/setup-docker.js:763-771 | a value of two lines in a file of one key: its second line assigns on its own |
| `EnvFiles.AppendedSays` | docker/setup-docker.js:1411-1412 | what a file says with an assignment appended |
| `SetupSecrets.PredictionIsRight` | docker/setup-docker.js:2759-2764 | the prediction is right if and only if the run does not fill in every token the gateway lacks |
| `SetupSecrets.PredictionIsRightWhenOffered` | docker/setup-docker.js:2728-2764 | so it is always right when only offered keys are regenerated |
| `DockerSetup.DockerSetup.GenerateShared` | docker/setup-docker.js:1174-1195 | all eight secrets are fresh exactly when there is no token yet, else nothing changes |
| `DockerSetup.DockerSetup.KeepCurrent` | docker/setup-docker.js:1197-1205 | kept values come from the current configuration unless chosen for regeneration |
| `DockerSetup.DockerSetup.ShareDatabase` | docker/setup-docker.js:1207-1238 | the database credentials given replace the shared ones, and a file-search password is generated exactly when there is none |
| `DockerSetup.DockerSetup.TakeOverToken` | docker/setup-docker.js:1328-1340 | a kept gateway token is taken over; a publicly known one is replaced in the file, a missing one stays missing |
| `DockerSetup.DockerSetup.Regenerate` | docker/setup-docker.js:1345-1357 | the chosen tokens are fresh in the file and among the shared secrets, all else stays |
| `DockerSetup.DockerSetup.SetupGatewayEnv` | docker/setup-docker.js:1321-1385 | which tokens the gateway file holds afterwards, that they are the shared ones, none publicly known; a kept file changes in nothing else, a created one is the sample with the settings and tokens given |
| `DockerSetup.DockerSetup.CarryOver` | docker/setup-docker.js:1459-1476 | a real master key is carried over unless chosen for regeneration |
| `DockerSetup.DockerSetup.EnsureConnectionCredentialKey` | docker/setup-docker.js:1398-1415 | a missing connection key is added, a real one never replaced, nothing else changes |
| `DockerSetup.DockerSetup.KeepAdmin` | docker/setup-docker.js:1422-1436 | a kept admin file changes only in a publicly known token and a missing connection key |
| `DockerSetup.DockerSetup.SetupAdminEnv` | docker/setup-docker.js:1417-1512 | kept, or rewritten from the sample with the shared secrets and the carried-over master keys |
| `DockerSetup.AdminUpdatesAre` | docker/setup-docker.js:1479-1501 | what the admin's file is rewritten with, key by key |
| `DockerSetup.GatewayUpdatesAre` | docker/setup-docker.js:1360-1383 | what a created gateway file gets, key by key |
| `DockerSetup.DockerSetup.ValidateSharedTokens` | docker/setup-docker.js:1248-1285 | valid if and only if both files exist and hold the same two tokens |
| `DockerSetup.DockerSetup.PredictTokenMismatch` | docker/setup-docker.js:2759-2764 | a kept gateway file lacks a token |
| `DockerSetup.DockerSetup.ExistingGeneratedKeys` | docker/setup-docker.js:2728-2752 | exactly the keys offered for regeneration |
| `DockerSetup.DockerSetup.SetupServiceEnvFiles` | docker/setup-docker.js:1171-1246 | starting without shared secrets: the check passes if and only if the state before said so, no file is left with a publicly known token, and real master keys survive |
| `DockerSetup.DockerSetup.ReviewAndWrite` | docker/setup-docker.js:2948-3092 | an interactive run: the prediction on the review screen is true if and only if the check fails after writing |
| `JsTokens.ReadString` | ci/scripts/i18n-literals.js:172-183 | the text and the end of a string literal as defined; `JsPrinting.EscapedStringReads` says what that is for every text that can be written |
| `JsPrinting.EscapedStringReads` | ci/scripts/i18n-literals.js:172-183 | every literal reads as its characters up to its closing quote, escapes as what they stand for, whatever follows |
| `JsPrinting.EveryTextIsWritten` | ci/scripts/i18n-literals.js:157-160 | and every text can be written in a literal of either quote and in a template |
| `JsTokens.ReadTemplate` | ci/scripts/i18n-literals.js:184-211 | the text and the end of a template literal as defined; `JsPrinting.TemplateReads` says what that is for every template that can be written |
| `JsPrinting.HoleEndsAt` | ci/scripts/i18n-literals.js:189-205 | a hole ends behind the brace that closes properly nested braces, quoted parts and other characters, and nowhere else |
| `JsPrinting.RegexEndsAt` | ci/scripts/i18n-literals.js:216-232 | a regular expression ends at the slash behind characters, escapes and classes, and at no other |
| `JsPrinting.TemplateReads` | ci/scripts/i18n-literals.js:184-211 | every written template reads as its text with a mark for each hole, whatever braces and quotes the holes hold, up to its closing backtick |
| `JsTokens.Scan` | ci/scripts/i18n-literals.js:167-252 | one round of the scanner gives the next gap or token |
| `JsTokens.Tokenize` | ci/scripts/i18n-literals.js:162-254 | terminates on every input, with the tokens of the lexical definition |
| `JsTokens.SpansAreApart` | ci/scripts/i18n-literals.js:162-254 | every token is read between its start and its end inside the source, and the next one starts behind that end, literals and regular expressions included |
| `JsTokens.TokenInPlace` | ci/scripts/i18n-literals.js:162-254 | every token is what the source reads as between its start and its end after the tokens before it; identifiers, numbers, regular expressions and punctuation stand there as they are |
| `JsPrinting.WrittenReadsBack` | ci/scripts/i18n-literals.js:162-254 | scanning written source gives its tokens at their places, with any white space and comments between them: literals in either quote with any escapes, templates with holes, regular expressions where an expression may start, identifiers, numbers, punctuation and `?.` |
| `JsPrinting.GapIsSkipped` | ci/scripts/i18n-literals.js:168-171 | white space, line comments and block comments up to their first end mark are no tokens |
| `JsPrinting.OpenCommentIsGap` | ci/scripts/i18n-literals.js:171 | a block comment without an end mark takes the rest of the source |
| `JsPrinting.RegexStartsExactlyWhen` | ci/scripts/i18n-literals.js:213-217 | a slash that starts no comment starts a regular expression if and only if no token is before it, or one of twenty marks or fourteen keywords |
| `Brackets.Matching` | ci/scripts/i18n-literals.js:259-273 | the first closing bracket that evens the count of its kind, or the last token |
| `Brackets.NestedIsNeutral` | ci/scripts/i18n-literals.js:259-273 | properly nested tokens are neutral for every kind of bracket |
| `Brackets.MatchIsPartner` | ci/scripts/i18n-literals.js:259-273 | at the opening bracket of a properly nested group, whatever stands around it, the result is the group's own closing bracket |
| `CommitReplay.GetCommitsAfter` | cli-tools/sync-commits.js:130-161 | exactly the commits newer than the newest whose subject the destination has, oldest first |
| `CommitReplay.Destination.WriteChanges` | cli-tools/sync-commits.js:269-305 | applied: the files are the commit's, nothing unreadable or clashing among them; failed: undone, and a content could not be read; crashed: only where a file replaces a directory on disk |
| `CommitReplay.Destination.ApplyCommit` | cli-tools/sync-commits.js:250-345 | without a clash it fails if and only if a content cannot be read or the commit is refused, and is clean with the tree before; else it is applied: clean with the commit's tree, one commit more unless nothing changed; with a clash it is never applied |
| `CommitReplay.Destination.ReplayFrom` | cli-tools/sync-commits.js:405-416 | stopped or done, the history is extended by the commits replayed, in order, and the tree is that of the last |
| `CommitReplay.Destination.Sync` | cli-tools/sync-commits.js:360-416 | from a shared boundary: whatever is replayed ends clean with that commit's tree and the commits in order; with every read and commit succeeding, the source's HEAD is reached if and only if no commit puts a file where there is or once was a directory |
| `CommitReplay.RerunFindsNothing` | cli-tools/sync-commits.js:369-376 | a second run finds nothing if and only if the newest commit changed a file and has a subject |
| `SourceHeaders.HeaderManager.HasHeader` | cli-tools/manage-headers.js:104-121 | the lines below a shebang start with the header's |
| `SourceHeaders.HeaderManager.AddHeader` | cli-tools/manage-headers.js:123-148 | the header and a blank line below a shebang, or at the top |
| `SourceHeaders.HeaderManager.RemoveHeader` | cli-tools/manage-headers.js:150-190 | the lines behind the header without the blank ones at the top |
| `SourceHeaders.HeaderManager.ProcessFile` | cli-tools/manage-headers.js:192-252 | the mode switch and its counters: a file is modified or skipped, never both |
| `SourceHeaders.AddedIsFound` | cli-tools/manage-headers.js:104-148 | the header added is found again if and only if its lines do not end in a carriage return and it does not take the place of a shebang |
| `SourceHeaders.AddTwiceIsOnce` | cli-tools/manage-headers.js:226-247 | adding twice is adding once if and only if that, or the header was there |
| `SourceHeaders.RemovedFromAdded` | cli-tools/manage-headers.js:150-190 | exactly what removing leaves after adding |
| `SourceHeaders.RemoveUndoesAdd` | cli-tools/manage-headers.js:226-247 | removing after adding gives the normalised file without the blank lines at its top if and only if the header is found again, no line above it ends in a carriage return, and of the lines that stay only the last may |
| `SourceHeaders.RemoveChangesAFile` | cli-tools/manage-headers.js:226-247 | a file with two carriage returns before a line break comes back changed |
| `CopyBlocks.CountExternalBlobsInDump` | cli-tools/kyma-db-manager.js:493-515 | per storage other than db: the exact number of rows and the exact sum of their sizes |
| `CopyBlocks.SizeReadsBack` | cli-tools/kyma-db-manager.js:511 | the size counted for a row is the number printed there |
| `CopyHeader.MatchesExactlyWhen` | cli-tools/kyma-db-manager.js:494 | a header is matched, with its list and what is behind it, if and only if the text is written so: the keywords, the table's name with or without schema and quotes, white space, a list without a closing bracket, and a line's end |
| `CopyBlocks.DumpIsFound` | cli-tools/kyma-db-manager.js:494-503 | for every printed dump: the header found is the blobs' own if and only if it matches at no place before, within a line or across lines, and then the rows counted are those of the blobs' table, all of them |
| `CopyBlocks.PrintedRowIsRow` | cli-tools/kyma-db-manager.js:499-500 | a row in PostgreSQL's COPY text format, whatever its fields hold, has no line that starts like a terminator, so the data ends where it is printed to end |
| `CopyBlocks.TallyIsOfAll` | cli-tools/kyma-db-manager.js:502-503 | leaving empty lines out changes no count |
| `CopyBlocks.OtherHeadersAreNone` | cli-tools/kyma-db-manager.js:494 | no header of another table, its name quoted or not and whatever follows it, matches as that of the blobs' table, unless a quoted name continues file_blobs with white space |
| `CopyBlocks.RowReadsAsHeader` | cli-tools/kyma-db-manager.js:494-503 | a dump with a row that reads as the header: the rest of the row's table is counted instead |
| `CopyBlocks.TwoRowsReadAsHeader` | cli-tools/kyma-db-manager.js:494-503 | a dump with two rows that read as the header together, the column list across their line feed: the same |
| `CopyBlocks.SeparatorEndsHeader` | cli-tools/kyma-db-manager.js:494-503 | a dump with a row that reads as the header up to a line separator in it: what is behind that is counted as a row too |
| `CopyBlocks.FirstMatchIsTaken` | cli-tools/kyma-db-manager.js:494-503 | behind the header of another table, whatever text matches is taken for the header, wherever the blobs' own is |
| `CopyBlocks.ColumnsReadBack` | cli-tools/kyma-db-manager.js:496 | a printed column list is read back, quoted names without their quotes |
| `CopyFilter.EndIsFirst` | cli-tools/kyma-db-manager.js:1077 | a cut ends behind the first line that is a terminator, and there is none where no line is one |
| `CopyFilter.FilteredIsLeft` | cli-tools/kyma-db-manager.js:1077-1081 | the text with stretches to cut in it: exactly those are cut if and only if no match starts outside them, and otherwise more |
| `CopyFilter.OnlyCdsModelGoes` | cli-tools/kyma-db-manager.js:1077-1081 | for every printed dump: the filter removes the whole data of the tables whose printed names start with cds_model and nothing else if and only if at no place in what stays a line starts like the header of one with a terminator line behind it |
| `CopyFilter.RowIsCutAt` | cli-tools/kyma-db-manager.js:1077-1081 | a dump with a row that starts so: the rest of its table's data goes, the terminator included |
| `CopyFilter.SeparatorIsCutAt` | cli-tools/kyma-db-manager.js:1077-1081 | a dump with a row that starts so behind a line separator in it: all of the table behind the separator goes |
| `CopyFilter.CountsAreKept` | cli-tools/kyma-db-manager.js:1071-1125 | where nothing else is cut, the counts after the filter are those of the blobs' table in the whole dump if the header matches at no place before it in what is left |

## Left out

- SchemaFields.CollectSchemaTexts: the order of the entries is not stated; schemas on which the walk comes back are excluded; on those the source never returns texts, but a name or a conflict it meets before may end it with an exception.
- PropertiesBundle.SplitBundle: UI5's own parser is not modelled; reading a value is the repository's `parseValue`.
- DockerSetup.DockerSetup.SetupServiceEnvFiles: values of one line only, which is what the generators, the prompts and the files read give; `EnvFiles.WhatRewrittenSays` says what another value does. The tokens shared at the start have no white space around them.
- CommitReplay.Destination.Sync: the source has a shared boundary with the destination's tree, so every new commit has exactly one parent; root and merge commits, for which `git diff-tree` lists nothing, are not modelled.
- CopyBlocks.DumpIsFound: the blobs' columns have no comma, parenthesis or quote in their names.
- CopyFilter.OnlyCdsModelGoes: no name in the header of an excluded table holds a line that starts like a terminator.
- EnvFiles.RewrittenSays: the updates have no empty key, and keys that every JavaScript object has, such as `constructor`, are not modelled.
- CopyBlocks.CountExternalBlobsInDump: sizes are decimal digits; the result is a map, so the sort by storage name is not modelled.
- QuestionSet.GenerateQuestionSet: shares and token counts are exact rationals and integers, not floating point; the breakdown of the rejections by reason is not tied to the replies.
- Strings are sequences of Unicode characters, not UTF-16 units; a lone surrogate from a `\u` escape reads as U+FFFD.
- Objects are maps: keys such as `__proto__` and the order of integer-like keys are not modelled.
- git paths that git would quote, file modes, symbolic links, submodules and ignored files; a rename is a move that git reports under its destination.
- Author names with a `|` in `git log` lines, and the dates of replayed commits.
- The working tree is read at once at the start of a run; git answers truthfully or fails.
- `normalise`, the step from it to bare words, deflate, UTF-8 encoding and the derived labels are uninterpreted functions; the HTTP service, the language model, the clock and the random generators are arbitrary functions of the number of calls made.
- Exceptions that are not the code's own, such as a full disk, except where a partly written marker matters.
- `buildTruncateStatement`, `buildRestoreInput`, the API-configuration filter and the warnings around the blob counts: expressions without a property beyond their text.
- `applyTranslations`, the translation lock, `--check` and the messages of the bundle generator.
- The abort after a failed token check, and the env files of the other services.
- The attribute and XML scanners around `tokenize`, and `literalsIn`: lists of what they find, without an independent definition.
- Backups, verbose output and file discovery of the header tool.
- Terminal output, prompts, Docker, Kubernetes, service start-up, log polling, Trivy and the rest of `ci/ci-pipeline.js`.
- Secret scanning, audit gates, percentile and retry helpers, and the screencast scripts.
