# Verified model of the repository's algorithmic core

The repository indexes Java code bases, serves the index to coding agents, and
measures with a benchmark what the index is worth to them. This project models
the parts whose correctness rests on an argument rather than on a single branch,
and proves that argument for every input, every run or every reachable state.

| module | what it models |
|---|---|
| `Kappa` | Cohen's kappa over two raters' label lists |
| `SetMatch` | precision, recall, F1 and F2 of an answer's symbol set |
| `Calibration` | the gate that compares two answer sources per category |
| `WrapRule` | three rewriting passes that substitute rule parameters |
| `Blinding` | the regular-expression scrubber of tool names in transcripts |
| `Grid` | the expansion of the experiment grid and the ids of its cells |
| `Resume` | the crash-and-resume protocol of the grid driver |
| `CellStream` | the turn-capped read loop and the parser of one cell's stream |
| `LineFilter` | the chunked filter of noisy output lines |
| `JavaLayout` | the pruned directory walk that classifies a build layout |
| `HostUpdate` | migration and refresh of agent hosts and their shared configuration files |
| `Staleness` | the doubly bounded walk behind the freshness verdict |
| `LangStrip` | stripping language flags ahead of routing a command line |
| `OptimizeRetry` | table optimization with retries and progress events |
| `Traversal` | edge deduplication and truncation with node closure |
| `VersionBump` | the text rewrites of a version line and a dependency pin, and the version check |
| `Release` | the lockstep bump of two project files, read by an independent TOML reader |
| `Decimals` | decimal digits, used by the ids of `Grid` and the sentinels of `WrapRule` |
| `Common` | an option type and duplicate-free sequences, shared by the others |

Where the original works step by step, so does the model: a class or a method
with loops, tied by its postcondition to a specification function or predicate,
about which the lemmas speak. Exceptions and error returns are values of result
types. Everything outside a module's reach is an arbitrary parameter: the outcome
of each file operation, the moment of a crash, which directories are pruned,
which lines are noise, what a model writes.

## Findings

Twelve of the properties one would expect hold only under a condition. Each has its
exact condition here, next to the proof.

- The staged substitution is one simultaneous substitution for all values exactly
  when no key shadows a longer placeholder (`WrapRule.AgreesOnAllValuesExactly`);
  `$callee` under the sole key `call` is corrupted (`WrapRule.ShadowingCorrupts`).
- Cells of two different questions can share an id exactly when one question id
  continues the other with an underscore and a condition id
  (`Grid.CollideExactly`, `Grid.UnderscoreCollides`). The id check rules that out
  (`Grid.RunIdInjective`).
- A first pass without resume completes each cell at most once exactly when the ids
  are distinct (`Resume.FreshPassNeedsDistinctIds`).
- A negative limit passes the clamp. A displayed direction of a hierarchy keeps to
  its bound exactly for limits from -1 on, or when the two cuts leave nothing
  (`Traversal.ShownBounded`, `Traversal.NegativeLimitRun`). The inbound section of a
  connection does so exactly for limits that are not negative or that cut off all its
  producers, its outbound section always (`Traversal.SectionsBounded`,
  `Traversal.NegativeSectionRun`).
- The truncation flag of a connection view tells the truth exactly if a section
  overflows or no matching client lies beyond the rows fetched before filtering
  (`Traversal.ConnectionFlagTrueExactly`, `Traversal.ConnectionLosesSilently`).
- An interrupted optimize run reports `done` exactly when listing did not fail and
  no table completed before the interrupt went wrong
  (`OptimizeRetry.InterruptedDoneExactly`, `OptimizeRetry.CancelledRunSaysDone`).
- Stripping language flags changes the route exactly when the canonical program is
  given nothing but valid language settings (`LangStrip.RouteChangesExactly`,
  `LangStrip.LangAloneChangesRoute`).
- Stripping is not idempotent: a second pass removes something exactly when the
  first brings a flag and a value together (`LangStrip.StripAgainExactly`,
  `LangStrip.StripBringsTogether`).
- After an update without failures the marker file tells the truth exactly when
  its own write, whose failure is only reported, went through or was not needed
  (`HostUpdate.MarkerTrueExactly`, `HostUpdate.MarkerCanLie`). Without a marker to
  start from, the next update then finds no host at all
  (`HostUpdate.ScanTrueExactly`).
- A migration is recorded whether or not its results succeeded
  (`HostUpdate.FinishedRunTriedAll`), and what a failed teardown left behind is then
  out of reach of any later update to the same surface (`HostUpdate.LeftoversStay`,
  `HostUpdate.LeftoverExists`).
- The version check accepts a target that ends in a line feed, although its
  documentation demands plain `X.Y.Z` (`VersionBump.LineFeedGoesUnnoticed`,
  `VersionBump.LineFeedIsLost`).
- A bump to a plain version that reports success puts both files, as a TOML reader
  sees them, and every pin on it exactly when the reader follows the lines that the
  rewrite changes, or says that version anyway (`Release.BumpedExactly`). Whether it
  follows a line can be seen on the file (`Release.FollowsSeen`). A root whose
  version stands in triple quotes cannot be read after the bump
  (`Release.TripleQuotesBreak`).

## Model

| member | source | states |
|---|---|---|
| `Kappa.LabelSumIsCrossPairs` | bench/grade.py:798-803 | Summing the products of the two counts over any duplicate-free enumeration of labels that covers the first list, in any order, counts the pairs of positions with equal labels; so the score does not depend on the iteration order of the label set |
| `Kappa.InclusionExclusion` | bench/grade.py:794-803 | For each label, the two counts together exceed the list length by at most the positions where both lists carry it |
| `Kappa.ChanceAgreementBound` | bench/grade.py:794-803 | 2·S ≤ n² + n·a: chance agreement lies at most halfway between full and observed agreement, the inequality behind the lower bound -1 |
| `Kappa.GuardIsConstant` | bench/grade.py:805-806 | S ≤ n², with equality exactly when both lists are constant on the same label, so the guard covers every zero divisor |
| `Kappa.KappaInRange` | bench/grade.py:781-807 | Kappa lies in [-1, 1] for all non-empty lists of equal length |
| `Kappa.KappaIsOne` | bench/grade.py:768-773 | Kappa is 1 exactly when the lists agree everywhere and are not constant |
| `Kappa.KappaSymmetric` | bench/grade.py:759-807 | Exchanging the raters does not change kappa |
| `Kappa.ChanceAgreement` | bench/grade.py:798-803 | The accumulation over the label set, visited in any order, yields S / n² exactly |
| `Kappa.CohenKappa` | bench/grade.py:784-807 | Unequal lengths and empty lists are rejected, everything else scores kappa of the agreement and cross-pair counts |
| `SetMatch.F2ClosedForm` | bench/grade.py:217-239 | F2 is 5·tp / (4·truth + extracted) when something was found and 0 otherwise, through all three zero guards |
| `SetMatch.F1ClosedForm` | bench/grade.py:224-227 | F1 is 2·tp / (truth + extracted) when something was found and 0 otherwise |
| `SetMatch.RatiosExactly` | bench/grade.py:217-222 | Precision times the number of named symbols, and recall times the number of expected ones, is the number of hits; each is 0 where it is no ratio |
| `SetMatch.F2BetweenPrecisionAndRecall` | bench/grade.py:224-239 | F2 lies between precision and recall, whichever is larger |
| `SetMatch.F2PerfectExactly` | bench/grade.py:217-239 | F2 is 1 exactly when the two sets are equal and non-empty |
| `SetMatch.F2RisesOnHit` | bench/grade.py:228-239 | Naming one more expected symbol strictly raises F2 |
| `SetMatch.F2FallsOnMiss` | bench/grade.py:228-239 | Naming a spurious symbol strictly lowers F2 once something was found, and changes nothing before |
| `Calibration.CategoriesSumToOverall` | bench/oracle/calibration.py:91-105 | Matches and totals of the compared categories sum to the overall ones, in any order of the categories |
| `Calibration.MatchesExactly` | bench/oracle/calibration.py:91-98 | The matches counted are the questions in scope that both sources answer, and alike |
| `Calibration.Mediant` | bench/oracle/calibration.py:101-106 | If every summand meets the threshold, so does the pooled ratio |
| `Calibration.CategoriesDecide` | bench/oracle/calibration.py:105-106 | If every compared category meets the threshold, the overall ratio does |
| `Calibration.CalibrateFromExpected` | bench/oracle/calibration.py:81-107 | Reports exactly the compared categories with their agreement, and passes exactly when at least one was compared and in each the matches are at least the threshold times the total, although the code also consults the overall ratio |
| `WrapRule.SwappedIsPartial` | bench/oracle/jqa_runner.py:74-77 | After the first i parameters, the text is the template with each matching placeholder replaced by the sentinel of the first such key, everything else copied |
| `WrapRule.StagedIsStage3` | bench/oracle/jqa_runner.py:69-85 | The three stages together equal the last stage's replacements on the template's tokens |
| `WrapRule.StagedIsSimultaneous` | bench/oracle/jqa_runner.py:69-85 | Without shadowing, the staged passes equal one simultaneous substitution that never rescans values: provided names become their quoted value, all other names NULL |
| `WrapRule.SimultaneousOne` | bench/oracle/jqa_runner.py:78-81 | Up to and including the first placeholder, whose name is as long as possible, the simultaneous substitution keeps the text and puts the quoted value or NULL; the rest is substituted on its own |
| `WrapRule.SimultaneousCopies` | bench/oracle/jqa_runner.py:81 | Text is copied as far as no dollar sign in it is followed by the start of a name |
| `WrapRule.QuoteReads` | bench/oracle/jqa_runner.py:77 | A reader of JSON string literals (section 7 of RFC 8259, surrogate pairs included) reads a quoted value back as exactly that value, and consumes it to its last character whatever stands behind it: no value can break out of its literal |
| `WrapRule.QuoteInjective` | bench/oracle/jqa_runner.py:77 | Different values are quoted differently |
| `WrapRule.AgreesOnAllValuesExactly` | bench/oracle/jqa_runner.py:69-85 | For a NUL-free template and identifier keys, staged and simultaneous substitution agree on all values if and only if nothing is shadowed |
| `WrapRule.OrderIrrelevant` | bench/oracle/jqa_runner.py:74-77 | When no key is a proper prefix of a placeholder's name, the order of the parameters does not matter |
| `WrapRule.ShadowingCorrupts` | bench/oracle/jqa_runner.py:76 | A concrete corrupted placeholder: `$callee` under the key `call` |
| `WrapRule.SubstituteParams` | bench/oracle/jqa_runner.py:68-85 | The loops with their sentinel table compute the staged substitution, hence the simultaneous one where nothing is shadowed |
| `Decimals.DecimalInjective` | bench/oracle/jqa_runner.py:75 | Different sentinel numbers have different digits |
| `Decimals.IntegerInjective` | bench/claude_runner.py:258 | Different seeds, negative ones included, have different digits |
| `Decimals.IntegerReads` | bench/claude_runner.py:258 | A minus sign stands exactly in front of negative numbers, and the digits behind it read back as the magnitude, without leading zeros |
| `Blinding.EngineSound` | bench/grade.py:501-503 | What the matcher reports at a position is a match of the pattern there, bounded on both sides |
| `Blinding.EngineComplete` | bench/grade.py:501-503 | Where a match starts, the matcher reports one, backtracking included |
| `Blinding.BlindingIsComplete` | bench/grade.py:506-523 | No slice of the blinded text is a match of the tool-name pattern, not even one that straddles placeholders |
| `Blinding.BlindingKeepsProse` | bench/grade.py:509-523 | The blinded text is the transcript with certain matches, each a match where it stands with its word boundaries, replaced by one placeholder each; every match starts in one of them, and all text between them is kept |
| `Blinding.BlindingTwice` | bench/grade.py:513-523 | Text without a match is unchanged, and blinding twice is blinding once |
| `Blinding.SingleWord` | bench/grade.py:485-503 | A word standing alone is replaced by `[tool]` exactly if it is one of the five names or a legacy token; a longer word that contains such a name is not |
| `Blinding.CallIsReplaced` | bench/grade.py:485-503 | `jrag`, any space and a known verb are replaced together by one `[tool]` |
| `Blinding.VerbHidden` | bench/grade.py:506-523 | In every text, putting any other known verb into any bounded `jrag` and verb leaves the blinded text the same |
| `Blinding.ShippedPattern` | bench/load_conditions.py:43-57 | The shipped verb list meets the assumptions of the results above: word tokens, none extending another by a dash, none ending in the program's name |
| `Grid.GridSize` | bench/run_bench.py:60-89 | The expansion has as many cells as the product of the four list lengths |
| `Grid.GridAt` | bench/run_bench.py:62-89 | The cell at index (i, j, k, l) is exactly question i, condition j, model k, seed l |
| `Grid.IndexIsRowMajor` | bench/run_bench.py:72-75 | That index is ((i·C + j)·M + k)·S + l |
| `Grid.IndexOnto` | bench/run_bench.py:72-87 | Every position is the index of some coordinate, so indexing is a bijection |
| `Grid.RunIdInjective` | bench/claude_runner.py:256-258 | Equal ids of validated cells have equal question id, condition id, model and seed, although models may contain underscores |
| `Grid.QuestionIdExactly` | bench/load_questions.py:49 | The id check passes exactly for lower-case letters, digits and hyphens, at least one, with perhaps a line feed behind them |
| `Grid.RunIdReads` | bench/claude_runner.py:256-258 | A concrete id with its parts in order and a negative seed |
| `Grid.UnderscoreCollides` | bench/load_questions.py:49 | Without the id check two different cells share an id |
| `Grid.CollideExactly` | bench/claude_runner.py:256-258 | For any two different question ids, some of their cells share a run id exactly when one id continues the other with a condition id |
| `Grid.CellIdsDistinct` | bench/run_bench.py:62-89 | Duplicate-free validated inputs give pairwise distinct cell ids |
| `Grid.LastRecordWins` | bench/run_bench.py:55-59 | The name table holds the last record of each name |
| `Grid.ExpandModels` | bench/run_bench.py:73-87 | The two inner loops append exactly one question-and-condition row |
| `Grid.ExpandConditions` | bench/run_bench.py:72-87 | The three inner loops append exactly one question's rows |
| `Grid.ExpandGrid` | bench/run_bench.py:55-89 | Yields the whole grid, or the error for the first question whose corpus is unknown |
| `Resume.RunsConsistent` | bench/run_bench.py:126-181 | Over every sequence of crashes and restarts from an empty directory: per-cell files are absent or complete, each is put in place once, the aggregate holds completed cells' own lines each at most once, it lags behind by at most one per crash, and a pass that ends normally leaves every cell completed |
| `Resume.CompletedCellsStay` | bench/run_bench.py:168-181 | A completed cell's file is never touched again, whatever happens in later runs |
| `Resume.PassConsistent` | bench/run_bench.py:241-256 | Every pass, crashed or not, keeps that invariant |
| `Resume.PassKeeps` | bench/run_bench.py:241-245 | Every pass keeps the cells completed before it |
| `Resume.PassCompletes` | bench/run_bench.py:241-256 | A pass that does not crash completes every cell |
| `Resume.PassFills` | bench/run_bench.py:168-181 | A resuming pass that does not crash leaves the file of each cell non-empty, whatever it found |
| `Resume.PassResults` | bench/run_bench.py:241-256 | What a pass returns as results are the cells it put in place, in order, with one aggregate line each; a crash hides at most one more |
| `Resume.IdlePass` | bench/run_bench.py:241-245 | Resuming where all cells are completed runs nothing and changes nothing |
| `Resume.NoTemporariesLeft` | bench/run_bench.py:139-165 | After any crashes and restarts, a pass that ends without a crash leaves no temporary file |
| `Resume.CrashesCounted` | bench/run_bench.py:126-181 | The crashes that the loss bound counts are those of the passes |
| `Resume.AmpleBudget` | bench/run_bench.py:241-256 | Five elementary steps for each cell are enough for a pass not to crash |
| `Resume.FreshPassNeedsDistinctIds` | bench/run_bench.py:241-256 | An uninterrupted pass without resume completes each cell at most once exactly when the ids are distinct |
| `Resume.RunDir.WriteCell` | bench/run_bench.py:139-165 | The temporary file, replace and append steps, cut off at every possible point |
| `Resume.RunDir.ExecuteCell` | bench/run_bench.py:246-255 | One cell's run and write, cut off at every possible point |
| `Resume.RunDir.RunGrid` | bench/run_bench.py:197-256 | The loop computes the modelled pass: same disk, same crash, same list of executed cells |
| `CellStream.ProbesAgree` | bench/claude_runner.py:533-541 | The loop's probe (leading brace, parse, object, type) and the parser's test (non-blank, parse, type) find the same assistant events, whatever the JSON parser makes of the texts |
| `CellStream.CountsAgree` | bench/claude_runner.py:74-93 | Read loop and parser count the same turns on every stream |
| `CellStream.KeptUnique` | bench/claude_runner.py:525-548 | Stream and limit determine the part that is read |
| `CellStream.ReadLoop` | bench/claude_runner.py:523-548 | Buffer and transcript are the same part of the stream, the counter is its number of assistant events, and the cap strikes exactly when the stream holds an assistant event and more of them than the limit |
| `CellStream.ParseStream` | bench/claude_runner.py:48-147 | Raises exactly when some line is JSON but no object, carries a non-object message, names a tool by a value that cannot be a key, or has token counts that do not add up; else turns, named tool uses, their breakdown, result sizes and token counts are those of the lines, and the result fields are the last result event's |
| `CellStream.LastResultExactly` | bench/claude_runner.py:115-122 | The result event used is the one behind which no other comes |
| `CellStream.LastUsageExactly` | bench/claude_runner.py:124-132 | The token counts are those of the last result event that reports usage |
| `CellStream.WhatCounts` | bench/claude_runner.py:85-113 | Tool uses count in assistant events only and with a name only, tool results in user events only |
| `CellStream.RunCell` | bench/claude_runner.py:491-582 | The part that is read, the loop's counter, raising, turns, tool calls, token counts, exit reason (the API error status included) and answer are all determined by stream, limit and timeout |
| `CellStream.TotalIncrement` | bench/claude_runner.py:100-102 | Counting one use raises the breakdown's sum by one |
| `CellStream.TotalRemove` | bench/claude_runner.py:57 | The breakdown's sum is independent of the order in which entries are taken |
| `CellStream.SumValues` | bench/claude_runner.py:57 | The loop over the breakdown computes its sum |
| `LineFilter.SplitExists` | src/java_codebase_rag/cli_progress.py:21-23 | Every stream splits into terminated lines and an unterminated tail |
| `LineFilter.SplitUnique` | src/java_codebase_rag/cli_progress.py:21-23 | That split is unique |
| `LineFilter.NextFlag` | src/java_codebase_rag/cli_progress.py:24-30 | The one suppression flag is exactly whether the line-by-line rule would drop an indented line next |
| `LineFilter.NextOutput` | src/java_codebase_rag/cli_progress.py:24-32 | One more line extends the reference output as the loop's branches do |
| `LineFilter.BehindNoise` | src/java_codebase_rag/cli_progress.py:24-32 | Behind a noise line, a line goes too exactly if it starts with a space or a tab |
| `LineFilter.PlainLineSeparates` | src/java_codebase_rag/cli_progress.py:24-32 | A line that is neither noise nor indented is kept, and what comes before and behind it is filtered independently |
| `LineFilter.RestIsKept` | src/java_codebase_rag/cli_progress.py:34-40 | An unterminated rest is written unless it is noise itself, whatever block it follows |
| `LineFilter.AsyncLineFilter.Feed` | src/java_codebase_rag/cli_progress.py:19-32 | Afterwards output, buffer and flag are those of the whole stream so far, wherever the chunks were cut |
| `LineFilter.AsyncLineFilter.Flush` | src/java_codebase_rag/cli_progress.py:34-40 | The unterminated tail is written unless it is noise, and the object is ready for a new stream |
| `LineFilter.Drain` | src/java_codebase_rag/cli_progress.py:19-40 | Feeding any chunks and flushing writes the line-by-line filtering of their concatenation |
| `LineFilter.FilteringTwice` | src/java_codebase_rag/cli_progress.py:19-40 | Filtering the output again changes nothing |
| `JavaLayout.WalkFindsTopMarkers` | src/java_codebase_rag/installer.py:293-300 | The pruned walk records exactly the unpruned marker directories without a marker above them |
| `JavaLayout.RecordedAntichain` | src/java_codebase_rag/installer.py:298-300 | No recorded directory lies inside another |
| `JavaLayout.RecordedCovers` | src/java_codebase_rag/installer.py:293-300 | Every unpruned marker directory lies at or below exactly one recorded one |
| `JavaLayout.TopLevelNames` | src/java_codebase_rag/installer.py:302-310 | The top-level names of recorded directories are exactly the children whose unpruned subtree holds a marker |
| `JavaLayout.LessExactly` | src/java_codebase_rag/installer.py:311 | Names are compared at the first place where they differ, by character, a prefix first |
| `JavaLayout.DiscoverMarkers` | src/java_codebase_rag/installer.py:292-300 | The walk that clears its directory list in place records what the recursive description does |
| `JavaLayout.SortedNames` | src/java_codebase_rag/installer.py:311 | A strictly increasing list of exactly the given names |
| `JavaLayout.InsertSorted` | src/java_codebase_rag/installer.py:311 | One insertion keeps the order and adds just the new name |
| `JavaLayout.DetectJavaLayout` | src/java_codebase_rag/installer.py:257-315 | Which kind of layout, and its directories: for siblings the names of exactly the children with a marker, each once and in the order of the listing; for a multi-system parent the top-level names with a marker below, increasing |
| `HostUpdate.FilesApart` | src/java_codebase_rag/installer.py:106-121 | No two shipped files can share a path, wherever the project and home directories are |
| `HostUpdate.ManifestExactly` | src/java_codebase_rag/installer.py:141-151 | The list of a surface holds exactly the artifacts of that surface, each once |
| `HostUpdate.DocumentsApart` | src/java_codebase_rag/installer.py:94-117 | No shipped file can be a configuration document or the marker |
| `HostUpdate.HostsApart` | src/java_codebase_rag/installer.py:72-121 | Different hosts share no directory and no document within a scope; project places lie under the project, user places under the home directory |
| `HostUpdate.WithEntryKeeps` | src/java_codebase_rag/installer.py:812-825 | Merging our entry keeps all other servers and keys |
| `HostUpdate.WithoutEntryKeeps` | src/java_codebase_rag/installer.py:1757-1768 | Removing it keeps them too; the server table goes exactly if our entry was its only one |
| `HostUpdate.EveryRunIsContained` | src/java_codebase_rag/installer.py:1863-2007 | In every run, failed or not, files change only at detected hosts' artifact paths, documents only at their configuration paths and only in our entry, and the marker only by a finished real migration |
| `HostUpdate.DryRunChangesNothing` | src/java_codebase_rag/installer.py:1863-2007 | A dry run leaves files, documents and marker as they were |
| `HostUpdate.NoWriteNoChange` | src/java_codebase_rag/installer.py:1863-2039 | Where no write goes through and none leaves anything behind, no run changes anything |
| `HostUpdate.EarlyExits` | src/java_codebase_rag/installer.py:1904-1966 | A run ends at once exactly without hosts, and for want of a binary exactly when some host is really to migrate and neither the search path nor a prompt yields one; neither changes anything |
| `HostUpdate.CleanRunSettles` | src/java_codebase_rag/installer.py:1972-2039 | After a real run whose results all succeed, every host keeps its place and is on the chosen surface, or on its own without a choice; every artifact of that surface is there and current, and every artifact of the surface it left is gone |
| `HostUpdate.FinishedRunTriedAll` | src/java_codebase_rag/installer.py:1968-2049 | A failure stops nothing: a finished run holds a result for every artifact of every host, and a migration is recorded exactly if its marker write goes through, whether or not its results succeeded |
| `HostUpdate.LeftoversStay` | src/java_codebase_rag/installer.py:2037-2039 | Once the marker records a migration, no number of later updates to that surface touches a file of the other one, nor any document when it is `cli`; so what a failed teardown left behind stays |
| `HostUpdate.LeftoverExists` | src/java_codebase_rag/installer.py:1792-1816 | A concrete such project: recorded as `cli`, it keeps a file of the `mcp` surface through all later updates to `cli` |
| `HostUpdate.DamageShows` | src/java_codebase_rag/installer.py:1749-1758 | A run that is to enter or to remove an entry in a document that is no JSON object does not succeed |
| `HostUpdate.RefreshFails` | src/java_codebase_rag/installer.py:1590-1623 | A refresh reads every artifact, and a forced one writes every one anew, current or not: where reading, or under force writing, never works, every result fails |
| `HostUpdate.RefusedExactly` | src/java_codebase_rag/installer.py:858-912 | Where everything is refused nothing changes, and of all results only those for removing what is not there succeed |
| `HostUpdate.LoneMove` | src/java_codebase_rag/installer.py:1985-2012 | A concrete migration to `cli`: five operations, two files at their places, five successes |
| `HostUpdate.LoneMoveBack` | src/java_codebase_rag/installer.py:1985-2012 | Any fresh host moved to `mcp`, in either scope: the two files and the one document, at their places and with their contents |
| `HostUpdate.MarkerTrueExactly` | src/java_codebase_rag/installer.py:2003-2005 | After such a run the recorded hosts are all installed on the recorded surface exactly when no migration was needed or the marker write went through |
| `HostUpdate.MarkerCanLie` | src/java_codebase_rag/installer.py:1434-1443 | A concrete run without failures whose marker is wrong |
| `HostUpdate.ScanTrueExactly` | src/java_codebase_rag/installer.py:1376-1394 | Without a marker to start from, the next run finds every host again, and as installed, exactly when none had to migrate or the marker write went through; if neither, it finds no host at all |
| `HostUpdate.RescanChangesNothing` | src/java_codebase_rag/installer.py:1376-1394 | Repeating such a run changes nothing either |
| `HostUpdate.MigrationOverwritesNothing` | src/java_codebase_rag/installer.py:970-981 | Migrating a host leaves every file alone except those of the surface it leaves, which may go; a different file in the new surface's place is never overwritten |
| `HostUpdate.DiesExactly` | src/java_codebase_rag/installer.py:1747-1758 | Where every file can be read, a real run dies exactly when its binaries are found and some host is to leave the MCP surface whose document is no JSON object |
| `HostUpdate.DyingHostIsUntouched` | src/java_codebase_rag/installer.py:1747-1758 | A host whose update dies is left as it was |
| `HostUpdate.QuietWhenInstalled` | src/java_codebase_rag/installer.py:1592-1597 | Where all is installed and nothing migrates, an unforced run changes nothing, whatever the file system does |
| `HostUpdate.SecondRunChangesNothing` | src/java_codebase_rag/installer.py:1863-2007 | Repeating an update that succeeded and was recorded changes nothing |
| `HostUpdate.FeasibleRunIsClean` | src/java_codebase_rag/installer.py:1863-2007 | With a working file system, the binaries in place and no foreign content in the way, every result succeeds |
| `HostUpdate.Machine.WriteEntry` | src/java_codebase_rag/installer.py:803-847 | The read, merge and atomic write of a document, with every failure point |
| `HostUpdate.Machine.RemoveMcpEntry` | src/java_codebase_rag/installer.py:1736-1789 | The removal of our entry; a document that is no object ends the run |
| `HostUpdate.Machine.RemoveArtifactFile` | src/java_codebase_rag/installer.py:1792-1816 | The removal of a file; absence is success |
| `HostUpdate.Machine.DeployFile` | src/java_codebase_rag/installer.py:944-1009 | Deployment without a terminal: a different existing file is never overwritten |
| `HostUpdate.Machine.RefreshFile` | src/java_codebase_rag/installer.py:1562-1623 | The refresh of a file, forced or not, dry or not |
| `HostUpdate.Machine.RefreshMcpConfig` | src/java_codebase_rag/installer.py:1626-1733 | The refresh of our entry, which needs the binary on the search path |
| `HostUpdate.Machine.UndeploySurface` | src/java_codebase_rag/installer.py:1819-1837 | One result per manifest row, in order, unless a row ends the run |
| `HostUpdate.Machine.DeployArtifacts` | src/java_codebase_rag/installer.py:858-912 | One deployment result per manifest row, in order |
| `HostUpdate.Machine.RefreshArtifacts` | src/java_codebase_rag/installer.py:1510-1559 | One refresh result per manifest row, in order |
| `HostUpdate.Machine.UpdateConfigured` | src/java_codebase_rag/installer.py:1939-2001 | One turn of the host loop: tear down and deploy, or refresh, and the surface recorded for it |
| `HostUpdate.Machine.UpdateConfiguredHosts` | src/java_codebase_rag/installer.py:1936-2001 | The host loop collects all results, the new surfaces, and whether anything migrated |
| `HostUpdate.Machine.RunUpdate` | src/java_codebase_rag/installer.py:1863-2007 | The command computes the modelled update: same disk and same outcome, early exits included |
| `Staleness.SourceNames` | src/java_codebase_rag/prime.py:181-182 | Source files end in one of two extensions with something other than dots before it |
| `Staleness.SourcesAreReachable` | src/java_codebase_rag/prime.py:178-182 | The walk visits exactly the source files not below a skipped directory |
| `Staleness.StalenessSince` | src/java_codebase_rag/prime.py:176-194 | The walk with its early exits returns unknown exactly when more than the cap are reachable and none of the first cap is newer, else the smaller of the cap and the number of newer files |
| `Staleness.VerdictOrderFree` | src/java_codebase_rag/prime.py:163-175 | Two walks of the same files in different orders agree whenever both give a number |
| `Staleness.VerdictExactly` | src/java_codebase_rag/prime.py:163-194 | Within the cap the walk counts the newer files, beyond it up to the cap; it answers unknown exactly when files are left over and none among the first is newer |
| `Staleness.FreshExactly` | src/java_codebase_rag/jrag.py:2032-2037 | "fresh" is reported exactly when the walk stayed within the cap and every reachable source file whose time could be read is no newer than the index; otherwise "stale" |
| `LangStrip.StripLangBeforeVerb` | src/java_codebase_rag/i18n.py:181-226 | The index loop computes the recursive stripping |
| `LangStrip.ScanLang` | src/java_codebase_rag/i18n.py:160-178 | The index loop finds the first flag's value if it is valid |
| `LangStrip.ScanExactly` | src/java_codebase_rag/i18n.py:160-178 | A language is found exactly if it is the valid value of the first recognized flag, joined to it or as the next token |
| `LangStrip.VerbAndRestSurvive` | src/java_codebase_rag/i18n.py:184-192 | The first verb and every token after it survive unchanged |
| `LangStrip.TargetUnchanged` | src/java_codebase_rag/cli_dispatch.py:211-229 | The chosen target is the same before and after stripping |
| `LangStrip.DecideIsRight` | src/java_codebase_rag/cli_dispatch.py:149-229 | By position: unified help exactly for `jrag` without arguments or with a help token ahead of any verb; else an operator or agent verb with no verb to its left decides, and without a verb `jrag` stands for the agent program, any other name for the operator program |
| `LangStrip.OthersSurvive` | src/java_codebase_rag/i18n.py:181-226 | All tokens that are neither language flags nor values survive stripping, in order |
| `LangStrip.StripAgainExactly` | src/java_codebase_rag/i18n.py:181-226 | Stripping once more removes something exactly when a flag without a value of its own is followed, with nothing but settings in between, by a value |
| `LangStrip.StripBringsTogether` | src/java_codebase_rag/i18n.py:181-226 | A concrete command line that strips to `--lang en` |
| `LangStrip.StripsToNothing` | src/java_codebase_rag/i18n.py:181-226 | Stripping leaves nothing exactly of command lines made of valid language settings only |
| `LangStrip.HelpDiffersExactly` | src/java_codebase_rag/cli_dispatch.py:149-168 | The unified-help answer differs exactly for a non-empty command line of nothing but valid language settings |
| `LangStrip.AbsentExactlyWhenUnchanged` | src/java_codebase_rag/i18n.py:181-226 | The language is absent exactly when nothing was removed; otherwise it is valid and tokens are gone |
| `LangStrip.RouteChangesExactly` | src/java_codebase_rag/cli_dispatch.py:258-273 | The whole decision changes exactly for the canonical program with nothing but valid language settings, and then to the unified help |
| `LangStrip.LangAloneChangesRoute` | src/java_codebase_rag/cli_dispatch.py:258-273 | A concrete such command line: `jrag --lang en` |
| `LangStrip.ScanIsStripped` | src/java_codebase_rag/i18n.py:160-226 | A language the plain scan sees ahead of the verb is the one stripping returns |
| `LangStrip.ScanStopsWhereStripGoesOn` | src/java_codebase_rag/i18n.py:163-166 | A concrete command line on which stripping finds a language and the scan does not |
| `LangStrip.Process.ConsoleScriptMain` | src/java_codebase_rag/cli_dispatch.py:258-273 | Afterwards the arguments are the stripped ones, the override is set exactly when something was stripped, and the route is the right one, by position, for the stripped arguments |
| `OptimizeRetry.RetryOptimize` | src/java_codebase_rag/lance_optimize.py:252-267 | Which attempt ended the loop and how, and that the backoff slept is 2^k - 1 base delays |
| `OptimizeRetry.EndingUnique` | src/java_codebase_rag/lance_optimize.py:252-267 | Success, failure and interruption exclude each other and one always happens |
| `OptimizeRetry.BackoffBounded` | src/java_codebase_rag/lance_optimize.py:150-151 | A table's total backoff is at most 2^5 - 1 base delays |
| `OptimizeRetry.OkExactly` | src/java_codebase_rag/lance_optimize.py:252-269 | A table is ok exactly when one of six attempts succeeds after only retryable conflicts and undisturbed backoffs, and failed exactly when one of them fails for good, the sixth also with such a conflict |
| `OptimizeRetry.SixthDecides` | src/java_codebase_rag/lance_optimize.py:252-267 | Five conflicts in a row are waited out, 31 base delays in all, and the sixth attempt decides |
| `OptimizeRetry.OptimizeTable` | src/java_codebase_rag/lance_optimize.py:231-323 | An interrupt is reported exactly when the database cuts the table short, in opening, in an attempt, in a backoff or in building its indexes; otherwise the status is explained by what the database did |
| `OptimizeRetry.FailureShows` | src/java_codebase_rag/lance_optimize.py:257-323 | A set of completed tables has only ok or skipped statuses exactly when none of them fails for good |
| `OptimizeRetry.OptimizeAll` | src/java_codebase_rag/lance_optimize.py:231-323 | The loop is interrupted exactly when some table is cut short, exactly the tables before the first such have explained statuses, and the failure flag is set exactly when one of them fails |
| `OptimizeRetry.RunConnected` | src/java_codebase_rag/lance_optimize.py:216-336 | Whether the run returns, raises or is interrupted is an equivalence over what the database does, and so is the failure flag |
| `OptimizeRetry.OptimizeLanceTables` | src/java_codebase_rag/lance_optimize.py:173-343 | One running event, then exactly one terminal event, and both the outcome and that event are determined by what the database does |
| `OptimizeRetry.DoneExactly` | src/java_codebase_rag/lance_optimize.py:324-343 | Barring an interrupt the terminal event is done exactly for a return in which every table is ok or skipped |
| `OptimizeRetry.InterruptedDoneExactly` | src/java_codebase_rag/lance_optimize.py:324-343 | An interrupted run reports done exactly when listing did not fail and no table completed before the interrupt went wrong |
| `OptimizeRetry.CancelledRunSaysDone` | src/java_codebase_rag/lance_optimize.py:324-343 | A concrete run that is cancelled in its first table and reports done |
| `Traversal.DedupeTraversalEdges` | src/java_codebase_rag/jrag.py:2902-2923 | The loop keeps the first edge of each non-empty key, in order |
| `Traversal.FirstsAreFirst` | src/java_codebase_rag/jrag.py:2909-2910 | Every edge kept is the first of its key and has a target |
| `Traversal.FirstsDistinct` | src/java_codebase_rag/jrag.py:2903 | No two edges kept share both target and type |
| `Traversal.KeySurvives` | src/java_codebase_rag/jrag.py:2903-2910 | Every edge with a target has one of the same target and type among those kept |
| `Traversal.DedupeTwice` | src/java_codebase_rag/jrag.py:2902-2923 | Deduplicating again changes nothing |
| `Traversal.ClampExactly` | src/java_codebase_rag/jrag.py:192-195 | The limit is the one asked for unless one row more than that exceeds what the store returns |
| `Traversal.ShownBounded` | src/java_codebase_rag/jrag.py:3168-3196 | With the fetch of one row over the limit and the cut after it, a displayed direction of a hierarchy keeps to its bound exactly for limits from -1 on, or for directions too small to leave anything |
| `Traversal.NegativeLimitRun` | src/java_codebase_rag/jrag.py:192-195 | A concrete hierarchy over the bound: a limit of -5 shows eleven of twenty neighbors |
| `Traversal.Hierarchy` | src/java_codebase_rag/jrag.py:3168-3202 | Each direction is fetched and cut on its own; the nodes shown are exactly the root and the displayed edges' targets, each standing for the last fetched row of its id, and the root for its own node where no row has its id |
| `Traversal.HierarchyFlagTrueExactly` | src/java_codebase_rag/jrag.py:3192-3194 | The truncation flag is set exactly when some neighbor is not displayed, unless the limit is negative and there are no neighbors |
| `Traversal.Connection` | src/java_codebase_rag/jrag.py:3755-3884 | Clients are fetched up to a bound, then filtered, then cut; each section is cut on its own; the nodes shown are exactly the root, with its own node, and the displayed edges' targets, each standing for the last outbound row of its id, else the last inbound client, else the first inbound producer |
| `Traversal.FilterExactly` | src/java_codebase_rag/jrag.py:3754-3757 | Filtering keeps exactly the rows that pass |
| `Traversal.SectionsBounded` | src/java_codebase_rag/jrag.py:3873-3878 | The outbound section of a connection view always keeps to its bound; the inbound one does exactly for limits that are not negative or that cut off all its producers |
| `Traversal.NegativeSectionRun` | src/java_codebase_rag/jrag.py:192-195 | A concrete connection over the bound: a limit of -1 shows one of two inbound producers |
| `Traversal.ConnectionFlagTrueExactly` | src/java_codebase_rag/jrag.py:3873-3878 | The truncation flag is set exactly when some matching row is not displayed, if and only if a section overflows or no matching client lies beyond the fetch (for negative limits: if anything matches) |
| `Traversal.ConnectionLosesSilently` | src/java_codebase_rag/jrag.py:3755-3761 | A concrete view that drops a matching client without being flagged |
| `Traversal.SectionTargets` | src/java_codebase_rag/jrag.py:3881-3884 | Displayed targets of either section were collected, so closing the nodes loses none |
| `VersionBump.LinesSplit` | scripts/bump_version.py:107 | Splitting into lines loses nothing |
| `VersionBump.LinesUnique` | scripts/bump_version.py:107-120 | Joining lines and splitting again gives the same lines |
| `VersionBump.ReplaceProjectVersion` | scripts/bump_version.py:100-120 | The loop with its section flag rewrites the first version line under `[project]` and no other |
| `VersionBump.VersionLineExactly` | scripts/bump_version.py:107-119 | That line is the first with a quoted version that follows a `[project]` header with no other header in between |
| `VersionBump.StripExactly` | scripts/bump_version.py:111-113 | Stripping takes the space off both ends and no more, and a header is a bracketed text between space |
| `VersionBump.ValueExactly` | scripts/bump_version.py:44 | A line holds a value exactly when it reads `version = "value"`, with any space and anything behind |
| `VersionBump.ReplacesOneValue` | scripts/bump_version.py:103-106 | The text changes only in the quoted value of that line |
| `VersionBump.ReadsBack` | scripts/bump_version.py:100-120 | A new value without quotes or line breaks is what the line walk finds again |
| `VersionBump.ReadsBackExactly` | scripts/bump_version.py:39 | The line walk finds an accepted target again exactly when it does not end in a line feed |
| `VersionBump.LineFeedGoesUnnoticed` | scripts/bump_version.py:90-97 | A line feed after a plain version never changes the check's verdict |
| `VersionBump.LineFeedIsLost` | scripts/bump_version.py:90-97 | So every acceptable version has an accepted variant that the line walk cannot find again |
| `VersionBump.RepinsEveryPin` | scripts/bump_version.py:123-125 | After the pin rewrite every pin anywhere in the text is the new one; none is missed and none appears at a seam |
| `VersionBump.RepinOne` | scripts/bump_version.py:123-125 | Up to and including the first pin, the rewrite keeps the text and replaces the version of the pin; the rest is rewritten on its own |
| `VersionBump.RepinOnlyPins` | scripts/bump_version.py:123-125 | A text without pins stays as it is |
| `VersionBump.RepinKeepsVersion` | scripts/bump_version.py:133-137 | The pin rewrite over the whole text leaves the version line, its section and its value in place |
| `VersionBump.TripleReads` | scripts/bump_version.py:77-80 | The triple of three digit strings joined by dots holds their values, in order |
| `VersionBump.NumericExactly` | scripts/bump_version.py:39 | Plain versions are exactly three digit strings joined by dots |
| `VersionBump.AcceptsExactly` | scripts/bump_version.py:83-97 | Against a readable current version a plain target is accepted exactly when its major number is higher, or behind equal ones its minor number, or behind two equal ones its patch number, and otherwise called not greater |
| `VersionBump.AcceptsHigherNumbers` | scripts/bump_version.py:77-97 | The same for any six natural numbers, written out in decimal |
| `VersionBump.ReplacedSurroundings` | scripts/bump_version.py:103-106 | The version rewrite leaves the text around the quoted value alone, and finds the same line again |
| `VersionBump.RepinTwice` | scripts/bump_version.py:123-125 | Rewriting pins twice is rewriting them to the second version |
| `VersionBump.RepinnedSurroundings` | scripts/bump_version.py:123-125 | The pin rewrite changes nothing but pins around the version line's value |
| `Release.ReplacedRead` | scripts/bump_version.py:70-74 | Writing a plain version to the line keeps the TOML reader's choice of where the version is, and that choice decides what is read then: the new version, what stands elsewhere, or nothing |
| `Release.ReadBefore` | scripts/bump_version.py:70-74 | Where the line is delimited, or there is none, a version read from elsewhere is read the same before and after |
| `Release.FollowsSeen` | scripts/bump_version.py:70-74 | Whether the reader follows the line can be seen on the file: it does exactly if two different versions written there are read differently |
| `Release.FollowsExactly` | scripts/bump_version.py:70-74 | The reader follows a version line exactly if it looks there at all and no further quote stands right behind the closing one |
| `Release.RepinnedSettled` | scripts/bump_version.py:133-137 | The pin rewrite never changes where the reader looks, wherever there is a version line |
| `Release.ShimRead` | scripts/bump_version.py:133-137 | What is read from the shim after both rewrites, and that every pin in it is the new one |
| `Release.LinesHoldExactly` | scripts/bump_version.py:128-137 | As far as the line walk can tell, both files and every pin are on the target after a completed bump exactly when the target ends in no line feed and both files have a version line |
| `Release.BumpedExactly` | scripts/bump_version.py:128-137 | For a plain target, what the TOML reader reads from both files, and every pin, is the target after a completed bump exactly when the reader follows both version lines or says the target anyway; a root with a delimited line, or none, gets there exactly if it is read from its line, and is read as before if not; success is reported in every case |
| `Release.TripleQuotesBreak` | scripts/bump_version.py:44 | A concrete root that a completed bump makes unreadable: a version in triple quotes |
| `Release.ExitsExactly` | scripts/bump_version.py:154-184 | How a call ends, as unreadable, rejected, with an uncaught error, checked, failed or bumped, exactly by what is read, the numbers, the request and the fault; only a bump or a failed shim write changes a file |
| `Release.CallsRaiseVersion` | scripts/bump_version.py:140-184 | Over any sequence of calls, failed writes included, where the root is read never changes; if the reader follows its line, the version strictly rises with every rewrite, major before minor before patch number, and if not, it is one and the same from the first rewrite on |
| `Release.ElsewhereStays` | scripts/bump_version.py:140-184 | With a delimited line, or none, a root read from elsewhere is read the same throughout |
| `Release.LockstepFromBumpOn` | scripts/bump_version.py:128-137 | From a completed bump on, until a shim write fails, both files are read as the target written last and every pin is on it exactly if the reader follows both version lines or says that target anyway; the next completed bump repairs a failed shim write |
| `Release.Checkout.WriteLockstep` | scripts/bump_version.py:128-137 | The two writes, with either failing |
| `Release.Checkout.RunCall` | scripts/bump_version.py:140-184 | One call: read with the TOML reader, check, and write only what was accepted and asked for |

## Left out

- Floating point: scores, ratios and times are exact rationals; the original's comparisons of floats approximate these.
- Kappa: the guard compares a float sum with 1.0; with rounding it may miss a sum that is 1 exactly.
- Calibration: the comparison of two expected answers by kind is an arbitrary given relation.
- WrapRule: the XML wrapper around the rule, including its CDATA section, and reading the rule file; parameter values are texts.
- Blinding: which characters beyond ASCII count as word characters or spaces is arbitrary; the language-model judge is not modelled.
- Grid: the fields a cell only carries along, such as temperature and directories, and all other checks of the loaders.
- Resume: the append to the aggregate file is one atomic step; choosing the run directory and a disk that loses synced data are not modelled.
- CellStream: timestamps, spawning and reaping the process; the watchdog is an arbitrary early end of the stream; token counts that are numbers are whole numbers; JSON values that compare equal to a differently written tool name.
- LineFilter: the byte patterns of noise are an arbitrary predicate.
- JavaLayout: symbolic links; the pruning rule is an arbitrary predicate on names; directories have finitely many, distinctly named entries.
- HostUpdate: the index step after the host loop, messages, prompts for the surface, directories and their removal when empty, leftovers of temporary files, and changes other processes make meanwhile; a scan for hosts over documents whose server list is no table or that are no objects; a search for a binary gives the same answer throughout one run.
- Staleness: symbolic links and the cost of the walk.
- OptimizeRetry: the best-effort indexes built after a successful optimization, except that an interrupt may hit them; log lines.
- Traversal: how neighbors, listeners and the producers that feed them are found, the checks before, and rendering.
- VersionBump: reading in text mode turns carriage returns into line feeds before the model begins; numbers too long for the integer parser.
- Release: TOML itself; that a reader's choice of the version key does not depend on delimited plain text on the version line or on a pin's digits is built into the model; a failing write leaves its file as it was.
- Release.BumpedExactly: speaks of plain targets only, because what a TOML reader makes of a quoted text broken by a line feed is arbitrary here; `Release.LinesHoldExactly` covers such targets on the text.
- Bench graders for paths, routes and absence, the report, the index engine, the servers and the configuration loaders: they are not part of this model.
