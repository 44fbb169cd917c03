# Verified models of an anchor-based editing extension

The repository is an extension that edits text files by hash anchors. A read serves lines together with short
anchors, an edit names a span by its two boundary anchors, and a local store remembers snapshots, leases on served
lines and undo records. These Dafny modules model the parts whose correctness spans many steps:

- **Recovery of a two-file cut** (`UndoStore`, `CutRepair`, `CutRecovery`, `CutImages`, `CutUndo`). Undo rows and an
  intent record let the next run finish or revert a transaction that died between two file writes. Every durable step
  may land, throw or be the last before the process dies. `CutImages` states recovery and undo in the bytes the files
  held before and after the cut. `CutStranding`, `CutInterference` and `CutShortSets` say exactly when the promises
  fail: a death between the last two steps of a revert, an outside write between scan and queues, and a row that does
  not load. `MutationQueue` is the sorted nesting of per-path queues as a transition system.
- **Bash view conversion** (`BashRules`, `BashContext`, `BashChoice`, `BashView`, `BashScript`, `BashCwd`, `BashBlocks`,
  `BashVerdict`). An ordered table of rules walks a parsed command with a mutable context; the modules prove the table
  total, give the exact condition for a pure view, compare the reported base directory with a lexical reading of every
  `cd`, and prove the whole decision equal to a reading of the chain that knows no table and no context. `SliceOps`,
  `SedRanges` and `ViewOps` are the line-selection algebra against plain list slicing.
- **Diff projection** (`DiffProjection`, `DiffTruth`, `DiffCounts`, `DiffRows`, `Endings`). Two cursors move through
  kept, added and removed parts with collapsed context; the rows are proved to be a truthful account of both files, and
  each part's rows are given by position.
- **Drift accounting** (`DriftMap`, `DriftCount`, `DriftKey`). Served coordinates against current ones, and greedy
  suppression of lines that survive under another anchor.
- **Paged reading** (`LineWalker`, `Preview`, `Spans`). One walk over merged ranges against splitting the whole file.
- **The store** (`StoreTables`, `StoreJanitor`, `StoreOpen`, `StoreOpenRows`, `UseTimeHeal`). The garbage collection
  over related tables, the stamp protocol of an open and the rows it keeps, and the guarded asynchronous heal.
- **Edit admission** (`PathWrappers`, `PayloadContract`, `PayloadStability`, `PayloadMeaning`). One analyzer at every
  seam, its stability, the exact condition of admission, and normalization that keeps what every item says.

Code that loops or updates state is a method or a class, proved equal to a specification function; what the code is
for is proved about that function. `dafny verify dfyconfig.toml` checks everything.

## Where the code differs from its promises

- A `sed -n` stage with several `-e` ranges composes its merged ops one after another, so two separate ranges select
  nothing; `SedRanges.FoldPrintsUnionExactlyWhen` gives the exact condition (src/bash-classifier.ts:926).
- A `cd` after a search in a glue-free chain is recorded as the search's base (src/bash-conversion/decide.ts:371-380);
  `BashCwd.SearchBaseIsRightExactlyWhen` says for which chains the base is still right, and
  `BashCwd.LateCdReportsWrongBase` decides `rg pat notes && cd s` from the root.
- A revert repair deletes the intent before the undo rows (src/cut-repair.ts:113 and 149-151). Dying between the two
  strands the rows for good, and every later undo answers stale; `CutStranding.RevertClearsExactlyWhen` gives the
  condition over whole runs, `CutStranding.OneDeathStrands` one such run.
- The second look under the queues (src/cut-repair.ts:103-107) covers only the members about to be written. An outside
  edit to another member goes unnoticed and the intent is retired; `CutInterference.RetiresUnevenExactlyWhen` gives the
  condition, `CutInterference.EditedTargetGoesUnnoticed` a case.
- A row whose hashes do not parse is skipped on loading (src/undo-store.ts:218-232), and the callers do not fail closed
  on the short set: repair and undo complete over the rest and delete the skipped row too.
  `CutShortSets.WholeSetDecidedExactlyWhen` and `CutShortSets.UndoIsWholeExactlyWhen` say when nothing is lost.
- A window that lies wholly before line 0 leaves an empty range in the merge; `LineWalker.MergedSeparatedExactlyWhen`
  gives the condition. The callers never ask for one.
- The projection's comment allows a bare ellipsis at the trailing edge; the code writes one only at the leading edge
  (src/edit-diff.ts:168-169 and 253-257), and the model follows the code.

## Assumptions

- A member write is all or nothing; the hard-link and win32 fallbacks are not modelled. File contents stand for their
  UTF-8 bytes.
- Recovery theorems about writing back images take rows whose stored ending is one of the three valid ones;
  `CutRecovery.HealthyWritesCompleteExactlyWhen` says what an invalid one does.
- Glue and inert tails always classify as unsafe, and a classified block carries no base of its own yet.
- The line diff is a sequence of non-empty parts with no two kept parts adjacent.
- Open hooks only delete rows, opens are serial, and a session writes rows of its own generation.
- A heal's guard runs one turn after the failing statement, so the slot of an open that has published is cleared by
  then; the statement itself may fail at any point.
- Outside writers act between the scan and the queues of one repair, in `CutInterference`; elsewhere no one else writes
  the member files.

## Model

| member | source | states |
|---|---|---|
| `UndoStore.PutKeepsKeyed` | src/undo-store.ts:77-80 | The upsert keeps the table in path order with one row per path. |
| `UndoStore.PutThenLookup` | src/undo-store.ts:188-205 | After an upsert the path holds exactly the new row and every other path holds what it held. |
| `UndoStore.OneRowPerPath` | src/undo-store.ts:77-80 | In a keyed table a row is the only one of its path. |
| `UndoStore.Store.UpsertUndo` | src/undo-store.ts:188-205 | After the upsert the path’s only row is the new one, every other row and lookup is what it was, and the table keeps its key order. |
| `UndoStore.Store.GetUndoTransaction` | src/undo-store.ts:221-232 | The loop returns the readable rows of the transaction, in path order. |
| `UndoStore.RowsOfAre` | src/undo-store.ts:221-232 | A row is loaded for a transaction if and only if it is stored, carries its id and has readable hashes. |
| `UndoStore.ClearedRows` | src/undo-store.ts:241-243 | Clearing a transaction empties its loaded rows and changes no other transaction’s. |
| `UndoStore.Store.ClearTransaction` | src/undo-store.ts:241-243 | The clear lands, throws or never happens, as its fate says; only landing removes the rows. |
| `UndoStore.Store.SaveIntent` | src/undo-store.ts:246-253 | A landed save replaces any intent of the same transaction and lists it last; otherwise nothing changes. |
| `UndoStore.Store.DropIntent` | src/undo-store.ts:265-267 | A landed delete removes the transaction’s intent and no other. |
| `UndoStore.IntentsWithoutAre` | src/undo-store.ts:265-267 | An intent remains after a delete if and only if it belongs to another transaction. |
| `UndoStore.Store.WriteAtomic` | src/cut-repair.ts:107-112 | A member write is all or nothing: it lands, throws without landing, or the process dies before it. |
| `CutRepair.SeenStates` | src/cut-repair.ts:133-136 | Every member is classified from its bytes, post image before pre image. |
| `CutRepair.Filtered` | src/cut-repair.ts:139-140 | The rows to write are exactly those in the wanted state, in order. |
| `CutRepair.Resolve` | src/cut-repair.ts:91-117 | Under the queues the states are checked again, then written row by row, then the intent goes: equal to the specified attempt under every crash and failure script. |
| `CutRepair.Repair` | src/cut-repair.ts:119-179 | One intent: no rows, a member at neither image, revert and forward arms, as specified step by step, with outside writes between the scan and the queues. |
| `CutRepair.FinishRevert` | src/cut-repair.ts:138-152 | The revert arm: nothing left to write clears rows then intent; otherwise intent then rows. |
| `CutRepair.FinishForward` | src/cut-repair.ts:154-178 | The forward arm follows the target’s state; a missing target row only retires the intent. |
| `CutRepair.RepairCutIntents` | src/cut-repair.ts:181-201 | All listed intents in order; a throw leaves one intent and goes on, only a dead process stops the scan. |
| `CutRecovery.WriteRowsAt` | src/cut-repair.ts:107-112 | Each member ends rewritten to its image or untouched; a completed write leaves no member behind. |
| `CutRecovery.HealthyWritesCompleteExactlyWhen` | src/cut-repair.ts:107-112 | With nothing failing, the writes complete if and only if every row to write has the image; a row without one stops them halfway. |
| `CutRecovery.ApplyKeeps` | src/cut-repair.ts:91-117 | An attempt keeps every member at one of its images, and if it completes or retires the intent then all members are on the chosen image. |
| `CutRecovery.OwnStep` | src/cut-repair.ts:119-179 | One repair, interrupted anywhere, keeps the recovery invariant; an uninterrupted one retires the intent (and for a revert the rows). |
| `CutRecovery.OtherStep` | src/cut-repair.ts:119-179 | Repairing another transaction changes none of this one’s members, rows or intent. |
| `CutRecovery.DirectionNeverFlips` | src/cut-repair.ts:119-179 | Over any number of interrupted runs the members stay settled and the decided direction stays the first one. |
| `CutRecovery.RecoveryConverges` | src/cut-repair.ts:16-33 | Any interrupted runs and then a complete one: all members on the decided image (post if the target stood at post in a forward cut, else pre) and no intent; a revert leaves no rows if and only if the complete run still finds its intent or its rows are gone. |
| `CutRecovery.UnknownImageBlocks` | src/cut-repair.ts:134-136 | With one member at neither image no run ever writes a member, drops a row or retires the intent. |
| `CutRecovery.LaterEditStopsForward` | src/cut-repair.ts:154-161 | When a later edit took over the target’s row, a forward repair writes no file. |
| `CutRecovery.RetiresWithoutEvidence` | src/cut-repair.ts:122-161 | An intent without rows, or a forward one whose target’s row is gone, is retired and no file and no row is touched. |
| `CutImages.SeenByItsBytes` | src/cut-repair.ts:57-86 | A file is seen at post exactly when it holds the byte order mark and the text after in its own line endings, and at pre exactly when it holds what was there before. |
| `CutImages.UniformTextIsRecorded` | src/cut-repair.ts:57-69 | Any text that spells its breaks one way is such a text, recorded by its folded form and its detected ending. |
| `CutImages.WritesItsBytes` | src/cut-repair.ts:107-112 | A completed write leaves a member exactly the recorded bytes, mark, text and endings. |
| `CutImages.RecoveryRestoresBytes` | src/cut-repair.ts:16-33 | After any interrupted runs and a complete one a member holds byte for byte the text after if a forward cut’s target held its own, and what was there before otherwise. |
| `CutUndo.UndoCorrelated` | src/edit-undo.ts:197-510 | The whole undo equals its specification for every script of failing, landing and fatal steps. |
| `CutUndo.RevertMembers` | src/edit-undo.ts:399-428 | Writes in order; the first failure hands over to the completion pass. |
| `CutUndo.CompleteMembers` | src/edit-undo.ts:411-425 | The completion pass visits all plans, skips the reverted paths, and tries each remaining member once. |
| `CutUndo.UndoOutcomes` | src/edit-undo.ts:244-509 | A refusal changes nothing; a defeat leaves every member at an image with rows and revert intent; success has all members at pre and no rows; any interruption is unwritten or recoverable. |
| `CutUndo.UndoThenRepair` | src/edit-undo.ts:380-442 | Any undo that got past validation is completed by repair, whatever runs are interrupted in between: all members at pre and no intent. |
| `CutUndo.OneFailureAbsorbed` | src/edit-undo.ts:406-428 | One failing write at any member is absorbed inline: the undo is not defeated. |
| `CutImages.HealthyUndoExactly` | src/edit-undo.ts:244-509 | With nothing failing: stale, no history and success each exactly when their plain condition holds; success puts back every member’s bytes, touches no other file, and leaves no row and no intent. |
| `CutStranding.RevertStrandsRowsExactlyWhen` | src/cut-repair.ts:138-152 | A revert repair leaves rows without an intent if and only if there was something to write, all writes and the intent’s deletion landed, and the next step did not. |
| `CutStranding.ScanStrandsExactlyWhen` | src/cut-repair.ts:181-201 | A scan over all intents strands a pending revert if and only if the luck that strands it comes at that intent’s turn, whatever the other repairs use up. |
| `CutStranding.RunsStrandExactlyWhen` | src/cut-repair.ts:181-201 | Over any runs a revert ends stranded if and only if it was, or some run dealt it such a luck; cleared rows never come back. |
| `CutStranding.RevertClearsExactlyWhen` | src/cut-repair.ts:30-33 | Any interrupted runs of a revert and then a complete one leave no rows if and only if no run stranded them. |
| `CutStranding.StrandedForGood` | src/cut-repair.ts:119-152 | Stranded rows stay under every later run, with all members at pre. |
| `CutStranding.StrandedUndoIsStale` | src/edit-undo.ts:262-291 | After runs that strand a revert, undo of any member whose images differ answers stale and changes nothing, instead of reporting no history. |
| `CutStranding.OneDeathStrands` | src/cut-repair.ts:138-152 | One member at post, two steps that land and then death: a run that strands the row, after which undo answers stale. |
| `CutInterference.OutsideEditsSurvive` | src/cut-repair.ts:91-117 | An outside edit to a member about to be written stops the repair with nothing changed; a member is only written over the image it was scanned at. |
| `CutInterference.RetiresUnevenExactlyWhen` | src/cut-repair.ts:91-117 | With nothing failing the intent is retired if and only if no member to write moved, and then all members are on one image if and only if the others still stand there. |
| `CutInterference.EditedTargetGoesUnnoticed` | src/cut-repair.ts:103-107 | A target edited outside after the scan: the other member is written and the intent retired, with the target at neither image. |
| `CutShortSets.WholeSetDecidedExactlyWhen` | src/undo-store.ts:218-232 | After any interrupted runs and a complete one, every stored member is on the decided image if and only if the members whose rows did not load stood there from the start. |
| `CutShortSets.ClearingForgetsSkipped` | src/cut-repair.ts:138-152 | A repair that clears a transaction’s rows clears the rows it could not load as well. |
| `CutShortSets.UndoIsWholeExactlyWhen` | src/edit-undo.ts:197-442 | A successful undo drops every row of the transaction, and has reverted every stored member if and only if the skipped ones stood at pre already. |
| `CutShortSets.ShortUndoSucceeds` | src/edit-undo.ts:197-442 | Two members, one row unreadable: the undo reports success while that member keeps its post image and its row is gone. |
| `MutationQueue.SortedUniqueSorts` | src/mutation-queue.ts:16 | The acquisition order is strictly ascending and names exactly the given paths. |
| `MutationQueue.StepKeeps` | src/mutation-queue.ts:12-20 | Every arrival, ask, entry, finish and release keeps each queue’s line exact: those inside or waiting, once each, the one inside first. |
| `MutationQueue.BodiesNeverOverlap` | src/mutation-queue.ts:3-11 | In every reachable state two different bodies running together share no path. |
| `MutationQueue.SomeStepIsEnabled` | src/mutation-queue.ts:6-11 | No reachable state with an unfinished call is deadlocked. |
| `MutationQueue.StepMakesProgress` | src/mutation-queue.ts:17-19 | Every step except an arrival strictly reduces the work the calls in flight still have. |
| `MutationQueue.StepKeepsOrder` | src/mutation-queue.ts:17-19 | Two callers that stay in a path’s line keep their order through every step, and a newcomer stands behind everyone. |
| `MutationQueue.UnsortedNestingDeadlocks` | src/mutation-queue.ts:6-9 | Two calls that nest the same two paths in opposite orders reach, in six steps, a state where neither can step. |
| `BashContext.RankIsPosition` | src/bash-conversion/decide.ts:174-630 | Each rule stands in the table once, at its own position. |
| `BashContext.SegmentFires` | src/bash-conversion/decide.ts:776-792 | For every walked segment some rule fires and its run does not throw. |
| `BashContext.PostFires` | src/bash-conversion/decide.ts:793-801 | At the conversion tail some rule fires, stops, and does not throw. |
| `BashContext.EveryScriptIsDecided` | src/bash-conversion/decide.ts:705-812 | Every script is decided: no “no rule fired” and no “unreachable” throw for any input. |
| `BashContext.RuleContext.RunOnSegment` | src/bash-conversion/decide.ts:265-528 | A rule’s run updates the context exactly as specified; the arms earlier rules exclude are dead. |
| `BashContext.RuleContext.StepSegment` | src/bash-conversion/decide.ts:776-792 | The loop over the table fires the first rule of the segment phase whose condition holds. |
| `BashContext.RuleContext.StopPhase` | src/bash-conversion/decide.ts:742-749 | In a guard or tail phase the first rule that fires decides; none firing decides nothing. |
| `BashContext.DecideScript` | src/bash-conversion/decide.ts:713-812 | The imperative walk over statements and segments returns the specified decision. |
| `BashContext.WalkChain` | src/bash-conversion/decide.ts:769-811 | The segment loop and the tail, over one mutable context, return the specified decision. |
| `BashChoice.TableFiresChosen` | src/bash-conversion/decide.ts:253-528 | For every segment and context the table fires the rule named by the segment’s kind: nothing above it shadows it. |
| `BashChoice.TableFiresPost` | src/bash-conversion/decide.ts:529-630 | For every final context the tail fires the rule named by the recorded blocks. |
| `BashView.WalkIsScan` | src/bash-conversion/decide.ts:769-811 | Over a glue-free chain the whole table amounts to a scan with two variables: the view met and the directory moved to. |
| `BashView.ScanMeans` | src/bash-conversion/decide.ts:327-411 | The scan yields a view and base if and only if one view stands alone and the moves fit. |
| `BashView.FirstLoud` | src/bash-conversion/decide.ts:413-417 | Everything before it is silent and it is not. |
| `BashView.FirstMover` | src/bash-conversion/decide.ts:394-411 | No `cd` before it moves and it does. |
| `BashView.PureViewExactlyWhen` | src/bash-conversion/decide.ts:490-630 | A chain becomes a pure view if and only if it is glue-free, one terminal single-file view is its only non-silent segment, and at most one directory is moved to, before the view (later moves only repeat it absolutely). |
| `BashScript.DecideReaches` | src/bash-conversion/decide.ts:174-252 | A script is walked if and only if the guards in plain words hold; otherwise it passes through. |
| `BashScript.ScriptIsPureViewExactlyWhen` | src/bash-conversion/decide.ts:174-630 | The pure-view condition for whole scripts, guards included. |
| `BashCwd.DotFormStays` | src/bash-classifier.ts:1392-1395 | A dot-form `cd` leaves every directory where it is. |
| `BashCwd.StepHasKind` | src/bash-conversion/decide.ts:327-528 | What a fired rule may change, by the kind of the segment. |
| `BashCwd.ReportedBaseIsWhereBlocksRan` | src/bash-conversion/decide.ts:560-630 | For a pure view, multi-file view and compound, the lexical directory at every block is the reported base resolved from the start. |
| `BashCwd.SearchBaseIsRightExactlyWhen` | src/bash-conversion/decide.ts:586-594 | A pure search reports the directory of the chain’s first moving `cd`; it is where the search ran if and only if that `cd` stands before the search, there is none, or it leads back to the start. |
| `BashCwd.LateCdMovesSearch` | src/bash-conversion/decide.ts:371-411 | A script of a search and then a moving `cd` is decided as a search in the later directory, though it ran in the start directory. |
| `BashCwd.LateCdReportsWrongBase` | src/bash-conversion/decide.ts:371-380 | `rg pat notes && cd s` from the root: the search ran in the root and the decision’s base is `/s`. |
| `BashBlocks.DecisionListsChain` | src/bash-conversion/decide.ts:283-630 | A compound lists the chain’s non-silent segments in chain order, each by its own class; a view, search or multi-file view is the only one in the chain, with only the base filled in. |
| `BashVerdict.GuardedScript` | src/bash-conversion/decide.ts:174-252 | A script that is not walked is passed through with the first failing guard’s reason. |
| `BashVerdict.ScriptIsItsVerdict` | src/bash-conversion/decide.ts:174-812 | Every decision equals a reading of the chain alone: the first segment that does not fit refuses with its reason, and otherwise the chain’s blocks and first move make the conversion. |
| `SliceOps.TakeFirst` | src/bash-classifier.ts:1418-1428 | The lines of the kept intervals are exactly the first n lines of the stream, and the intervals stay well formed. |
| `SliceOps.TakeLast` | src/bash-classifier.ts:1430-1444 | The lines of the kept intervals are exactly the last n lines of the stream, and the intervals stay well formed. |
| `SliceOps.SelectRange` | src/bash-classifier.ts:1446-1465 | The lines of the kept intervals are exactly positions from..to of the stream, and the intervals stay well formed. |
| `SliceOps.ApplySliceOps` | src/bash-classifier.ts:1472-1498 | The interval fold expands to folding plain list slices over 1..L, with non-empty, ascending, disjoint, in-range intervals. |
| `SliceOps.LinesAscend` | src/bash-classifier.ts:1472-1498 | The lines of the kept intervals ascend strictly. |
| `SliceOps.FoldSelectsLines` | src/bash-classifier.ts:1472-1498 | Folding slices over a list picks exactly the positions folding them over the numbers picks. |
| `SliceOps.SliceKeepsAsked` | src/bash-classifier.ts:1418-1465 | Over the whole stream each filter keeps exactly the positions it asks for in plain words, in ascending order. |
| `SliceOps.SlicesInTurn` | src/bash-classifier.ts:1472-1498 | Filters apply in turn: later ones see what earlier ones kept. |
| `SedRanges.MergeRangeOps` | src/bash-classifier.ts:880-892 | The sort-and-extend loop yields one range op per span of the merged union. |
| `SedRanges.MergedShape` | src/bash-classifier.ts:880-892 | The merged ops cover exactly the requested lines and are separated. |
| `SedRanges.MergedOpsNameTheSame` | src/bash-classifier.ts:880-892 | A line lies in a merged op if and only if one of the requested ranges names it. |
| `SedRanges.PrintedAreNamed` | src/bash-classifier.ts:901-927 | The printed lines are exactly those of the file that some requested range names, each once and in order. |
| `SedRanges.FoldPrintsUnionExactlyWhen` | src/bash-classifier.ts:901-927 | The composed range ops select the union of the ranges if and only if one op from line 1 or later is left, or nothing of the union lies in the file. |
| `SedRanges.TwoRangesFoldToNothing` | src/bash-classifier.ts:926 | `1,2p` and `5,6p` on six lines: four lines are asked for and the fold keeps none. |
| `Spans.MergeIsUnion` | src/file-content/line-walker.ts:103-118 | Merging spans covers exactly the union. |
| `Spans.MergeSeparates` | src/file-content/line-walker.ts:103-118 | Merged spans are separated by at least one uncovered position. |
| `ViewOps.CollapseAdjacentRuns` | src/bash-classifier.ts:1581-1588 | `uniq` keeps exactly the head of every run of equal texts. |
| `ViewOps.RunHeadsDiffer` | src/bash-classifier.ts:1581-1588 | No two adjacent kept texts are equal. |
| `ViewOps.RunHeadsAre` | src/bash-classifier.ts:1576-1588 | `uniq` keeps exactly the entries that are first or differ in text from the entry right before, each once and in order. |
| `ViewOps.SortUniqueLines` | src/bash-classifier.ts:1566-1574 | `sort -u` returns the specified selection. |
| `ViewOps.SortUniqueKeepsFirsts` | src/bash-classifier.ts:1566-1574 | Its texts are strictly byte-increasing, the same set as the input’s, each on its first line. |
| `ViewOps.SortUniqueAscends` | src/bash-classifier.ts:1559-1574 | Of two entries of the sorted output the earlier one’s text is less by its code points. |
| `ViewOps.ApplyViewOps` | src/bash-classifier.ts:1517-1557 | The fold over views equals the specified one, slices included. |
| `ViewOps.MatchingAre` | src/bash-classifier.ts:1521-1526 | Keep holds exactly the entries in whose text the pattern stands, drop exactly the others, and the two share out the stream. |
| `ViewOps.FoldSelects` | src/bash-classifier.ts:1517-1588 | For any op list the output is a selection of the input pairs, counted with multiplicity: no coordinate is invented or duplicated. |
| `ViewOps.OpsInTurn` | src/bash-classifier.ts:1517-1557 | View ops apply in turn: later ones see what earlier ones left. |
| `ViewOps.FoldKeepsLineOrder` | src/bash-classifier.ts:1517-1588 | Without `sort -u` the lines keep their order strictly. |
| `ViewOps.SliceOnlyPicks` | src/bash-classifier.ts:1517-1557 | On slice-only ops the content fold selects exactly the lines of the plain fold. |
| `LexOrder.Utf8Injective` | src/bash-classifier.ts:1566-1574 | Distinct texts have distinct UTF-8 byte sequences. |
| `LexOrder.Trichotomy` | src/bash-classifier.ts:1566-1574 | Byte order is total and irreflexive. |
| `LexOrder.LessMeans` | src/bash-classifier.ts:1571-1573 | One sequence is less than another if and only if it is a proper beginning of it or is smaller where they first differ. |
| `LexOrder.Utf8KeepsOrder` | src/bash-classifier.ts:1571-1573 | Comparing the UTF-8 bytes of two texts is comparing their code points. |
| `Endings.RestoreRoundTrip` | src/edit-diff.ts:33-41 | For every text without a carriage return and every ending, folding the restored text gives it back. |
| `Endings.DetectsRestored` | src/edit-diff.ts:23-41 | The detected ending of a restored text with a newline is the one it was restored with. |
| `Endings.DetectsWithoutLineFeed` | src/edit-diff.ts:23-31 | A text without a line feed reads as carriage returns when it has one, and as line feeds otherwise. |
| `Endings.RebuiltExactlyWhenUniform` | src/edit-diff.ts:23-41 | A file is rebuilt byte for byte from its folded form and detected ending if and only if its endings are uniform. |
| `DiffProjection.PushAddedLines` | src/edit-diff.ts:92-108 | One plus row per line at successive positions, served when anchored. |
| `DiffProjection.PushRemovedLines` | src/edit-diff.ts:109-134 | Up to six rows whole, else two at each edge around a counted marker. |
| `DiffProjection.PushContext` | src/edit-diff.ts:258-274 | Context rows and the untouched marker move both cursors alike. |
| `DiffProjection.PushKept` | src/edit-diff.ts:244-278 | A kept part is skipped, or shown with its leading, middle or trailing gap. |
| `DiffProjection.GenDiff` | src/edit-diff.ts:179-281 | The loop over parts with two cursors equals the specified projection in rows, served rows and bracket. |
| `DiffTruth.DiffIsCursorExact` | src/edit-diff.ts:161-169 | For every part sequence and context width every row carries the text and anchor of the line its cursor stands at, every marker hides its exact count of equal or deleted lines, and what remains is equal in both files. |
| `DiffTruth.MiddleGood` | src/edit-diff.ts:146-152 | A collapsed middle keeps both cursors on the lines that follow it. |
| `DiffTruth.TrailingGood` | src/edit-diff.ts:153-157 | A cut trailing context stops both cursors on equal remainders. |
| `DiffCounts.RemovedAreAccountedFor` | src/edit-diff.ts:109-134 | Removed rows plus deleted-marker counts equal the lines removed, for every part sequence. |
| `DiffCounts.AddedAreServed` | src/edit-diff.ts:92-108 | Every added line with an anchor is served at its own position with that anchor. |
| `DiffCounts.ServedRowsOfDiff` | src/edit-diff.ts:171 | Served positions strictly increase inside the new file and carry their own lines’ anchors. |
| `DiffCounts.ChangeIsBracketed` | src/edit-diff.ts:172-175 | New lines before the first changed line are a prefix of the old file, those after the last a suffix; both are absent exactly when nothing changed. |
| `DiffRows.BracketIsTight` | src/edit-diff.ts:172-281 | The bracket is tight: it starts at the new line right after the parts before the first change, and ends where the last change ends or at its start, whichever is further. |
| `DiffRows.DiffRowsAre` | src/edit-diff.ts:92-281 | The rows of every diff are those of its parts one after the other, given by position alone: what is shown, what is collapsed, and every row’s own numbers, text and anchor. |
| `DiffCounts.ShownExactlyNearChanges` | src/edit-diff.ts:135-159 | A kept line is shown if and only if it lies within the context width of a change next to its part. |
| `DriftMap.ComputeDeltaBefore` | src/drift.ts:141-148 | The loop sums the deltas of the intervals that end before the line. |
| `DriftMap.CurrentEditedSpans` | src/drift.ts:153-166 | The stable sort and the shifting loop yield the specified spans. |
| `DriftMap.UneditedLandsOutside` | src/drift.ts:141-166 | Every unedited served line lands inside the current file and outside the edited spans, and is recovered from there. |
| `DriftMap.OutsideComesFromUnedited` | src/drift.ts:141-166 | Every current line outside the spans is where one unedited served line stands. |
| `DriftMap.UneditedKeepOrder` | src/drift.ts:141-148 | The map keeps the order of unedited lines strictly. |
| `DriftCount.SurvivorCheck.Count` | src/drift.ts:188-193 | The counts are, per digest, the current lines outside the edited spans. |
| `DriftCount.SurvivorCheck.Check` | src/drift.ts:194-203 | A missing line survives if and only if a line with its digest is left, and uses one up. |
| `DriftCount.CollectDriftedIntervals` | src/drift.ts:250-291 | The scan notes exactly the missing lines that do not survive, in order, at their located positions. |
| `DriftCount.CountDrift` | src/drift.ts:180-291 | Spans, survivor check and scan together note exactly the served lines reported for the edit. |
| `DriftCount.ReportedIsDeficit` | src/drift.ts:172-204 | Per digest, the lines reported number max(0, missing minus left); without a digest all are reported. |
| `DriftCount.DriftIsCanonDeficit` | src/drift.ts:172-204 | End to end: per digest, the served lines reported number max(0, missing lines minus current lines with it outside the edited spans). |
| `DriftCount.ReportedInAnyOrder` | src/drift.ts:194-203 | The number reported per digest does not depend on the scan order. |
| `DriftCount.NotedCounts` | src/drift.ts:276-290 | Each reported line is counted once, as shown or unshown, and novelty is exact. |
| `DriftCount.MissingAre` | src/drift.ts:265-269 | The scan meets a line if and only if it was served, is gone from the result and lies in no edited interval, each once and in file order. |
| `DriftCount.ReportedAreGone` | src/drift.ts:263-275 | The reported lines were served, are gone from the result and lie in no edited interval, and stand in file order. |
| `DriftCount.PositionsNoted` | src/drift.ts:276-290 | The positions noted are where the reported lines now stand, exactly those inside the result, in the scan’s order. |
| `DriftKey.DriftEpisodeKey` | src/drift.ts:28-38 | The digit loop computes the specified key. |
| `DriftKey.KeysAreInjective` | src/drift.ts:16-26 | A position in the key space is recovered from its four-letter key; any other position has the empty key. |
| `LineWalker.WalkLines` | src/file-content/line-walker.ts:50-83 | One walk returns the lines of the split text, its length, and for every range exactly its slice. |
| `LineWalker.SplitLinesJoin` | src/utils.ts:7-11 | The lines joined again are the text up to the newline that ends it, and no line contains a newline. |
| `LineWalker.MergeRanges` | src/file-content/line-walker.ts:103-118 | The merge loop yields the merged clamped ranges. |
| `LineWalker.MergedRangesCover` | src/file-content/line-walker.ts:103-118 | The merged ranges cover exactly the non-negative part of the requests. |
| `LineWalker.MergedSeparatedExactlyWhen` | src/file-content/line-walker.ts:103-118 | The merged ranges are non-empty and separated if and only if no empty leftover of a wholly negative request stays in front. |
| `LineWalker.NegativeRangeSurvives` | src/file-content/line-walker.ts:103-118 | A wholly negative request leaves an empty range in the merge. |
| `Preview.SliceMergedRanges` | src/file-content/preview.ts:339-358 | The skip, break and trim loop equals the specified re-slice. |
| `Preview.ResliceIsWindow` | src/file-content/preview.ts:339-358 | Re-slicing the walk of the merged requests gives each request its own slice of the whole file. |
| `Preview.ReadWindows` | src/file-content/preview.ts:678-691 | A windowed read serves every window exactly its slice of the split text and reports the split text’s length. |
| `Preview.RangedPageHashes` | src/file-content/preview.ts:557-594 | The anchors of all pages end to end, or a mismatch at the first page whose lines no longer digest to their rows; an empty file resolves the one row of its empty line. |
| `Preview.CutUndoesConcat` | src/file-content/preview.ts:694-704 | Cutting the concatenated anchors returns each page its own, and each page is verified line by line. |
| `Preview.WindowAnchors` | src/file-content/preview.ts:691-708 | A window’s anchors and lines are the same stretch of one verified page. |
| `StoreTables.BackedMeans` | src/hash-store.ts:404-413 | A lease is backed if and only if a committed snapshot of its own path has its hash. |
| `StoreTables.CollectedIsClean` | src/store-janitor.ts:252-304 | After a collection there is no foreign snapshot or lease, no orphan lineage, no dangling and no expired lease. |
| `StoreTables.CollectedSpares` | src/store-janitor.ts:252-304 | Every other row survives; a lease only while its own snapshot does. |
| `StoreTables.CollectedLeaseExactly` | src/store-janitor.ts:252-304 | A lease outlives a collection if and only if it is of the generation, a committed current snapshot backs it, and it is inside the time to live when active and inside the grace when retired. |
| `StoreJanitor.DeleteInBatches` | src/store-janitor.ts:175-192 | For every batch size of at least one the loop ends; without a throw exactly the doomed rows are gone and counted, and it takes at most one statement more than rows removed. |
| `StoreJanitor.BatchShape` | src/store-janitor.ts:160-166 | One statement removes the lesser of the limit and the doomed rows, and keeps the order of the rest. |
| `StoreJanitor.BatchParts` | src/store-janitor.ts:160-166 | What a statement leaves and what it removes are together the rows, and only doomed rows go. |
| `StoreJanitor.Store.DeleteForeignSnapshots` | src/store-janitor.ts:265-271 | Foreign snapshots go with the lineage they cascade to, and nothing else of the collection changes. |
| `StoreJanitor.Store.CollectGarbage` | src/store-janitor.ts:252-304 | A completed pass leaves exactly the collected tables and reports each family’s exact count, adds no row, and completes whenever enough statements succeed; an interrupted one keeps what a later pass must leave. |
| `StoreJanitor.OrphansStay` | src/store-janitor.ts:265-272 | The cascade from deleted snapshots takes no orphan lineage and makes none, so the orphan sweep counts the orphans there were. |
| `StoreJanitor.Store.CollectLeases` | src/store-janitor.ts:273-291 | The dangling and expired passes remove only dead leases and leave none. |
| `StoreJanitor.Store.RunJanitor` | src/store-janitor.ts:199-242 | The mark is written if and only if the collection completed, with exact deletions reported; an off or early run touches nothing. |
| `StoreJanitor.CollectAgain` | src/store-janitor.ts:168-170 | Interrupted after any statement and repeated in any batch size, the result is that of one complete pass. |
| `StoreJanitor.CollectedTwice` | src/store-janitor.ts:252-304 | A second collection at the same instant changes nothing. |
| `StoreJanitor.EarlierCollectionIsNoLoss` | src/store-janitor.ts:252-304 | A collection at an earlier instant takes nothing from a later one of the same generation. |
| `StoreOpen.Opener.EnsureSnapshotTables` | src/hash-store.ts:515-586 | The sweep runs unless the open has settled it or the stamp matches. |
| `StoreOpen.Opener.BuildStore` | src/hash-store.ts:651-780 | The stamp decision, the sweep and the version row, as specified. |
| `StoreOpen.Opener.RunHooks` | src/hash-store.ts:1239-1242 | All hooks in order, a throw or a crash ending them. |
| `StoreOpen.Opener.OpenStore` | src/hash-store.ts:1198-1281 | An open, with quarantine and rebuild, and a crash after any durable step, equals its specification. |
| `StoreOpen.SweepClears` | src/hash-store.ts:542-563 | The sweep leaves no foreign snapshot or lease and adds no row. |
| `StoreOpenRows.SweepExactly` | src/hash-store.ts:394-452 | The sweep keeps exactly the current snapshots, the lineage of those, and the leases of the generation that a committed one of them backs. |
| `StoreOpen.OpenDbOpens` | src/hash-store.ts:521-525 | A connection sweeps at most once while it is built. |
| `StoreOpen.OpenKeeps` | src/hash-store.ts:360-376 | Any open, crashed anywhere, keeps the certificate, sweeps its connection at most once, and publishes only under a matching stamp. |
| `StoreOpen.MatchingStampIsEarned` | src/hash-store.ts:275-286 | In any run of serial opens by any builds, crashed anywhere, a matching stamp means an open under it ran all its hooks and no row is foreign to the build. |
| `StoreOpenRows.HealthyOpenKeepsRows` | src/hash-store.ts:1198-1281 | A store that passes the integrity check is never rebuilt: what is published is its own tables, swept unless the stamp matched, after every hook once in order. |
| `StoreOpenRows.HealthyOpenWithoutHooks` | src/hash-store.ts:1198-1281 | Without hooks a healthy open leaves the tables alone when the stamp matches and sweeps them otherwise; it publishes exactly when it is not cut short. |
| `StoreOpenRows.UnhealthyOpenKeepsNoRow` | src/hash-store.ts:1226-1235 | A store that fails the integrity check gives up every row: what is published began empty. |
| `StoreOpenRows.PublishedIsStamped` | src/hash-store.ts:360-376 | Whatever it found, a published open leaves the schema, the version row and the stamp of its own build. |
| `StoreOpenRows.ReopenIsQuiet` | src/hash-store.ts:341-376 | Opening again with the same build takes no durable step, sweeps nothing and keeps every row. |
| `StoreOpenRows.QuietExactlyWhen` | src/hash-store.ts:341-358 | Without hooks a healthy open takes no durable step if and only if header, version row and stamp are all the build’s own. |
| `UseTimeHeal.StepKeeps` | src/hash-store.ts:1159-1196 | Every event at every await point keeps the heal invariant. |
| `UseTimeHeal.AtMostOneHeal` | src/hash-store.ts:1155-1157 | Over every interleaving at most one heal is in flight, the remembered one. |
| `UseTimeHeal.GuardDecides` | src/hash-store.ts:1182-1187 | A heal passes its guard only while the cache holds its generation; otherwise it touches nothing. |
| `UseTimeHeal.QuarantineTakesTheFailedFile` | src/hash-store.ts:1187-1190 | A quarantine moves the failed generation’s file, never a fresh one, with nothing open or opening. |
| `UseTimeHeal.LaterLoadsAvoidHealed` | src/hash-store.ts:1287-1307 | A load issued after a heal was armed never resolves to the healed generation. |
| `UseTimeHeal.FailureArmsItsHeal` | src/hash-store.ts:1159-1180 | In every reachable state a corrupt statement on the cached handle, with no heal in flight, arms exactly that handle’s heal; on any other handle, or beside a heal, it changes nothing. |
| `UseTimeHeal.FailedHandleIsNeverServedAgain` | src/hash-store.ts:1159-1166 | After that statement no load, issued at once or ever later in any interleaving, resolves to the failed handle. |
| `UseTimeHeal.HealBringsFreshStore` | src/hash-store.ts:1182-1196 | A heal left to itself replaces file and cache by a generation never opened before, and is forgotten. |
| `UseTimeHeal.LoadIsRouted` | src/hash-store.ts:1287-1307 | A load joins the heal in flight, else takes the cached handle, else waits for the open, which it starts if there is none. |
| `UseTimeHeal.JoinedLoadGoesOn` | src/hash-store.ts:1287-1307 | A load that joined a heal resolves to the store the heal left, or opens anew when the heal threw. |
| `UseTimeHeal.PublishServesWaiting` | src/hash-store.ts:1198-1281 | A publication serves every load that waits for it the generation published, and changes no other load. |
| `UseTimeHeal.FailedOpenRejectsWaiting` | src/hash-store.ts:1296-1307 | An open that fails rejects the loads waiting for it and no other, and clears the way for the next. |
| `UseTimeHeal.ThrownHealRetries` | src/hash-store.ts:1159-1196 | In every reachable state a heal that throws is forgotten and the next load opens the store anew. |
| `UseTimeHeal.DamagedStoreIsReplaced` | src/hash-store.ts:1159-1196 | A run from the start: a load opens, a statement fails, the next load joins the heal and ends on the fresh generation. |
| `PathWrappers.SanitizePath` | src/payload-contract.ts:243-281 | The unwrapping loop ends on every input, at the specified path. |
| `PathWrappers.SettleIsFixpoint` | src/payload-contract.ts:249-279 | The result is trimmed and no peel changes it. |
| `PathWrappers.SanitizedTwice` | src/payload-contract.ts:243-281 | A sanitized path carries no tag or quotes around it, and sanitizing it again changes nothing. |
| `PathWrappers.SanitizedStandsInText` | src/payload-contract.ts:243-281 | The sanitized path stands in the text as it was, with nothing around it but white space, quotes, bars and tag characters. |
| `PayloadContract.AnalyzeRequest` | src/payload-contract.ts:431-498 | The analyzer returns the specified admission or refusal for every value. |
| `PayloadContract.AnalyzeEdits` | src/payload-contract.ts:470-485 | Every item is folded, judged, and kept or refused with its index. |
| `PayloadContract.AssertReq` | src/payload-contract.ts:581-637 | The engine’s gate accepts or refuses as specified for every value. |
| `PayloadStability.FoldItemTwice` | src/payload-contract.ts:321-332 | Folding a folded item changes nothing. |
| `PayloadStability.AnalyzeIsStable` | src/payload-contract.ts:431-498 | For every admitted value, analyzing the admitted request admits that same request. |
| `PayloadStability.NormalizeAfterPrepare` | src/payload-contract.ts:520-544 | Normalizing a prepared request gives what normalizing the raw one gives; a refused value comes back as it is. |
| `PayloadStability.AssertAcceptsExactlyAdmitted` | src/payload-contract.ts:520-637 | Of a raw value the engine’s gate accepts the normalized result if and only if the value was admitted. |
| `PayloadStability.SeamsRefuseAlike` | src/payload-contract.ts:581-592 | A refused raw value is refused at every seam with the same refusal. |
| `PayloadMeaning.AdmittedExactlyWhen` | src/payload-contract.ts:431-498 | A request is admitted if and only if its fields, mode, file and every item are in order, each item judged by what it says. |
| `PayloadMeaning.RefusalListsFailures` | src/payload-contract.ts:470-494 | A refusal of items lists exactly those that are not well formed, by ascending index, each with its own reason. |
| `PayloadMeaning.ReasonHolds` | src/payload-contract.ts:334-425 | The reason given for an item is true of the item as it came, absent slots included. |
| `PayloadMeaning.RefReasonHolds` | src/payload-contract.ts:375-422 | The reason given for a quoted span is true of it. |
| `PayloadMeaning.RequestReasonHolds` | src/payload-contract.ts:431-494 | The reason a request is refused for is true of it, and no earlier one is. |
| `PayloadMeaning.NormalizedSaysTheSame` | src/payload-contract.ts:505-536 | The normalized request names the sanitized file and the same mode, and item by item says the same edit: anchors, place, and deletion, text or quoted span. |
| `PayloadMeaning.GateAcceptsExactlyWhen` | src/payload-contract.ts:581-637 | For every value: the gate accepts exactly the marked requests with known fields, an absent or known mode, and edits that each carry an edit at a known place and no empty literal. |
| `PayloadMeaning.OneReading` | src/payload-contract.ts:505-518 | An item says at most one edit, read off its own fields. |

## Left out

- The parser, the regular expressions and the per-program flag parsing: classified segments are the input.
- Line-number injection offsets for searches (src/bash-conversion/decide.ts:641-662): no decision depends on them.
- The forward cut's own writer: repair is proved from every pre/post assignment instead.
- Undo's diff, anchors and lease bookkeeping after the bytes land: best-effort store synchronization.
- `collectDrifted`, the single-range form of the drift scan: it differs only in using one delta for every line.
- `currentPositionOfDrifted`, canon digests and anchor sources are parameters.
- Invisible-character sub-rows and the text of every row, marker, warning and refusal: refusals are values that name
  what is refused.
- Byte budgets, `truncateHead`, page headers and the marker text of an empty file.
- SQLite itself, WAL, VACUUM and compaction, column migrations and the file-header smoke check: the integrity check is
  a parameter, tables are sequences of rows in key order.
- Simultaneous opens by several builds, and the janitor's own heal beside the use-time heal.
- The throttle's clock arithmetic: whether a periodic run is due is a parameter.
- Prototype properties and symbol keys of request objects other than the normalized mark.
- TUI rendering, prompts, settings, legacy migration, diagnostics and the development scripts.
- The per-path queue lives in the host and is not part of this model; its lines are modelled as sequences of callers.
- CutRepair.SeenStates: does not model a read that fails for another reason than a missing file; such a read throws
  before anything is written.
- CutRepair.RepairCutIntents: passes no outside write between a scan and its queues; `CutInterference` covers one
  repair.
- CutUndo.UndoCorrelated: does not name the defeated member, nor model the display path of a member.
- StoreOpen.Opener.OpenStore: does not model busy retries, which repeat a step until it lands or the open fails.
- PathWrappers.SanitizePath: counts code points where the source counts UTF-16 units; the peeled marks are single units.
