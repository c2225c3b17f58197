# Verified model of the requirements pipeline

This project models the deterministic core of the requirements pipeline of `cast-server`, and the
quote-anchoring helper of its comment agent, and proves what their documentation promises. Where a
promise does not hold as documented, a lemma says exactly when it does.

- **Render splice and gate** (`Html`, `Segmenter`, `BlockSplice`, `UpdateFidelity`, `Fragments`). A page is
  given as the tokens the HTML tokenizer reports, each with its source text. A stack machine finds
  the outermost requirement units, an assembler rebuilds the page from prior bytes and new fragments,
  and a gate segments the result again. The assembled page passes the gate for every ref that was not to change
  and that no fragment brings in; for the others the exact condition is given.
- **Surgical write-back** (`SurgicalEdit`, `WriteBack`, `WriteBackService`, `Relocation`, `TextFiles`). Locating,
  splicing and checking a requirements file, and the protocol around it: change requests, conflict verdicts,
  versions, an event trail and an outbox. Laws hold over every run, with crashes between any two commits and
  people editing the files in between. Where a quote is found again after an edit decides what the verdict
  notices and which requests can be applied twice.
- **Block diff and tracked changes** (`Blocks`, `BlockDiff`, `BlockDiffLaws`, `DiffSpine`, `ChangeSummary`). Two
  greedy passes over queues are the same as pairing by rank; symmetry, partition and maximality follow. The
  blocks compared are those the parser cuts out of two texts.
- **Quote anchoring** (`Anchor`, `Containers`). Capture and re-anchoring in the browser, following the shape of
  the selectors in sections 4.2.4 and 4.2.5 of the W3C Web Annotation Data Model, and placement of a quote
  in the innermost requirement unit on the server.
- **Gate checks** (`GateChecks`). Owners of an id, empty shells, gap markers.
- **Job slots** (`JobSlots`). Semaphore, held flags, registry, job rows and reaper as interleaved atomic steps:
  safety in every interleaving, and exactly which permits of dead threads come back.
- **Quality loop** (`QualityLoop`). The bounded rework loop and its terminal policy, against any behaviour of
  the stages.
- **Front matter** (`FrontMatter`, `FrontMatterLaws`, `FrontMatterReading`). Printer and splitter of the header block, and a
  reader for what was printed.
- **Parser and visibility** (`Parser`, `ZeroClick`). Section spans and blocks; the text a reader sees without a
  click.
- `Text` and `Sorting` hold the string and ordering operations shared by the rest.

Code that updates state is modelled by classes and loops, each tied by its contract to a function; the
laws are lemmas about those functions. Nothing was executed.

## Where code and documentation disagree

The model follows the code.

- The design calls for comparing normalized text in the fidelity gate; the gate compares raw bytes
  (`maker_gate.py:801-806`), and so does `UpdateFidelity.CheckUpdateFidelity`.
- `SpliceResult.missing_refs` is documented as all modified and added refs without a fragment
  (`block_splice.py:233-234`). A modified ref that no prior unit carries is not reported
  (`BlockSplice.UnplacedModificationGoesUnreported`). `BlockSplice.MissingAsDocumentedIff` has the exact condition.
- A comment says anonymous bullets can become modified by document order (`block_diff.py:85-89`); no such
  pairing exists: `BlockDiffLaws.AnonymousNeverModified`.
- The byte check before a write is documented to let only the region change (`change_request_service.py:351-358`);
  for modifications prefix and suffix may overlap: `SurgicalEdit.ModificationCheckAcceptsOverlap`, with the
  exact condition in `SurgicalEdit.ModificationCheckIsExactWithoutOverlap`.
- Write-back promises that a region a person changed since the base version is never overwritten silently
  (`conflict.py:14-18`). The verdict only compares the text of the lines that first hold the quote, so a rewritten
  line goes unnoticed while another one further down reads as it did: `Relocation.RewriteGoesUnnoticed`.
  `Relocation.VerdictAfterAnyRewrite` says when a rewrite is noticed, `Relocation.VerdictByFirstStretch` what the
  verdict rests on after any edits.
- A change request can be applied more than once, and the second time may overwrite another line than the first:
  `Relocation.SecondApplyHitsAnotherLine`. `Relocation.GoesThroughAgain` says exactly when any request goes through
  again; `Relocation.QuotedGoesThroughAgain` says it in terms of its body and the lines of the file, and for quotes
  of one line `Relocation.ModificationGoesThroughAgain` and `Relocation.AdditionGoesThroughAgain` in simpler ones.
- Byte identity outside the edit is promised (`change_request_service.py:323-328`), but the file is read in text
  mode. Other bytes survive exactly when every carriage return of the file lies in the bytes of the replaced lines:
  `TextFiles.OthersSurviveIff`.
- The splice is documented to make untouched units byte-identical by construction, never by trust in what was
  written (`block_splice.py:3-9`). A fragment added for one ref that also holds a unit of another ref makes the gate
  find that one changed: `UpdateFidelity.FragmentOverridesAnotherRef`, with the exact condition in
  `UpdateFidelity.KeptIffBroughtInTheSame`.
- A removed unit is said to go with the white space right after it (`block_splice.py:22`); that white space stays
  (`BlockSplice.PlaceSegments`).
- A removed block is said to be attached after the last surviving block of its old section (`diff_render.py:152-154`);
  it follows the nearest surviving block before it in any section: `DiffSpine.AttachedInOwnSectionIff`.
- There is said to be at most one whole-section block of a kind (`block_diff.py:73`). Two sections whose names begin
  with "Directional" give two: `ChangeSummary.OneBlockPerKindIff`.
- The reaper is documented to free every slot a dead thread leaked (`job_runtime.py:221-222`). It goes by running
  rows of known age. So a slot is lost when its thread dies after the row was made terminal, which the re-anchor step
  after publishing allows (`JobSlots.TerminalRowLeaks`), when it dies before the slot was marked
  (`JobSlots.DeathBeforeMarkLeaks`), and when a request for the same key replaces the dead job
  (`JobSlots.ReplacingLeaks`). `JobSlots.RecoverableIff` says exactly which permits of dead threads come back,
  `JobSlots.LeaksExactly` which steps lose one.
- The merge of front matter is documented to keep every other key and replace the block (`families.py:379-383`).
  A newline inside a key or string can break this, as in `FrontMatterLaws.NewlineInStringBreaks`; it does exactly
  when what follows it starts a line of its own: `FrontMatterLaws.MergeIsLastWriteWins`. And an old block with an
  empty line, a comment at the margin or a list item at the margin in it is replaced in part only
  (`FrontMatterLaws.GapLeavesStaleLine`), which `FrontMatterLaws.MergeReplacesBlockIff` makes exact; the stale line
  then reads as part of the key above it.
- The zero-click view is documented never to hold the body of a closed disclosure (`zero_click.py:4-6`, `134-136`). Its
  rule looks at the outermost closed disclosure only (`zero_click.py:17-19`), so the body of a closed disclosure in the
  summary of another one comes out: `ZeroClick.ClosedBodyLeaks`. `ZeroClick.ClosedBodiesStayHiddenIff` and
  `ZeroClick.PromiseKeptIff` say exactly when the promise is kept.
- By the same rule text of a summary that holds another summary should show, and is lost:
  `ZeroClick.NestedSummaryHides`, with the exact condition in `ZeroClick.ExtractorIsCorrect`. The documentation adds
  that nesting cuts off, even the summary of an inner disclosure (`zero_click.py:19-21`), which contradicts the rule for
  the summary of an open disclosure inside a summary; `ZeroClick.NestingCutsOffIff` says when that reading holds.

## Model

| member | source | states |
|---|---|---|
| `Segmenter.UnitSpanParser.HandleStartTag` | cast-server/cast_server/requirements_render/block_splice.py:164-174 | the parser's whole new state after a start tag: the pushed entry, the count of open units, the pending start of an outermost unit |
| `Segmenter.UnitSpanParser.HandleEndTag` | cast-server/cast_server/requirements_render/block_splice.py:180-203 | the whole new state after an end tag: popped to the topmost entry with that tag, unclosed elements included, and a segment when the outermost unit closes |
| `Segmenter.SegmentUnits` | cast-server/cast_server/requirements_render/block_splice.py:215-222 | driving the parser object over the tokens computes the segmentation the laws below are about |
| `Segmenter.SegmentsAreUnits` | cast-server/cast_server/requirements_render/block_splice.py:139-222 | on every well-nested page the segments are the outermost unit elements, with exactly their source text and ref |
| `Segmenter.SegmentsInOrder` | cast-server/cast_server/requirements_render/block_splice.py:139-222 | on every token stream, well nested or not, the segments are slices of the page, in order and disjoint |
| `Segmenter.RunKeepsBalance` | cast-server/cast_server/requirements_render/block_splice.py:164-203 | on every token stream the depth counter equals the open units on the stack, and a unit start is pending exactly while one is open |
| `Segmenter.CloseTextEnds` | cast-server/cast_server/requirements_render/block_splice.py:186-188 | the end searched for with `find` is the end of the closing tag itself |
| `BlockSplice.SpliceUpdate` | cast-server/cast_server/requirements_render/block_splice.py:252-320 | the page is, unit by unit, what stood before the unit, then nothing, its fragment or its own bytes as the three ref sets say, then the fragments added after it in order; and the missing and spliced refs in the order they are reported |
| `BlockSplice.PlaceAdded` | cast-server/cast_server/requirements_render/block_splice.py:274-289 | the queue of a unit holds, in order, exactly the refs to add that have a fragment and belong there: after the last unit whose ref starts with the same letters, else after the last unit, else at the end of the page |
| `BlockSplice.KindsAgree` | cast-server/cast_server/requirements_render/block_splice.py:243-249 | two refs are of one kind exactly when they start with the same letters, or start with none and are equal |
| `BlockSplice.AddedJoinsItsKind` | cast-server/cast_server/requirements_render/block_splice.py:282-289 | on a page with a requirement and then a success criterion, another requirement goes between them and a story to the end |
| `BlockSplice.PlaceSegments` | cast-server/cast_server/requirements_render/block_splice.py:291-310 | the walk with the cursor writes filler, unit or fragment, and additions, unit by unit |
| `BlockSplice.SplicedPieces` | cast-server/cast_server/requirements_render/block_splice.py:291-314 | the assembled page cut into these pieces, on any page and for any update |
| `BlockSplice.InsertionsInOrder` | cast-server/cast_server/requirements_render/block_splice.py:306-314 | every added fragment is put on a line of its own, in the order of the queue |
| `BlockSplice.AddedOnceOrMissing` | cast-server/cast_server/requirements_render/block_splice.py:276-314 | an added ref's fragment goes in at exactly one place, once, and is reported spliced; or it has no fragment, goes nowhere and is reported missing once; never both, also on a page without units |
| `BlockSplice.MissingExactly` | cast-server/cast_server/requirements_render/block_splice.py:228-240 | which refs are reported missing, both directions: a modified ref only when some prior unit carries it and it is not removed as well, which is less than the documented contract |
| `BlockSplice.SplicedExactly` | cast-server/cast_server/requirements_render/block_splice.py:228-240 | which refs are reported as spliced, both directions |
| `BlockSplice.ReportInOrder` | cast-server/cast_server/requirements_render/block_splice.py:282-320 | the order of both reports: first the refs to add, sorted, then the refs of the units to be swapped, unit by unit down the page |
| `BlockSplice.MissingAsDocumentedIff` | cast-server/cast_server/requirements_render/block_splice.py:228-240 | the documented contract is met exactly when every modified ref without a fragment, unless it is added as well, labels a prior unit and is not removed |
| `BlockSplice.UnplacedModificationGoesUnreported` | cast-server/cast_server/requirements_render/block_splice.py:252-320 | a page without units on which a modified ref without a fragment is not reported |
| `BlockSplice.NothingToDo` | cast-server/cast_server/requirements_render/block_splice.py:252-320 | with all three ref sets empty any page, well nested or not, comes back byte for byte and nothing is reported |
| `UpdateFidelity.SplicedIsWellNested` | cast-server/cast_server/requirements_render/block_splice.py:252-320 | the assembled text is the source of the prior tree with its units replaced in place |
| `UpdateFidelity.NewPageUnits` | cast-server/cast_server/requirements_render/block_splice.py:252-320 | re-segmenting the assembled page yields the prior units in order, each kept, swapped for its fragment's units or dropped, followed by what was added there |
| `UpdateFidelity.UntouchedUnitsStay` | cast-server/cast_server/requirements_render/block_splice.py:260-267 | for every ref neither modified nor removed nor brought in by a fragment that may be placed, the units carrying it are the same, byte for byte, in the same order and number |
| `UpdateFidelity.SplicePassesGate` | cast-server/cast_server/requirements_render/maker_gate.py:788-831 | the construction satisfies its own gate for every such ref, and the page gated is the page assembled |
| `UpdateFidelity.KeptIffBroughtInTheSame` | cast-server/cast_server/requirements_render/maker_gate.py:788-831 | any ref that was not to change passes the gate exactly when the last unit with its label that fragments bring in past its last prior unit, if any, has the same bytes |
| `UpdateFidelity.SpliceThenGate` | cast-server/cast_server/requirements_render/maker_gate.py:788-831 | assembling and then gating reports no violation exactly when this holds of every listed ref; so it does when fragments bring in none of them |
| `UpdateFidelity.FragmentOverridesAnotherRef` | cast-server/cast_server/requirements_render/block_splice.py:3-9 | a fragment for one ref that changes another one |
| `UpdateFidelity.CheckUpdateFidelity` | cast-server/cast_server/requirements_render/maker_gate.py:788-831 | the gate reports nothing exactly when every listed ref with a unit on the prior page has, as its last unit on the new page, the same bytes; a ref is reported missing exactly when only the prior page has a unit of it, and differing exactly when the last units of both pages differ |
| `Fragments.ParseFragments` | cast-server/cast_server/requirements_render/block_splice.py:52-81 | the parsing loop ends and computes the fragments the laws below are about |
| `Fragments.RoundTrip` | cast-server/cast_server/requirements_render/block_splice.py:52-81 | parsing what was written gives, for exactly the refs that some header carries, the stripped body of the first fragment that carries it, with any text between fragments that holds no opening delimiter |
| `Fragments.HeaderRoundTrip` | cast-server/cast_server/requirements_render/block_splice.py:84-102 | the header the renderer is told to write yields the first id in its quoted value |
| `Fragments.QuotedValue` | cast-server/cast_server/requirements_render/block_splice.py:84-102 | in any header a value in quotes of either kind is read up to its closing quote, or to the end without one, whatever white space is around the equals sign |
| `Fragments.BareValue` | cast-server/cast_server/requirements_render/block_splice.py:84-102 | a value without quotes is read up to the next white space |
| `Fragments.BodyComesBack` | cast-server/cast_server/requirements_render/block_splice.py:76 | a body set on lines of its own comes back as it was |
| `Fragments.ParsedBodiesAreClean` | cast-server/cast_server/requirements_render/block_splice.py:62-81 | on any input every parsed body is free of the closing delimiter and of outer newlines |
| `Fragments.Straddle` | cast-server/cast_server/requirements_render/block_splice.py:45-46 | two occurrences of a delimiter do not overlap, so text before a delimiter cannot move it |
| `SurgicalEdit.RegionIsRefoundInPlace` | cast-server/cast_server/services/change_request_service.py:245-263 | the located region is found again at the very offset it was cut from |
| `SurgicalEdit.ModificationReplacesWholeLines` | cast-server/cast_server/services/change_request_service.py:323-331 | a modification replaces exactly the whole lines the quote sits on; all lines before and after survive in place |
| `SurgicalEdit.InsertInSection` | cast-server/cast_server/services/change_request_service.py:275-303 | nothing exactly when no section has that name; otherwise the lines of the text with the new lines right after the last non-blank line of the first section of that name |
| `SurgicalEdit.InsertionPointIs` | cast-server/cast_server/services/change_request_service.py:275-298 | the line the two searches arrive at: the first heading of the name, or the last non-blank line between it and the next heading |
| `SurgicalEdit.HeadingNamedIs` | cast-server/cast_server/services/change_request_service.py:282-291 | a line is a section heading when it starts with two hashes and a blank, and it is the one named when the rest is the name with white space around it |
| `SurgicalEdit.SplicedLines` | cast-server/cast_server/services/change_request_service.py:299-303 | the spliced text reads as the old lines with the body's lines put in at one point |
| `SurgicalEdit.ApplyAddition` | cast-server/cast_server/services/change_request_service.py:306-320 | the new lines go under the section that the hint names; when it names none, they go to the end, after the last line, with a final newline |
| `SurgicalEdit.VerifySurgical` | cast-server/cast_server/services/change_request_service.py:334-370 | for additions the greedy prefix and floored suffix accept exactly the contiguous insertions; for other kinds exactly the texts that keep what stood before and after the region |
| `SurgicalEdit.AdditionIsInsertion` | cast-server/cast_server/services/change_request_service.py:306-320 | an addition on any lane is one contiguous insertion |
| `SurgicalEdit.ModificationIsSurgical` | cast-server/cast_server/services/change_request_service.py:351-370 | every modification of a located region passes the check |
| `SurgicalEdit.ModificationCheckIsExactWithoutOverlap` | cast-server/cast_server/services/change_request_service.py:366-370 | the check for modifications is exact once the new text can hold prefix and suffix side by side |
| `SurgicalEdit.ModificationCheckAcceptsOverlap` | cast-server/cast_server/services/change_request_service.py:366-370 | a text the check accepts although a byte outside the region was lost |
| `WriteBack.VerdictMeaning` | cast-server/cast_server/requirements_render/conflict.py:39-85 | orphaned exactly when HEAD lost the quote; clean exactly when the lines that first hold it read the same in base and HEAD; what this leaves unnoticed is in the `Relocation` rows |
| `WriteBack.ApplyAnswers` | cast-server/cast_server/services/change_request_service.py:486-541 | what an apply answers and records: no such request, out of tree, no file; a lost quote is recorded and answered as orphaned and leaves every request alone; a changed region is recorded and answered as conflicted and marks this request only; otherwise it gets through |
| `WriteBack.ApplyMakesOneCleanWrite` | cast-server/cast_server/services/change_request_service.py:451-577 | an apply that gets through makes one write, to its own goal's file, by the request's kind and body, the quote and hint with overrides first and the base version on record; it replaces exactly the lines that first hold the quote there, and these read as the base version's, or makes one insertion; a finished one leaves the file equal to the version it reports |
| `WriteBack.ApplyLeavesTables` | cast-server/cast_server/services/change_request_service.py:543-579 | the version is appended unless the file repeats the current one; status, event and notification come together, and only when nothing stopped the call; nothing of other goals changes |
| `WriteBack.SnapshotRecords` | cast-server/cast_server/services/requirement_version_service.py:98-147 | a snapshot leaves the current version equal to the file and changes nothing else |
| `WriteBack.RefusalLeavesFiles` | cast-server/cast_server/services/change_request_service.py:495-530 | a refused apply, or one stopped before its first commit, leaves files and versions alone |
| `WriteBack.PlannedWriteIsSurgical` | cast-server/cast_server/services/change_request_service.py:532-541 | the byte check never refuses an edit the code itself builds |
| `WriteBack.EveryRunKeepsInv` | cast-server/cast_server/services/change_request_service.py:117-160 | over every run with crashes between commits and people editing: first event proposed, applied implies an outbox row, every applied event has a file write of its own before it, all writes clean |
| `WriteBack.RunsFromEmpty` | cast-server/cast_server/services/change_request_service.py:117-160 | all of this holds in every state reached from an empty database |
| `WriteBack.RunGrows` | cast-server/cast_server/services/notification_service.py:62-89 | delivered rows never revert; rows, events and versions are never lost |
| `WriteBack.OneNoticePerApplied` | cast-server/cast_server/services/change_request_service.py:561-579 | over any run every applied event brings one notification of its own, and nothing else does |
| `WriteBack.IntakeNotices` | cast-server/cast_server/services/change_request_service.py:125-160 | a request taken in on the apply lane starts with one notification, any other with none |
| `WriteBack.DeliveredForGood` | cast-server/cast_server/services/notification_service.py:72-87 | a row the relay read and delivered stays delivered whatever is interleaved, so a completed drain leaves none of the rows it read pending |
| `WriteBack.OnlyPeopleAndAppliesChangeFiles` | cast-server/cast_server/services/change_request_service.py:462-466 | a file changes only by a person's edit or by an apply that gets through |
| `WriteBack.AdditionGoesThroughEveryTime` | cast-server/cast_server/services/change_request_service.py:486-541 | an unquoted addition proceeds exactly when path and file are there, also when it was applied before: status is not looked at |
| `Relocation.LocateIsFirstLine` | cast-server/cast_server/services/change_request_service.py:245-263 | locating a quote of one line is finding the first line that holds it |
| `Relocation.LocateIsFirstStretch` | cast-server/cast_server/services/change_request_service.py:245-263 | locating a quote of any number of lines is finding the first stretch of lines that holds its pieces |
| `Relocation.VerdictByFirstLine` | cast-server/cast_server/requirements_render/conflict.py:58-85 | after any edits the verdict on a quote of one line rests on the first line that holds it: clean when it reads as in the base, orphaned when there is none, else conflicted |
| `Relocation.VerdictByFirstStretch` | cast-server/cast_server/requirements_render/conflict.py:58-85 | the same for any quote, by the first stretch of lines that holds it |
| `Relocation.VerdictAfterRewrite` | cast-server/cast_server/requirements_render/conflict.py:14-18 | a rewritten quoted line is let through exactly when the first line that holds the quote, in the new form or after it, reads as the old one |
| `Relocation.VerdictAfterAnyRewrite` | cast-server/cast_server/requirements_render/conflict.py:14-18 | the same for a quote of any number of lines, among the lines before, the new form and the lines after |
| `Relocation.RewriteGoesUnnoticed` | cast-server/cast_server/requirements_render/conflict.py:14-18 | a base and a file with a rewritten line for which the verdict is clean, and the line overwritten instead |
| `Relocation.GoesThroughAgain` | cast-server/cast_server/services/change_request_service.py:486-541 | after a finished apply any request goes through again exactly when it has no quote or its edit left the quote on lines that read as in the base version |
| `Relocation.ModificationGoesThroughAgain` | cast-server/cast_server/services/change_request_service.py:323-331 | a modification with a quote of one line goes through again exactly when the first line holding the quote, in its body or after the lines it replaced, reads as in the base |
| `Relocation.AdditionGoesThroughAgain` | cast-server/cast_server/services/change_request_service.py:306-320 | the same for an addition, over the lines above, those added and those below |
| `Relocation.QuotedGoesThroughAgain` | cast-server/cast_server/services/change_request_service.py:486-541 | any request with a quote goes through again exactly when the first stretch that holds it, among the lines its own apply wrote and kept, reads as in the base |
| `Relocation.BaseLineIsRegion` | cast-server/cast_server/services/change_request_service.py:510-513 | for a base version on record that line is the one the first apply found in the file |
| `Relocation.SecondApplyHitsAnotherLine` | cast-server/cast_server/services/change_request_service.py:451-541 | a request whose second apply overwrites a line it was not aimed at |
| `TextFiles.OthersSurviveIff` | cast-server/cast_server/services/change_request_service.py:373-392 | whatever is put in place of any region of the text, every other byte of the file survives reading and writing exactly when every carriage return lies in the bytes of the region |
| `TextFiles.ModificationKeepsBytesIff` | cast-server/cast_server/services/change_request_service.py:506-541 | the same for what a modification with any quote does to the file; for a quote of one line the file may hold no carriage return |
| `TextFiles.ReadsPieceByPiece` | cast-server/cast_server/services/change_request_service.py:506 | reading in text mode: a carriage return with or without a newline behind it reads as one newline, every other byte as it is, wherever it stands |
| `WriteBackService.Service.Create` | cast-server/cast_server/services/change_request_service.py:117-160 | the tables after intake: row, proposed event, and an outbox row exactly on the apply lane |
| `WriteBackService.Service.RecordRefusal` | cast-server/cast_server/services/change_request_service.py:429-448 | the tables after a refusal: the event, and the status only when one is given |
| `WriteBackService.Service.ApplyChangeRequest` | cast-server/cast_server/services/change_request_service.py:451-577 | branch by branch the method makes the step of the protocol, for every crash point |
| `WriteBackService.Service.CreateNext` | cast-server/cast_server/services/requirement_version_service.py:98-147 | a snapshot is appended unless it repeats the current version |
| `WriteBackService.Service.DrainOutbox` | cast-server/cast_server/services/notification_service.py:62-89 | a drain that dies after any number of rows has delivered a prefix of the pending rows, oldest first |
| `WriteBackService.DrainLosesNothing` | cast-server/cast_server/services/notification_service.py:62-89 | a completed drain leaves nothing pending; an interrupted one leaves the rest pending and no row otherwise changed |
| `WriteBackService.Service.RecentWritebacks` | cast-server/cast_server/services/notification_service.py:102-152 | the loop with its seen set and early exit lists the newest rows, each request once, up to the limit |
| `WriteBackService.RecentListsEachRequestOnce` | cast-server/cast_server/services/notification_service.py:102-152 | each request at most once, by its newest delivered row, newest first; one is missing only when the list is full of newer ones |
| `WriteBackService.AllNewestListed` | cast-server/cast_server/services/notification_service.py:116-136 | before the limit, exactly the newest delivered row of each request |
| `BlockDiff.DiffBlocks` | cast-server/cast_server/requirements_render/block_diff.py:93-144 | the two greedy passes pair exactly the blocks of equal label and equal rank, the leftovers are exactly added and removed, and as many pairs are unchanged as the two sides have bodies in common |
| `BlockDiff.SameBodyIff` | cast-server/cast_server/requirements_render/block_diff.py:61-67 | normalized bodies are equal exactly when the texts agree line by line, trailing white space aside, a missing line counting as empty |
| `BlockDiff.SameKeyIff` | cast-server/cast_server/requirements_render/block_diff.py:70-90 | keys are equal exactly for whole sections of one kind, for elements of one kind with one reference, or heading where there is none, and for one and the same nameless element |
| `BlockDiff.MatchPass` | cast-server/cast_server/requirements_render/block_diff.py:104-116 | one pass over the queues pairs the k-th old with the k-th new block of each label |
| `BlockDiffLaws.DiffMirrors` | cast-server/cast_server/requirements_render/block_diff.py:93-144 | swapping the documents swaps added with removed and inverts every pair |
| `BlockDiffLaws.DiffPartitions` | cast-server/cast_server/requirements_render/block_diff.py:93-144 | every block of either side stands exactly once in the result |
| `BlockDiffLaws.KeptShareBody` | cast-server/cast_server/requirements_render/block_diff.py:104-116 | unchanged pairs agree on every line of their bodies, trailing white space aside |
| `BlockDiffLaws.ModifiedShareKeyOnly` | cast-server/cast_server/requirements_render/block_diff.py:118-133 | modified pairs share kind and name and differ in a line of their bodies |
| `BlockDiffLaws.KeptInOrder` | cast-server/cast_server/requirements_render/block_diff.py:104-116 | the unchanged pairs are exactly the k-th old with the k-th new block of each body |
| `BlockDiffLaws.ModifiedInOrder` | cast-server/cast_server/requirements_render/block_diff.py:118-133 | the modified pairs are exactly the k-th old with the k-th new block of each key among those in no unchanged pair |
| `BlockDiffLaws.UnmatchedShareNothing` | cast-server/cast_server/requirements_render/block_diff.py:135-137 | no removed and added block share a body or a key |
| `BlockDiffLaws.AnonymousNeverModified` | cast-server/cast_server/requirements_render/block_diff.py:70-90 | a block with neither ref nor heading is never modified, against what the comment in the code says |
| `BlockDiffLaws.ReorderingIsUnchanged` | cast-server/cast_server/requirements_render/block_diff.py:93-144 | a reordered document gives unchanged pairs only |
| `BlockDiffLaws.SelfDiff` | cast-server/cast_server/requirements_render/block_diff.py:93-144 | a document diffed with itself pairs each block with itself |
| `ChangeSummary.ChangeSet` | cast-server/cast_server/services/change_request_service.py:416-426 | the change set of two texts is the diff of their parsed blocks; nothing without a reference, heading or section of its own is reported as modified |
| `ChangeSummary.Summarize` | cast-server/cast_server/requirements_render/block_diff.py:174-197 | the counts, and the changes added, modified, removed in this order |
| `ChangeSummary.SummaryIsComplete` | cast-server/cast_server/requirements_render/block_diff.py:174-197 | no change is listed twice; every new block is either kept or listed as added or modified, and exactly the old blocks that nothing carries on are listed as removed |
| `ChangeSummary.SameTextHasNoChanges` | cast-server/cast_server/services/change_request_service.py:416-426 | two parses of one text show no change, although they share no block object |
| `ChangeSummary.OneBlockPerKindIff` | cast-server/cast_server/requirements_render/block_diff.py:70-81 | at most one whole-section block of a kind, as the keys take for granted, exactly when no two section names begin with `Directional` |
| `DiffSpine.BuildSpine` | cast-server/cast_server/requirements_render/diff_render.py:145-195 | the loops over survivors, removed blocks and new blocks build the view the laws below are about |
| `DiffSpine.RenderSpine` | cast-server/cast_server/requirements_render/diff_render.py:168-206 | numbers run from 1 without gaps, and the panel holds exactly the changed entries, in order |
| `DiffSpine.SpineKeepsNewOrder` | cast-server/cast_server/requirements_render/diff_render.py:187-195 | every new block once, in order |
| `DiffSpine.EntriesSayWhatHappened` | cast-server/cast_server/requirements_render/diff_render.py:187-195 | every entry is marked added, modified, removed or unchanged as the diff has its block |
| `DiffSpine.SpineWellPlaced` | cast-server/cast_server/requirements_render/diff_render.py:152-165 | every removed block follows the new counterpart of its nearest surviving old predecessor, or leads |
| `DiffSpine.RemovedFollowNearest` | cast-server/cast_server/requirements_render/diff_render.py:152-165 | said of the pairs of the diff: a removed block stands after the new block of the nearest old block before it that is in a pair |
| `DiffSpine.AttachedInOwnSectionIff` | cast-server/cast_server/requirements_render/diff_render.py:152-165 | a removed block is attached after the last surviving block of its own section exactly when that section has surviving blocks and all of them come before it |
| `DiffSpine.SpineShowsRemovedOnce` | cast-server/cast_server/requirements_render/diff_render.py:184-195 | every removed block once |
| `DiffSpine.GroupKeepsOldOrder` | cast-server/cast_server/requirements_render/diff_render.py:155-165 | removed blocks sharing an anchor keep old order |
| `DiffSpine.PanelCount` | cast-server/cast_server/requirements_render/diff_render.py:197-206 | the panel has added plus modified plus removed entries |
| `Anchor.Occurrences` | agents/cast-comment-html/assets/anchor.js:27-32 | exactly the starts of the quote, overlapping ones included, in order |
| `Anchor.CommonPrefixLen` | agents/cast-comment-html/assets/anchor.js:15-19 | the longest agreement at the start of two texts |
| `Anchor.CommonSuffixLen` | agents/cast-comment-html/assets/anchor.js:21-25 | the longest agreement at the end of two texts |
| `Anchor.UniqueContext` | agents/cast-comment-html/assets/anchor.js:37-72 | prefix and suffix are the window of the first width, in steps, that isolates the selection or reaches the cap, plus the buffer; the ordinal counts the occurrences before |
| `Anchor.CountMatches` | agents/cast-comment-html/assets/anchor.js:54-62 | the count with its early exit is at most one exactly when the window isolates the selection |
| `Anchor.ChooseOccurrence` | agents/cast-comment-html/assets/anchor.js:77-100 | -1 without occurrence, the one that scores strictly highest, else the recorded ordinal, else the first of the best |
| `Anchor.ScoreIs` | agents/cast-comment-html/assets/anchor.js:85-88 | the score of an occurrence, partial matches included, is the length of the longest end of the captured prefix that stands before it plus that of the longest start of the captured suffix that stands after it |
| `Anchor.FullScoreIffInContext` | agents/cast-comment-html/assets/anchor.js:85-88 | an occurrence scores full marks exactly when it stands in the whole captured context |
| `Anchor.WiderIsolates` | agents/cast-comment-html/assets/anchor.js:48-66 | a wider window isolates whatever a narrower one isolates |
| `Anchor.CaptureIsUniqueWheneverPossible` | agents/cast-comment-html/assets/anchor.js:48-66 | what was captured occurs once in the text exactly when the widest allowed window does |
| `Anchor.RoundTrip` | agents/cast-comment-html/assets/anchor.js:77-100 | on the text of the capture re-anchoring answers the original start, whatever context was recorded |
| `Anchor.CaptureThenChoose` | agents/cast-comment-html/assets/anchor.js:37-100 | capture followed by re-anchoring returns the start, for every text, selection and options |
| `Anchor.SurvivesEdits` | agents/cast-comment-html/assets/anchor.js:77-100 | after any edit that leaves the captured passage once in the text re-anchoring finds it, whatever the ordinal |
| `Containers.TextIndexer.Walk` | cast-server/cast_server/requirements_render/maker_gate.py:280-306 | the walk appends to text and containers exactly what the subtree shows and spans |
| `Containers.ContainerTextIndex` | cast-server/cast_server/requirements_render/maker_gate.py:259-322 | text and containers of what the first element in document order with class rr-document holds, or of the whole page |
| `Containers.FindClassIs` | cast-server/cast_server/requirements_render/maker_gate.py:237-245 | the depth-first search finds the first element in document order with the class, or none when there is none |
| `Containers.SpansAreLaminar` | cast-server/cast_server/requirements_render/maker_gate.py:259-322 | containers are pairwise apart or nested with strictly larger depth inside, all within the text |
| `Containers.IndexHoldsText` | cast-server/cast_server/requirements_render/maker_gate.py:146-150 | the index lists every shown element of the page once, and each container's slice of the text is what its element shows |
| `Containers.UnitAt` | cast-server/cast_server/requirements_render/maker_gate.py:175-185 | -1 exactly when no unit covers the offset, else the innermost: every other covering unit is shallower and contains it |
| `Containers.UnitAtIsUnique` | cast-server/cast_server/requirements_render/maker_gate.py:175-185 | there is only one such unit |
| `Containers.InTextIffInSpan` | cast-server/cast_server/requirements_render/comment_anchor.py:172 | the substring test is the same as the quote ending inside the unit, because the first occurrence was taken |
| `Containers.ResolveRenderAnchor` | cast-server/cast_server/requirements_render/comment_anchor.py:142-187 | every outcome of anchoring, branch by branch, in terms of the innermost unit |
| `Containers.RefExactly` | cast-server/cast_server/requirements_render/comment_anchor.py:161-187 | a ref is given exactly when the first occurrence lies wholly in the innermost unit and that unit shows exactly this id |
| `Containers.MissExactly` | cast-server/cast_server/requirements_render/comment_anchor.py:160-187 | which miss is answered: decoration exactly outside every unit, no label exactly when the quote lies in a unit that shows no id, a crossed boundary exactly when it runs past the unit or the unit shows several ids |
| `Containers.PlacesInOwnerScan` | cast-server/cast_server/requirements_render/maker_gate.py:952-965 | true exactly when some occurrence starts in a unit that shows the ref |
| `Containers.AnchoredSurvives` | cast-server/cast_server/requirements_render/maker_gate.py:952-978 | a comment anchored to a ref survives on the page it was anchored on |
| `GateChecks.Innermost` | cast-server/cast_server/requirements_render/maker_gate.py:770-782 | exactly the owners without a deeper owner inside are kept; the duplicate test never fires |
| `GateChecks.InnermostCover` | cast-server/cast_server/requirements_render/maker_gate.py:770-782 | kept owners are pairwise apart and every owner contains one of them |
| `GateChecks.OneOwnerIffOneChain` | cast-server/cast_server/requirements_render/maker_gate.py:632-651 | one owner is kept exactly when all owners lie on one chain of ancestors |
| `GateChecks.Carve` | cast-server/cast_server/requirements_render/maker_gate.py:744-753 | the cursor loop keeps exactly the characters outside the union of heading spans, in order, nested and adjacent ones included |
| `GateChecks.CheckEmptyShells` | cast-server/cast_server/requirements_render/maker_gate.py:717-762 | exactly the units that have a heading inside and whose every word character stands in such a heading are reported, each once and in document order |
| `GateChecks.OutsideHasWord` | cast-server/cast_server/requirements_render/maker_gate.py:753-754 | what is carved out holds a word character exactly when the unit says something outside its headings |
| `GateChecks.CheckGapMarkers` | cast-server/cast_server/requirements_render/maker_gate.py:662-706 | no violation exactly when every question is in one marker and every marker holds one question; and which violation is reported of which question or marker |
| `GateChecks.AsManyMarkersAsGaps` | cast-server/cast_server/requirements_render/maker_gate.py:662-706 | then there are as many markers as open questions |
| `JobSlots.EveryRunIsSafe` | cast-server/cast_server/render_common/job_runtime.py:186-255 | in every interleaving, with threads dying anywhere: permits, held slots and acquisitions under way add up to the limit, the semaphore is never over-released, no slot goes back twice, one live job per key |
| `JobSlots.StepKeepsInv` | cast-server/cast_server/render_common/job_runtime.py:186-255 | every atomic section keeps the accounting, the registry and the reaper right |
| `JobSlots.LiveIsNeverReaped` | cast-server/cast_server/render_common/job_runtime.py:240-247 | the reaper leaves a live thread's slot and registration alone |
| `JobSlots.ReapFreesSlot` | cast-server/cast_server/render_common/job_runtime.py:225-247 | a row that leads the reaper to the key of a registered dead holder brings its slot back, once, by one visit |
| `JobSlots.RecoverableIff` | cast-server/cast_server/render_common/job_runtime.py:215-247 | the permit of a dead job can come back exactly when its slot was marked held, it is still registered, and a running row of known age, or one a pass has read already, leads the reaper to its key |
| `JobSlots.LeaksExactly` | cast-server/cast_server/render_common/job_runtime.py:186-255 | from a state without leaks a step leaks a permit exactly when a thread dies before it marked its slot or with no running row left for its key, or a dead holder is replaced, or the last row that led to one is marked failed |
| `JobSlots.TerminalRowLeaks` | cast-server/cast_server/services/render_job_service.py:1763-1774 | a run that publishes and dies before it gives its slot back: registered, and lost |
| `JobSlots.DeathBeforeMarkLeaks` | cast-server/cast_server/render_common/job_runtime.py:186-191 | a thread that dies between the semaphore and the mark takes its permit with it |
| `JobSlots.OrphansComeFromReplacing` | cast-server/cast_server/services/render_job_service.py:2134-2153 | a slot is orphaned by starting a job over a dead holder and by nothing else |
| `JobSlots.ReplacingLeaks` | cast-server/cast_server/services/render_job_service.py:2187-2194 | a run that loses the only slot for good |
| `JobSlots.CarefulRunsLeakNothing` | cast-server/cast_server/render_common/job_runtime.py:210-213 | without such a step no permit leaks over any run, and the set of held keys is right throughout |
| `JobSlots.CarefulServersLeakNothing` | cast-server/cast_server/render_common/job_runtime.py:178-184 | so it is for every run of a server from its start, whatever rows earlier ones left |
| `JobSlots.JobRegistry.AcquireSlot` | cast-server/cast_server/render_common/job_runtime.py:186-191 | semaphore and mark, the two sections of an acquire |
| `JobSlots.JobRegistry.Release` | cast-server/cast_server/render_common/job_runtime.py:193-200 | the slot is given back once; a second call changes nothing |
| `JobSlots.JobRegistry.ReapStaleJobs` | cast-server/cast_server/render_common/job_runtime.py:215-255 | the rows returned are exactly, in order, those that run, have a known age beyond the ceiling and no live thread for their key; they are marked failed, the jobs registered for their keys leave the registry, those of them that hold a slot give it back once, and nothing else changes; the pass is a run of reaping steps and keeps the invariant |
| `JobSlots.VisitAllDid` | cast-server/cast_server/render_common/job_runtime.py:227-254 | what visiting any rows does to rows, jobs, registry and held keys |
| `JobSlots.PassIsRun` | cast-server/cast_server/render_common/job_runtime.py:225-255 | a whole pass, its reads of the rows and then its visits, is a run of reaping steps of the state machine, so the laws over every interleaving hold of it |
| `QualityLoop.LoopState.RunQualityLoop` | cast-server/cast_server/render_common/quality_loop.py:216-266 | the loop stops after the first clean, streak-completing or last allowed iteration, and exactly one terminal hook fires, with what it publishes |
| `QualityLoop.EndsWhen` | cast-server/cast_server/render_common/quality_loop.py:224-264 | the loop ends the first time that attempts are used up, a page passes both gates and the checker, or the last iterations, as many as the stop asks for, brought no page or one that failed a gate |
| `QualityLoop.HookIs` | cast-server/cast_server/render_common/quality_loop.py:216-302 | which hook fires, with which record, which reason and who serves, in terms of the stages' outcomes |
| `QualityLoop.HistoryIs` | cast-server/cast_server/render_common/quality_loop.py:239-247 | the records are exactly those of the iterations that extracted a page, field by field |
| `QualityLoop.LoopState.DecideQuality` | cast-server/cast_server/render_common/quality_loop.py:269-302 | the policy table: fallback, served pool, record and reason |
| `QualityLoop.BestAttempt` | cast-server/cast_server/render_common/quality_loop.py:49-58 | nothing in the pool ranks above the result: scored first, then score, then the later attempt |
| `QualityLoop.BestIs` | cast-server/cast_server/render_common/quality_loop.py:49-58 | a record is best exactly when it is scored if any is, has the highest score among those scored like it, and is the latest of those |
| `QualityLoop.BestIsUnique` | cast-server/cast_server/render_common/quality_loop.py:49-58 | only one record is best when attempt numbers differ |
| `QualityLoop.EndsWithinCeiling` | cast-server/cast_server/render_common/quality_loop.py:224-264 | a definite number of iterations, within the ceiling |
| `QualityLoop.StreakIsTrailingRun` | cast-server/cast_server/render_common/quality_loop.py:230-263 | the counter is the length of the trailing run of structural failures |
| `QualityLoop.StopMeansTrailingFailures` | cast-server/cast_server/render_common/quality_loop.py:254-264 | a degradation stop means that the last iterations, as many as the stop asks for, all failed structurally |
| `QualityLoop.PreferValid` | cast-server/cast_server/render_common/quality_loop.py:269-302 | fallback exactly when nothing was ever extracted; a broken attempt only when none is valid |
| `QualityLoop.ServedIsTheBest` | cast-server/cast_server/render_common/quality_loop.py:287-300 | every other attempt of the pool ranks below the one served |
| `QualityLoop.ScoreFallsWithIssues` | cast-server/cast_server/render_common/verdict.py:173-182 | more errors or warnings never raise the score |
| `FrontMatter.SplitFrontMatter` | cast-server/cast_server/requirements_render/families.py:391-404 | the header is what stands between the first line and the next one that are fences, the body what follows; without these two lines all is body |
| `FrontMatter.StripTopLevelKey` | cast-server/cast_server/requirements_render/families.py:407-420 | exactly the block's line and the indented run after it go |
| `FrontMatter.KeyLineIs` | cast-server/cast_server/requirements_render/families.py:409 | a line opens the block exactly when the name comes first and then, white space aside, a colon |
| `FrontMatter.EmitClassificationLines` | cast-server/cast_server/requirements_render/families.py:423-442 | known keys in their order, then the others sorted, with nested entries and lists |
| `FrontMatter.MergeFrontMatter` | cast-server/cast_server/requirements_render/families.py:376-388 | split, strip, emit and reassemble compose to the merge the laws are about |
| `FrontMatter.UnescapeEscape` | cast-server/cast_server/requirements_render/families.py:445-456 | a quoted string reads back as it was once its escapes are undone; newlines, which YAML folds, aside |
| `FrontMatter.EscapedHasNoBareQuote` | cast-server/cast_server/requirements_render/families.py:445-456 | the closing quote is the first one without a backslash |
| `FrontMatterReading.BlockReadsBack` | cast-server/cast_server/requirements_render/families.py:423-456 | for keys that are plain YAML keys the printed block reads back as what was printed, known keys in their order and then the others sorted, exactly when no entry is an empty mapping, which prints as a key without a value |
| `FrontMatterReading.MergedReadsBack` | cast-server/cast_server/requirements_render/families.py:376-456 | after a merge the header is the old one without its block, and a block that reads back as the classification |
| `FrontMatterLaws.MergeKeepsTheRest` | cast-server/cast_server/requirements_render/families.py:376-404 | after merging a contained block the other header lines survive in order and the body byte for byte, for every header shape |
| `FrontMatterLaws.MergeReplacesBlockIff` | cast-server/cast_server/requirements_render/families.py:376-420 | but for blank lines, what stays of the old header are exactly the lines outside the old block, read as YAML does, if and only if no line at the margin, empty, comment or list item, stands between its key and a later line of it |
| `FrontMatterLaws.GapLeavesStaleLine` | cast-server/cast_server/requirements_render/families.py:407-420 | an old block with an empty line in it, of which a line stays |
| `FrontMatterLaws.LastMergeWins` | cast-server/cast_server/requirements_render/families.py:376-420 | merging twice equals the last merge exactly when the first block was contained |
| `FrontMatterLaws.ContainedIffFits` | cast-server/cast_server/requirements_render/families.py:423-456 | the printed block is contained exactly when in keys and strings every piece after a newline is indented or opens the block again, and no piece is a fence |
| `FrontMatterLaws.MergeIsLastWriteWins` | cast-server/cast_server/requirements_render/families.py:376-456 | merging is last-write-wins exactly for such classifications; then the other header lines and the body survive |
| `FrontMatterLaws.PlainIsContained` | cast-server/cast_server/requirements_render/families.py:423-456 | a block whose keys and strings hold no newline is contained |
| `FrontMatterLaws.PlainMergeIsLastWriteWins` | cast-server/cast_server/requirements_render/families.py:376-456 | so merging newline-free classifications is last-write-wins and idempotent |
| `FrontMatterLaws.NewlineInStringBreaks` | cast-server/cast_server/requirements_render/families.py:445-456 | a string with a newline for which the two merges differ on every document, in the key order of the merge, and one with an indented continuation for which they agree |
| `Parser.SectionSpans` | bin/cast-spec-checker:114-128 | every section name with its last occurrence, from its heading to the line before the next heading |
| `Parser.SectionsAreDisjoint` | cast-server/cast_server/requirements_render/parser.py:37-54 | different sections do not overlap |
| `Parser.TrimTrailingBlank` | cast-server/cast_server/requirements_render/parser.py:57-64 | the last non-blank line of the range, or its first |
| `Parser.EmitBlocks` | cast-server/cast_server/requirements_render/parser.py:113-182 | one block per story heading or top-level bullet, up to the next one |
| `Parser.CutBlocksArePlaced` | cast-server/cast_server/requirements_render/parser.py:113-182 | blocks lie in the section in increasing, disjoint ranges and each body is its source slice |
| `Parser.EveryLineInOneBlock` | cast-server/cast_server/requirements_render/parser.py:113-182 | every non-blank line from the first marker to the section end is in exactly one block |
| `Parser.EmitIdRows` | cast-server/cast_server/requirements_render/parser.py:139-158 | one single-line block per matching row |
| `Parser.ParseRequirements` | cast-server/cast_server/requirements_render/parser.py:203-245 | the blocks are exactly those that the sections call for by their names, in increasing, disjoint ranges with source-slice bodies; the unknown section names in order |
| `Parser.SectionBlocksAre` | cast-server/cast_server/requirements_render/parser.py:203-240 | the blocks of a section by its name: the whole section, its table rows with their references, or its stories or bullets up to the next one, each with kind, level, heading and reference |
| `Sorting.LessIs` | cast-server/cast_server/requirements_render/block_splice.py:282 | the order refs and keys are sorted in: at the first place where they differ, the one that ends or has the smaller character comes first |
| `ZeroClick.Extract` | cast-server/cast_server/requirements_render/zero_click.py:50-117 | the parser hooks compute the run of the machine |
| `ZeroClick.GetText` | cast-server/cast_server/requirements_render/zero_click.py:120-128 | the collected chunks split into lines, squeezed, with empty lines left out; `TextIsWhatIsSeen` says what that is |
| `ZeroClick.TextIsWhatIsSeen` | cast-server/cast_server/requirements_render/zero_click.py:131-146 | the text handed out has the words of the emitted chunks, the same of them in a line, single blanks between them, no empty line and a final newline; on documents without a summary or closed disclosure inside a summary these are the words a reader sees |
| `ZeroClick.ConcatInOrder` | cast-server/cast_server/requirements_render/zero_click.py:122 | the chunks are put one after the other |
| `ZeroClick.ZeroClickExtractor.IsTextVisible` | cast-server/cast_server/requirements_render/zero_click.py:65-76 | visible exactly when not dropped and either nothing is closed or the outermost closed disclosure owns the current summary |
| `ZeroClick.VisibleIffShows` | cast-server/cast_server/requirements_render/zero_click.py:65-76 | under any ancestors the incremental test holds exactly when the text shows by definition and the machine has not lost track of the summary it is in |
| `ZeroClick.OwnerStaysOpen` | cast-server/cast_server/requirements_render/zero_click.py:98-107 | on any tokens, well nested or not, the summary being read belongs to a disclosure that is still open, or to none |
| `ZeroClick.OnlyShownIsEmitted` | cast-server/cast_server/requirements_render/zero_click.py:65-117 | on every document, whatever is nested in what, only chunks that show by the rule for the outermost closed disclosure are emitted, in order |
| `ZeroClick.ExtractorIsCorrect` | cast-server/cast_server/requirements_render/zero_click.py:65-117 | on every document: exactly the text of the tree definition is emitted if and only if no shown text under a closed disclosure follows a summary within its innermost summary or lies in the summary of an inner disclosure |
| `ZeroClick.FlatSummariesFollowTheRule` | cast-server/cast_server/requirements_render/zero_click.py:58-60 | so the rule is followed on every document without a summary inside a summary, with disclosures wherever they like |
| `ZeroClick.ClosedBodiesStayHiddenIff` | cast-server/cast_server/requirements_render/zero_click.py:4-6 | only what can be seen without opening anything is emitted, in order, if and only if no emitted text lies in a closed disclosure inside its innermost summary |
| `ZeroClick.NestingCutsOffIff` | cast-server/cast_server/requirements_render/zero_click.py:19-21 | nothing from a disclosure inside a closed one is emitted if and only if no emitted text under a closed disclosure lies in a disclosure inside its innermost summary |
| `ZeroClick.PromiseKeptIff` | cast-server/cast_server/requirements_render/zero_click.py:131-146 | exactly what can be seen is emitted if and only if, besides, no text that can be seen stands where the machine has lost track of summaries |
| `ZeroClick.PlainDocumentsAreCorrect` | cast-server/cast_server/requirements_render/zero_click.py:131-146 | so it is on every document without a summary or a closed disclosure inside a summary |
| `ZeroClick.ClosedBodyLeaks` | cast-server/cast_server/requirements_render/zero_click.py:65-76 | a document on which the body of a closed disclosure is emitted |
| `ZeroClick.NestedSummaryHides` | cast-server/cast_server/requirements_render/zero_click.py:86-109 | nested summaries for which shown text is lost, of both kinds |

## Left out

- The HTML tokenizer, character references and malformed markup below the token level: pages are tokens. The
  tokens of an assembled page are taken to be the tokens of its pieces, which are cut at tag boundaries.
- The regular expressions: the ids in a text, the first id in a value, heading, row, bullet and word tests are
  functions given to the model. Normalizing an id is part of those functions. `isalpha` is modelled for ASCII
  letters.
- The DOM builder of `maker_gate.py`: containers are computed from the document tree it builds.
- SHA-256: the hash is a function, taken as injective where a verdict is read back.
- SQLite, files, threads and locks as such: tables are sequences and maps, a transaction or a section under one
  lock is one step, and an apply call is one step with respect to people's edits, although the code holds no
  file lock between its read and its write. Path scoping is one boolean. The files of the
  protocol hold texts as read; `TextFiles` says what reading changes.
- WriteBackService.Service.CreateNext: appends the snapshot and skips a repeated one; comment convergence and displacement are not modelled, because nothing in the protocol depends on them.
- WriteBackService.Service.ApplyChangeRequest: does not build the change summary, the badge or the notification payload, which no later step reads back.
- WriteBackService.Service.RecentWritebacks: lists request and row only; the summary text and origin fields are copied columns.
- SurgicalEdit.VerifySurgical: for modifications it states what the check accepts, which is weaker than its documentation; the exact condition is a lemma of its own.
- BlockSplice.MissingExactly: the documented contract of missing refs is not met for a modified ref without a prior unit, so the exact set is stated; `MissingAsDocumentedIff` says when it is met.
- WriteBack.VerdictMeaning: the documented promise that any region a person changed is surfaced does not hold; `Relocation.VerdictAfterAnyRewrite` says when it does.
- FrontMatterLaws.PlainMergeIsLastWriteWins: the special case of newline-free keys and strings; `MergeIsLastWriteWins` has the exact condition.
- FrontMatter.EmitClassificationLines: a float comes with its printed text, because its formatting is Python's; nested values inside a list or a mapping are strings.
- FrontMatterReading.BlockReadsBack: the reader knows the YAML forms the printer writes and keys without a colon that start with neither a blank nor a dash; other keys print as something else in YAML.
- JobSlots.EveryRunIsSafe: row ages and heartbeats are not part of the state; a pass may read any running row of known age at any time, which covers every timing, since the row of a dead job grows older than any ceiling.
- JobSlots.JobRegistry.AcquireSlot: waiting for the semaphore is the precondition that a permit is free.
- QualityLoop.LoopState.RunQualityLoop: the stages are a function from the iteration to its outcome, with `run_how` raising the counter; feedback texts, score history and escalation are left out, because the loop only passes them on. Scores are reals.
- Anchor.UniqueContext: a step of zero or less is not admitted, because the loop does not end on it.
- Anchor.CaptureIsUniqueWheneverPossible: for buffers that are not negative; a negative one drops context that was found necessary. The round trip holds for it all the same.
- Parser.ParseRequirements: title, preamble and the YAML header are left out; they do not affect the blocks.
- GateChecks.Innermost: takes owners that show some text, as its caller only passes containers showing a label.
- ChangeSummary.Summarize: a change names its block; the label and excerpt shown for it are copied from the block.
- `modulate`, `gate`, `validate_classification`, `resolve_block_context`, `gate_status` and the comment service would add only easier members.
- `JobRegistry.reset`, polling, logging, routes, templates, command-line hooks and migrations.
