# The VidLens article engine in Dafny

VidLens writes an article about a video with a language model that may answer anything, be cut off, or
stop at any moment. This project models the parts of the engine that must not lose obligations, citations
or identities, and proves what they keep. Names, branches and constants are those of the Go code; where
code and design disagree the model follows the code, and the difference is stated as a theorem.

The modules, by what they model:

- **The durable article loop** (`ArticleLoop`, `LoopRecovery`, `LoopCoverage`, `LoopSafety`, `LoopSteps`,
  `LoopQuestions`, `LoopRuns`, `FaithfulPlanning`; what reviews find and how it reaches the author:
  `LoopFindings`, `LoopVerdicts`; what every turn does and when a run stops: `LoopDuties`, `LoopProgress`,
  `LoopHalting`; where drafts come from: `LoopLineage`; which reviews are used again: `LoopReuse`). A worker keeps state only between durable writes.
  `Intended` is what a worker that boots on a store means to write up to its next checkpoint; a step performs
  the first write that is missing. Crashes are therefore steps that do nothing, and the theorems speak about
  all replies and all crash points. `Gate` is the check inside the publishing transaction.
- **Review obligations** (`ReviewMaterial`, `ReviewEvidence`, `ReviewScopes`, `ReviewSplits`, `ReviewHalving`,
  `CoverageWork`, `CoveragePlan`, `ReviewTasks`, `ReviewPlans`, `ReviewWork`, `ReviewPlanning`). Chapters, originals, frames and coverage
  questions are packed into bounded work units, split when they do not fit, and refreshed when new questions
  appear. `ReviewPlanning.Planner` is the object whose pending list and frozen plan the planning code rewrites.
- **Bounded review of answers** (`BoundedReview`, `BoundedAnswers`): the retry, grow and split recursion with
  recorded outcomes and durable call slots, and which replies lead to which answer.
- **Evidence** (`QuoteBinding`, `QuoteReports`, `ReferenceRepair`, `RepairSafety`, `ReferenceBinding`): finding quotes in the
  delivered originals, and repairing the reference cells of a report.
- **Drafts** (`ArticleBlocks`, `AuthorLanguage`, `AuthorCompiler`, `AuthorAcceptance`, `AuthorRoundTrip`,
  `SectionRoundTrip`, `DraftWrite`, `DraftSafety`, `DraftRequests`, `DraftOutcomes`, `BlockPatch`, `PatchSafety`,
  `PatchFrame`, `PatchRequests`, `DraftStore`): the language in which the model writes chapters, what it accepts,
  its compiler and its inverse, the batch and structural write, the block patch, and the versioned store with
  replay.
- **Citation compaction** (`CitationCompaction`, `CompactionMeaning`, `CompactedArticle`).
- **The SSE hub** (`SseHub`): groups, session counts, byte accounting and close-once channels as objects.
- **Self-contained algorithms** (`AuthoringRanges`, `AuthoringTimes`, `ToolHistory`, `HistorySafety`,
  `ToolExchanges`, `AuthoringHistory`, `AuthoringExchanges`, `ConceptMap`, `ConceptOutline`, `Passages`), over `Text`, `Lists` and `Wrappers`.

Imperative code appears as methods with loops, proved equal to a specification function or to a property;
the theorems are lemmas about that function. A result of the form `…Exactly` states, on the inputs alone and
without the function, what the function decides or computes. Proofs hide the bodies that they do not need.

The loop takes its planning parts as parameters. `LoopSafety.IsFaithful` states what it assumes of them, in the
words of the contracts that the planning modules prove: planning a review gives a plan (`PlansWell`, the ensures
of `Planner.PlanReview`), a split continues the work (`SplitsWell`, `Planner.SplitAt`), a refresh readies it
(`ReadiesWell`, `Planner.Refresh`), context does not change a work unit (`DressesWell`), digests tell tasks
apart, and a valid article has chapters under different names. Each clause speaks only about the states in
which the planner may be called, and the loop is proved to stay in such states. The assumptions can be met for
any replies, edits and limits (`FaithfulPlanning.SimplifiedIsFaithful`).

Where the code does less than its design promises, both sides are proved:

- An article without chapters loses the scope that held its originals (`CoveragePlan.EmptyArticleLosesItsScope`).
- Results of a bounded review come in the order of the model's reports; they are in task order exactly when
  every accepted reply is (`BoundedReview.OrderIsTheReports`, `BoundedReview.OrderOfResults`).
- A chapter that cites a frame about which nothing was noted is accepted, but cannot be sent back unchanged,
  so a patch of any of its blocks is refused (`SectionRoundTrip.SectionRoundTrips`,
  `SectionRoundTrip.UndescribedFrameIsAccepted`).
- A source named twice in one unit is collapsed by the projection (`SectionRoundTrip.UnitRoundTrip`).

Some functions would fail on inputs that the rest of the system never gives them. There the general theorem
states the condition, and a second one derives it from what the system does make:

- The authoring projection keeps the protocol exactly when no exchange is torn by a message with the feedback
  name; the engine writes that name on user messages only (`AuthoringExchanges.RequestsKeepProtocol`).
- A rebound quote is found under its alias when no segment is identified by the alias of another; stored
  segments carry a hexadecimal snapshot and an ordinal (`QuoteReports.StoredReportIsEvidence`).
- Group keys of the hub are ambiguous for sessions with a colon; sessions are identified in hexadecimal
  (`SseHub.ResourcesHaveTheirKeys`).
- Coverage planning hands the relations to an established batch when no task holds them and there is no new
  question; fresh scopes hold no batch and a frozen plan holds its final task
  (`CoveragePlan.EstablishedTasksStay`).

The review loop is fixed to revision V13 of the contract, citation compaction to a delivery revision that
uses it. Content hashes are injective functions or stand for the content itself; the frozen parameters of a
run, the model, the clock and the size limits in bytes are parameters.

`dafny verify --resource-limit 2000000 dfyconfig.toml` checks the whole project.

## Model

| member | source | states |
|---|---|---|
| `LoopRuns.EveryRunIsSafe` | internal/investigator/article_loop.go:207-313 | for any model replies and any crashes, in every store reached: the ledger of calls and the count of draft versions are in order; every approval is earned (reviews of that very candidate and evidence, none blocking, together covering every chapter, segment and frame by local work and judging the relations); at every checkpoint an approved candidate is the current draft and every coverage question of the run is decided once, as covered; the same holds of a published article |
| `LoopRuns.EveryRunEnds` | internal/investigator/article_loop.go:207-313 | from every store with its ledger in order the run comes to an end after finitely many durable writes, whatever the parameters are |
| `LoopRuns.StepDecreases` | internal/investigator/article_loop.go:230-312 | each durable write reserves a call of the budget, closes the pending turn, or shortens the work left before the checkpoint |
| `LoopRuns.StepKeepsLedger` | internal/investigator/article_loop.go:104-144 | slots, frozen inputs, replies, turns and draft versions stay in step with the reserved calls, and each slot makes at most one revision |
| `LoopRuns.StepKeepsHistory` | internal/store/immutable_operation.go:14-38 | inputs, replies, turns, plans, receipts, reviews, approvals and the publication are written once and never change |
| `LoopRuns.CompleteReviewPassesGate` | internal/store/article_loop.go:20-344 | in every reachable store, a candidate with nothing left to review passes the check inside the publishing transaction: approval, draft version, evidence and material, complete and unblocked reviews, rebindings, relations, chapters, segments, frames, and every question decided once as covered |
| `LoopRecovery.CrashIsInvisible` | internal/investigator/article_loop.go:230-312 | after any durable write the next worker has exactly the remaining writes of the first one left to make |
| `LoopRecovery.CrashesDoNotMatter` | internal/investigator/article_loop.go:196-314 | what is stored after any sequence of crashes depends only on the number of durable writes made, so a resumed run passes through the stores of the crash-free one |
| `LoopRecovery.DraftIsReplayed` | internal/investigator/article_loop_wire.go:785-803 | a draft edit with a durable receipt is not applied again and leads to the same continuation |
| `LoopRecovery.TurnThenCheckpoint` | internal/investigator/article_loop.go:270-312 | a recorded turn is not taken again; only the checkpoint is moved |
| `LoopSafety.AcceptSafe` | internal/investigator/article_loop_input.go:1590-1708 | accepting a review moves its work and its questions from pending to reviewed and loses nothing; what it leaves to the author is stated by `LoopVerdicts` |
| `LoopSafety.AcceptEarns` | internal/investigator/article_loop_input.go:1660-1708 | an approval is written only when all work, relations included, is reviewed for the same candidate and no blocking finding is left |
| `LoopVerdicts.FindingsReachTheAuthor` | internal/investigator/article_loop_input.go:1590-1708 | for any replies and crashes, in every store reached: each stored review says what the model reported, a missing question being a blocking finding; the findings of a candidate are those of its counted reviews, none of them blocking once nothing is pending; without a candidate the author has exactly the blocking findings of a complete review, the last one as long as its reviews are counted |
| `LoopVerdicts.CandidateIsJudged` | internal/investigator/article_loop_input.go:1683-1702 | a candidate is given up only by a complete review that blocks it and counts all its reviews, and its blocking findings, exactly, are with the author then |
| `LoopVerdicts.VerdictStays` | internal/investigator/article_loop.go:740-816 | while no candidate is under review no verdict is forgotten, and the findings of the last one stay while the judged draft stands |
| `LoopVerdicts.FindingsStay` | internal/investigator/article_loop.go:740-816 | over any number of durable writes without a candidate, with the draft unchanged, no finding is dropped or added |
| `LoopVerdicts.ApprovalsRestOnReports` | internal/store/article_loop.go:120-260 | in every store reached, each key of an approval goes back to a reply of the model on this very scope and material that found nothing blocking and nothing missing |
| `LoopDuties.TurnDoes` | internal/investigator/article_loop.go:402-727 | a recorded turn notes what was delivered, planned and invalid, counts repairs and progress, keeps disputes, and freezes a candidate exactly when the author asks for it, every original was delivered, the draft is valid, and it is not blocked or its findings are disputed |
| `LoopProgress.EveryRunIsDutiful` | internal/investigator/article_loop.go:207-313 | for any replies and crashes, in every store reached: a candidate and, at a checkpoint, an approved article were made from originals that were all delivered and planned; a blocked candidate is disputed; repairs and invalid replies keep their limits; every review was delivered exactly the originals that it judges and their context, in order |
| `LoopProgress.FrozenExactly` | internal/investigator/article_loop.go:740-816 | a recorded turn of the author leaves the draft as candidate exactly under these conditions, and counts as a repair exactly when findings were open |
| `LoopProgress.DisputedOnce` | internal/investigator/article_loop_evidence.go:108-148 | the review of a blocked draft is reopened at most once in a run |
| `LoopProgress.ReviewedIsPublished` | internal/investigator/article_loop.go:204-216 | a candidate with nothing left to review is published by the next durable write |
| `LoopProgress.StopsExactly` | internal/investigator/article_loop_input.go:124-330 | at a checkpoint the run stops exactly for the budget, the limit without progress, or because no call can be prepared: sources, review or writing cannot go on |
| `LoopHalting.HaltsExactly` | internal/investigator/article_loop.go:230-312 | in the middle of a call, once the reply and its effects are stored, the run ends exactly when a cut-off reply can neither be repeated nor split, the last review of a blocked candidate stalls, or the author stops, edits past the last version, or asks for a review that cannot be planned within the budget |
| `LoopLineage.EveryDraftIsEdited` | internal/store/drafts.go:30-96 | for any replies and crashes, in every store reached: each draft is the edit that a reply, or the recorded expansion of a patch, asked for, applied to the draft with the version it expected; a version stands for one draft |
| `LoopReuse.EveryClearedReviewIsKept` | internal/investigator/article_loop_input.go:1649-1654 | for any replies and crashes, in every store reached: a review is kept for later candidates exactly when a completed call reviewed that very material locally and found nothing that blocks |
| `LoopReuse.OnlyNewsIsReviewed` | internal/investigator/article_loop_convergence.go:380-450 | a task of a new candidate stays pending exactly when it judges the whole article or its very scope and material was not cleared before; every other task gets the cleared review, bound to the candidate, and nothing else is counted |
| `LoopSafety.ReuseSafe` | internal/investigator/article_loop_convergence.go:380-450 | a review is rebound to another candidate only with unchanged scope and material; every planned scope is rebound or stays pending, and the relations always stay pending |
| `LoopSafety.FreezeSafe` | internal/investigator/article_loop.go:740-816 | freezing a candidate starts with every chapter, segment and relation either rebound or pending |
| `LoopSteps.PrepareSafe` | internal/investigator/article_loop_input.go:124-330 | refreshing and dressing the pending work for a call forgets none of it |
| `LoopSafety.TurnSafe` | internal/investigator/article_loop.go:402-727 | whatever the model answers, acting on it keeps all obligations of the candidate |
| `LoopSteps.StepIsSafe` | internal/investigator/article_loop.go:168-314 | every durable write keeps the safety invariant |
| `LoopSafety.RecoverSafe` | internal/investigator/article_loop.go:330-400 | splitting the scope of a review that was cut off or did not fit forgets nothing |
| `LoopSafety.CompleteIsEarned` | internal/store/article_loop.go:20-344 | reviews that leave nothing pending and block nothing add up to an earned approval, with every frame of the article reached through its chapters |
| `LoopCoverage.WithoutIsPending` | internal/investigator/article_loop_input.go:1655-1668 | taking the reviewed task out of the pending list leaves a list that asks exactly the other questions and still judges the relations last |
| `LoopCoverage.TaskIsDecided` | internal/domain/article_review_packet.go:224-298 | a complete review of a pending full-article task decides exactly the questions that it asks, each once |
| `LoopQuestions.StepKeepsQuestions` | internal/investigator/article_loop.go:168-314 | at every durable write the loop knows exactly the questions that source plans and reviews have raised |
| `LoopQuestions.QuestionsAreCovered` | internal/store/article_loop.go:20-344 | when nothing is pending, every question ever raised in the run is decided by exactly one review of the approval, as covered |
| `FaithfulPlanning.SimplifiedIsFaithful` | internal/investigator/article_loop_input.go:1081-1297 | for any replies, editor, limits and digests of evidence there are planning parts that meet everything the loop assumes of planning |
| `ReviewMaterial.ScopeEvidence` | internal/investigator/article_loop_projection.go:69-92 | the context of a scope is what its blocks and limitations cite beyond its own sources |
| `ReviewMaterial.CrossChapter` | internal/domain/article_review_packet.go:44-62 | exactly the blocks of other chapters that cite a source or context of the scope, in article order |
| `ReviewMaterial.ScopeContext` | internal/investigator/article_loop_convergence.go:35-90 | the context of a scope as the specification of context determines it |
| `ReviewMaterial.ContextIsIdempotent` | internal/investigator/article_loop_convergence.go:35-90 | putting a scope into context again changes nothing |
| `ReviewEvidence.ContextExactly` | internal/investigator/article_loop_convergence.go:35-90 | a local or full review is given, besides what it judges, exactly the originals that its chapters and their limitations cite, those of a challenge, and the speech beside all of these, as they were spoken |
| `ReviewEvidence.CrossChapterExactly` | internal/domain/article_review_packet.go:44-62 | the blocks of other chapters are exactly those that cite something delivered, in article order |
| `ReviewMaterial.SealingKeepsWork` | internal/investigator/article_loop_convergence.go:254-283 | sealing a scope with its context does not change the measured work, and sealing twice is sealing once |
| `ReviewEvidence.WorkExactly` | internal/investigator/article_loop_convergence.go:254-283 | a task weighs its prose with the blocks of other chapters, and each original that is judged or context, once |
| `ReviewScopes.Chapters` | internal/investigator/article_loop_convergence.go:102-130 | one scope per chapter with exactly the segments that it cites, and the owners of every segment |
| `ReviewScopes.NearestOwner` | internal/investigator/article_loop_convergence.go:131-152 | an uncited segment goes to a chapter that cites one of the nearest cited segments |
| `ReviewScopes.BuildLoopScopes` | internal/investigator/article_loop_convergence.go:102-196 | the scopes are the greedy packing of chapters at some cut points, followed by the relations scope |
| `ReviewScopes.EverySegmentIsOwned` | internal/investigator/article_loop_convergence.go:131-160 | every transcript segment, cited or not, has a chapter that answers for it |
| `ReviewScopes.PlanCoversArticle` | internal/investigator/article_loop_convergence.go:102-196 | local chapter lists concatenate to the article order, every segment is a source of a local scope, scopes of several chapters are within the work and frame limits, one relations scope comes last |
| `ReviewSplits.NearestHalf` | internal/investigator/article_loop_convergence.go:205-236 | a source follows the half whose references lie closest; on a tie, and only then, both halves get it |
| `ReviewSplits.ChapterHalves` | internal/investigator/article_loop_convergence.go:198-252 | the halves that the references determine: chapters cut in the middle, each source of the parent with its nearest half, each frame with the halves whose chapters have it |
| `ReviewSplits.HalvesConserve` | internal/investigator/article_loop_convergence.go:198-252 | no chapter, source or frame of the parent is missing from both halves |
| `ReviewSplits.ScopeChapters` | internal/investigator/article_loop_projection.go:14-67 | of the named chapters those that the sources belong to, whole and in article order; a frame goes exactly when only left-out chapters have it; the context gains exactly what is cited beyond the sources |
| `ReviewPlanning.Planner.Halves` | internal/investigator/article_loop_input.go:1203-1280 | halving gives exactly the halves that references determine, keeps every chapter, original and frame, and fails exactly for a scope that has nothing left to halve |
| `ReviewHalving.HalvesTell` | internal/investigator/article_loop_input.go:1250-1263 | whether a scope can shrink does not depend on how its halves are found: it cannot exactly when one of them weighs at least as much as the scope |
| `ReviewPlanning.Planner.LocalChildren` | internal/investigator/article_loop_input.go:1203-1280 | a local split is refused exactly when nothing is left to halve or one of the two halves weighs at least as much as the scope |
| `ReviewPlanning.Planner.SplitAt` | internal/investigator/article_loop_input.go:1187-1297 | a scope is replaced by its children in place, in the pending list and in the frozen plan, within the remaining calls; a refused split changes nothing, and it is refused for lack of capacity exactly when the scope cannot shrink |
| `ReviewPlanning.Planner.SplitCoverage` | internal/investigator/article_loop_reference.go:154-195 | a batch is replaced by its children; it fails exactly with fewer than two questions, and then changes nothing |
| `ReviewTasks.CoverageSplitPartitions` | internal/investigator/article_loop_reference.go:154-195 | each question goes to exactly one child, neither child is empty, and one child keeps the relations |
| `ReviewTasks.SplitKeeps` | internal/investigator/article_loop_input.go:1187-1297 | replacing a task by its children loses no chapter, original, frame or question, and leaves the relations to one task |
| `ReviewWork.SplitContinues` | internal/investigator/article_loop_input.go:1187-1297 | a split of a pending task continues the work: nothing is lost in the pending list or in the frozen plan, and the two still agree on every question |
| `ReviewPlanning.Planner.Narrow` | internal/investigator/article_loop_input.go:1114-1174 | the planning loop ends, keeps all obligations, and leaves only scopes that fit or cannot be measured; it gives up exactly at a scope that is too large and cannot shrink |
| `ReviewPlanning.Planner.Retained` | internal/investigator/article_loop_evidence.go:51-107 | a frozen plan is used again exactly when it names the chapters and originals of the article and no others; its scopes get the frames and context of the article as it is now |
| `ReviewPlanning.Planner.PlanReview` | internal/investigator/article_loop_input.go:1081-1179 | planning succeeds only with tasks, each settled in size, whose local ones cover every chapter, original and frame, which ask every question exactly once, and of which one, the last, judges the relations; it fails only for the stated reasons, capacity among them only at a scope that cannot shrink |
| `ReviewPlans.PlannedIsPlan` | internal/investigator/article_loop_input.go:1081-1179 | coverage planning of fresh scopes or of a frozen plan gives such a plan |
| `ReviewPlans.FramesAreCovered` | internal/investigator/article_loop_projection.go:14-67 | local tasks that hold the complete frames of their chapters leave out no frame of the article |
| `ReviewPlanning.Planner.Refresh` | internal/investigator/article_loop_work.go:149-191 | once no local task is pending, new questions get tasks of their own before the pending relations task, and established tasks stay as they were; the relations task is never missing while work is pending |
| `ReviewWork.RefreshInsertsNewBatches` | internal/investigator/article_loop_work.go:149-191 | what a refresh inserts are exactly the new batches, which together ask, in order, exactly the questions that the plan did not ask |
| `ReviewWork.RefreshContinues` | internal/investigator/article_loop_work.go:149-191 | a refresh loses nothing, and afterwards the plan asks every question exactly once |
| `ReviewWork.ReadiedAfter` | internal/investigator/article_loop_input.go:124-228 | refreshes and splits in any number, ended by a refresh, amount to one refresh that loses nothing |
| `CoverageWork.ReferenceQuestions` | internal/investigator/article_loop_reference.go:139-150 | the questions of a scope, in survey order |
| `CoverageWork.BoundaryRefs` | internal/domain/article_source_requirements.go:56-72 | with the primary references, exactly they and their neighbours |
| `CoverageWork.CoverageSourceIds` | internal/investigator/article_loop_work.go:17-30 | the originals that the questions of a batch need, in transcript order |
| `ReviewEvidence.QuestionsExactly` | internal/investigator/article_loop_reference.go:139-150 | a batch asks the questions that it names, any other task all of them, in survey order |
| `ReviewEvidence.SourcesExactly` | internal/investigator/article_loop_work.go:17-30 | the originals of a coverage task are exactly those that its questions refer to and the speech beside each, as they were spoken |
| `CoverageWork.CoverageWorkOf` | internal/investigator/article_loop_work.go:32-52 | the weight of the needed originals and topics |
| `ReviewEvidence.QuestionWorkExactly` | internal/investigator/article_loop_work.go:32-52 | a coverage task weighs the topics that it decides and each original that its questions need or its context holds, once |
| `CoveragePlan.PlanCoverage` | internal/investigator/article_loop_work.go:57-123 | the result is a plan: the kept scopes, the sealed greedy batches, the final task |
| `CoveragePlan.FillBatches` | internal/investigator/article_loop_work.go:85-112 | greedy batches within both limits that concatenate to the open questions |
| `CoveragePlan.EveryQuestionHasOneTask` | internal/investigator/article_loop_work.go:57-123 | no question is dropped or repeated: afterwards every question is named exactly once |
| `CoveragePlan.EstablishedScopesStay` | internal/investigator/article_loop_work.go:57-123 | established tasks are unchanged exactly when none of them has to take the relations over; else only the last one changes |
| `CoveragePlan.EstablishedTasksStay` | internal/investigator/article_loop_work.go:57-123 | planning from fresh scopes or from a plan with its relations task always leaves established tasks unchanged |
| `CoveragePlan.NewBatchesAreBounded` | internal/investigator/article_loop_work.go:85-112 | each new batch holds one to eight questions and stays within the work limit once sealed |
| `CoveragePlan.RelationsComeLast` | internal/investigator/article_loop_work.go:112-123 | there is one relations task and it is the last |
| `CoveragePlan.SealingKeepsWork` | internal/investigator/article_loop_work.go:32-52 | the context that sealing adds was already weighed |
| `CoveragePlan.EmptyArticleLosesItsScope` | internal/investigator/article_loop_work.go:57-84 | an article without chapters loses the scope that held its originals (where the plan does less than the design promises) |
| `BoundedReview.EveryUnitIsReviewed` | internal/investigator/bounded_review.go:80-231 | a finished review has exactly one result per unit, batch by batch in task order; when a review finishes is stated by `BoundedAnswers` |
| `BoundedAnswers.AnswerIsTheReplies` | internal/investigator/bounded_review.go:80-231 | from an empty store with any crashes: out of capacity exactly when a single unit was cut off with nothing left to grow, invalid exactly when one batch got two replies that break the format, done exactly when the batches that halving ends in were all reported, else out of calls with the cap used up; no batch is asked again after a reply that decides |
| `BoundedReview.OrderIsTheReports` | internal/investigator/bounded_review.go:180-215 | within a batch the order is the model's: a concrete report that returns two units backwards |
| `BoundedReview.OrderOfResults` | internal/investigator/bounded_review.go:80-231 | with any crashes, the results are in task order exactly when every model reply accepted for a batch lists the units of that batch in order |
| `BoundedReview.ExecuteAgain` | internal/investigator/bounded_review.go:80-115 | recorded splits, completions and exhaustions give the same answer without a write |
| `BoundedReview.ExecuteResumes` | internal/investigator/bounded_review.go:80-231 | resuming on the store of a crashed worker continues as if it had not crashed |
| `BoundedReview.CrashesDoNotMatter` | internal/investigator/bounded_review.go:80-231 | with any crashes the store and the answer are those of one worker with as many writes |
| `BoundedReview.ReviewEnds` | internal/investigator/bounded_review.go:80-231 | for every oracle the recursion has a definite answer |
| `BoundedReview.ReserveAgain` | internal/investigator/content_review.go:410-437 | a completed reservation of a key is found again and gives the same slot |
| `BoundedReview.SlotsAreDistinct` | internal/investigator/content_review.go:410-437 | with any crashes no two calls share a slot and every slot is below the cap |
| `QuoteBinding.NewIndex` | internal/domain/article_review_binding.go:32-58 | originals under both names, and the maximal runs of consecutive delivered segments with the span of each segment |
| `QuoteBinding.Bind` | internal/domain/article_review_binding.go:59-98 | a quote is kept, rebound or rejected as the specification says |
| `QuoteBinding.SearchRuns` | internal/domain/article_review_binding.go:66-97 | the search counts occurrences over all runs and gives up at the second |
| `QuoteBinding.RebindingIsExact` | internal/domain/article_review_binding.go:59-98 | a rebound quote occurs exactly once in all runs; its parts come from consecutive delivered segments, each a substring of its own, and join to the quote |
| `QuoteBinding.SearchResolves` | internal/domain/article_review_binding.go:66-97 | a quote that occurs once is always found and resolved |
| `QuoteBinding.RejectionIsJustified` | internal/domain/article_review_binding.go:59-98 | rejection happens exactly for an undelivered source, a blank quote, or one that is not in its original and not unique elsewhere |
| `QuoteReports.BindQuotes` | internal/domain/article_review_binding.go:102-125 | binding a list succeeds exactly when each quote binds, with one receipt per rebinding |
| `QuoteReports.BindReport` | internal/domain/article_review_binding.go:102-151 | a report binds exactly when all its quotes do |
| `QuoteReports.ValidateEvidenceQuotes` | internal/domain/article_review_evidence.go:17-34 | accepts exactly quotes that are verbatim in their original |
| `QuoteReports.ValidateQuoteBindings` | internal/domain/article_review_binding.go:153-178 | accepts exactly receipts that can be recomputed and are present in their finding |
| `QuoteReports.BoundReportIsAdmissible` | internal/domain/article_review_binding.go:102-178 | a bound report passes every later check of its receipts and lists the sources of rebound parts; its quotes are verbatim where no alias is taken |
| `QuoteReports.StoredReportIsEvidence` | internal/domain/article_review_binding.go:102-178 | over a stored transcript every quote of a bound report is verbatim in its original |
| `QuoteReports.StoredAliasesAreFree` | internal/store/artifacts.go:126 | segments identified by snapshot and ordinal never take an alias |
| `AuthorCompiler.CanonicalSection` | internal/investigator/article_loop_wire.go:573-783 | the compiled section, or the first problem, as the specification of the language determines it |
| `AuthorCompiler.CanonicalQuote` | internal/investigator/article_loop_wire.go:647-689 | a quotation as the specification of the language determines it: the quotation with its own widened citation, or the first problem |
| `AuthorAcceptance.DeliveredTextExactly` | internal/investigator/article_loop_wire.go:544-572 | a source is a segment that was read and is heard in the video, under its alias, cited for exactly the time in which it is heard |
| `AuthorAcceptance.QuoteIsVerbatim` | internal/investigator/article_loop_wire.go:647-689 | a quotation compiles exactly when it has text, its sources are delivered originals that follow one another, and its normalized text is a slice of theirs; then its citation names these segments from the start of the first to the end of the last |
| `AuthorAcceptance.UnitIsAccepted` | internal/investigator/article_loop_wire.go:606-773 | a unit compiles exactly when it is one of the seven constructors and has the text, the items, the cells, the frames and the sources which that one asks for |
| `AuthorAcceptance.UnitRenders` | internal/investigator/article_loop_wire.go:606-773 | the block of an accepted unit says what the unit says and cites what it names |
| `AuthorAcceptance.SectionIsAccepted` | internal/investigator/article_loop_wire.go:573-783 | a chapter compiles exactly when its decoder, title, units, observations and limitations give no reason to refuse it; and it has the trimmed title, one block per unit in order, and its limitations |
| `AuthorAcceptance.ObserveIsLast` | internal/investigator/article_loop_wire.go:775-783 | of several observations of a frame the last one counts |
| `AuthorCompiler.CanonicalFigure` | internal/investigator/article_loop_wire.go:745-773 | frames delivered, in time order and shown once; every frame gets the note |
| `AuthorCompiler.AuthorDraft` | internal/investigator/article_loop_projection.go:147-289 | all chapters in the author language, or none when an alias is missing |
| `AuthorRoundTrip.CatalogGrows` | internal/investigator/article_loop_wire.go:544-572 | what was delivered keeps its citation for the rest of the run |
| `AuthorRoundTrip.CompileAgain` | internal/investigator/article_loop_wire.go:614-775 | compiled later and elsewhere, a unit of any of the seven constructors changes its identities only |
| `AuthorRoundTrip.ProjectUnit` | internal/investigator/article_loop_projection.go:190-262 | a compiled unit projects to itself with every source named once |
| `SectionRoundTrip.UnitRoundTrip` | internal/investigator/article_loop_projection.go:190-262 | projecting and recompiling gives the same block exactly when the unit names every source once |
| `SectionRoundTrip.SectionRoundTrips` | internal/investigator/article_loop_projection.go:147-289 | a saved section comes back as the same section, citations, limitations and notes; the recompilation fails exactly when nothing was noted about a frame that it cites |
| `SectionRoundTrip.UndescribedFrameIsAccepted` | internal/investigator/article_loop_wire.go:775-783 | the compiler accepts text that cites an undescribed frame, so the failing case above is reachable |
| `SectionRoundTrip.MeaningIsUnique` | internal/investigator/article_loop_wire.go:676-683 | a citation identity stands for one citation |
| `DraftWrite.PrepareEdit` | internal/investigator/article_loop_wire.go:818-1014 | the draft that a request leads to, or the reason why it saves nothing |
| `DraftWrite.Reorder` | internal/investigator/article_loop_wire.go:909-962 | the retained chapters in the requested order, created ones under their keys |
| `DraftWrite.Clean` | internal/investigator/article_loop_wire.go:981-1011 | limitations without a chapter and citations without a reference are gone |
| `DraftSafety.EditKeepsDraft` | internal/investigator/article_loop_wire.go:825-1014 | every accepted write keeps distinct chapter identities, at most forty chapters, a citation map equal to the references in use, and every chapter compiled from some author section |
| `DraftSafety.StructuralEditPermutes` | internal/investigator/article_loop_wire.go:909-962 | a structural edit saves exactly old plus created minus deleted chapters, each once, in the requested order, or without one in their old order, and only if nothing was rejected |
| `DraftSafety.RestructureKeepsOrder` | internal/investigator/article_loop_wire.go:935-962 | without a requested order the chapters that are not deleted keep their order |
| `DraftRequests.ApplyAllIs` | internal/investigator/article_loop_wire.go:848-908 | the draft after a batch of entries, part by part: which entries were taken and refused, where each chapter comes from, its citations, notes and limitations, the title, and the receipt |
| `DraftOutcomes.EditExactly` | internal/investigator/article_loop_wire.go:818-1014 | a request is refused exactly for the faults that can be seen in it and in the draft, or because the draft would become too large; otherwise this very draft is saved |
| `DraftOutcomes.PruneExactly` | internal/investigator/article_loop_wire.go:981-1011 | pruning leaves exactly the limitations that concern a chapter and the citations in use, and the quality that follows from them |
| `DraftSafety.RejectedChangeNothing` | internal/investigator/article_loop_wire.go:848-908 | a batch without restructuring saves the same article as its accepted entries alone |
| `DraftSafety.RefsAre` | internal/investigator/draft.go:581-598 | an identity counts as used exactly when a block or a limitation refers to it |
| `DraftSafety.SoundGrows` | internal/investigator/article_loop_wire.go:544-572 | a saved draft stays sound while more evidence is delivered |
| `DraftStore.Drafts.Save` | internal/store/drafts.go:30-96 | replay by key, compare-and-swap by version, at most 48 revisions; nothing else changes |
| `DraftStore.Drafts.Patch` | internal/investigator/article_loop_patch.go:39-161 | a patch is expanded once and its expansion is what every worker saves |
| `DraftStore.SaveKeepsState` | internal/store/drafts.go:30-96 | the stored draft stays sound, a write adds at most one version, and no receipt is forgotten or changed |
| `DraftStore.PatchKeepsState` | internal/investigator/article_loop_patch.go:39-161 | the same for patches and their plans |
| `DraftStore.SaveIsReplayed` | internal/investigator/article_loop_wire.go:786-803 | a write repeated at any later moment returns its first receipt and changes nothing |
| `DraftStore.PatchIsReplayed` | internal/investigator/article_loop_patch.go:45-51 | so does a patch, although the draft it was expanded from is gone |
| `DraftStore.InterruptedPatch` | internal/investigator/article_loop_patch.go:156-160 | a worker that stops between plan and write is continued to the same result |
| `DraftStore.ExpandPatch` | internal/investigator/article_loop_patch.go:66-158 | the structural write that a patch stands for |
| `PatchRequests.PatchExactly` | internal/investigator/article_loop_patch.go:66-158 | a patch of a stored draft is accepted exactly when the draft can be shown and the patch names existing blocks and chapters, each once, and empties no chapter; it then stands for a write with one entry per named chapter, its units replaced and removed in place, its limitations and observations as given |
| `PatchSafety.PatchKeepsTheRest` | internal/investigator/article_loop_patch.go:66-158 | a saved patch removes exactly the named blocks, compiles the replacements in place and leaves every other block as it was, renumbered where earlier ones are gone; chapters keep order and titles |
| `PatchFrame.PatchLeavesChapters` | internal/investigator/article_loop_patch.go:66-158 | in every draft that can be stored, a saved patch leaves each chapter that it does not name as it was, with its limitations and the citations of both |
| `PatchSafety.ReplacementsKeepIdentities` | internal/investigator/article_loop_patch.go:134-152 | without a removal every block that is not replaced is identical, including its identity |
| `BlockPatch.BlockSurvives` | internal/investigator/article_loop_patch.go:134-152 | a block sent back as it was shown is the same block at any position |
| `BlockPatch.BlockIdInjective` | internal/investigator/article_loop_wire.go:617 | a block identity determines its chapter and its position |
| `CitationCompaction.CompactRefs` | internal/investigator/article_delivery_citations.go:12-70 | one list, grouped greedily |
| `CitationCompaction.CompactArticle` | internal/investigator/article_delivery_citations.go:7-109 | all lists of an article, in order, over one growing citation map |
| `CompactionMeaning.JoinsExactly` | internal/investigator/article_delivery_citations.go:35-60 | a reference joins a group exactly when its originals follow those of the group and both have the same snapshot, origin and label, a range and no quote |
| `CompactionMeaning.CompactReads` | internal/investigator/article_delivery_citations.go:12-70 | the flattened originals of a list are unchanged, and references that cannot be joined keep their places |
| `CompactionMeaning.GroupIsHull` | internal/investigator/article_delivery_citations.go:56-59 | the range of a group is the smallest one around its members |
| `CompactionMeaning.InlinesRead` | internal/investigator/article_delivery_citations.go:71-90 | text and links keep their order and positions between the originals that are cited |
| `CompactedArticle.CompactionKeepsMeaning` | internal/investigator/article_delivery_citations.go:7-109 | for a whole article: same text, same identities, same originals everywhere, and no existing citation altered |
| `CompactedArticle.CompactionIsIdempotent` | internal/investigator/article_delivery_citations.go:7-109 | a second pass changes nothing |
| `ReferenceRepair.BindReferences` | internal/domain/article_review_references.go:230-272 | exact originals for the bound cells and the list of unbound cells, for the directory of the delivered input only |
| `ReferenceBinding.BindingIsExact` | internal/domain/article_review_references.go:230-272 | in a bound report each quote has the words of the very segment that its alias names, one quote for each delivered reference, in order; its bindings name the entry of the directory, and everything else is listed as invalid |
| `ReferenceBinding.CellsAreTheReferences` | internal/domain/article_review_references.go:193-216 | the cells of a report are exactly its references, each under the path of its list, finding and position |
| `ReferenceRepair.ApplyRepair` | internal/domain/article_review_references.go:274-304 | the repaired report, or none |
| `RepairSafety.PathsAreDistinct` | internal/domain/article_review_references.go:198-219 | a path names one cell of a report |
| `RepairSafety.AcceptedExactly` | internal/domain/article_review_references.go:274-304 | a repair is accepted exactly when its patches are in bijection with the pairwise distinct cells of the ticket and each cell still holds the recorded reference |
| `RepairSafety.RepairKeepsTheRest` | internal/domain/article_review_references.go:274-304 | the result has the same shape and differs in exactly the patched cells |
| `RepairSafety.RepairedReportBinds` | internal/domain/article_review_references.go:230-304 | when the ticket lists all unbound cells and all replacements were delivered, nothing is left unbound |
| `SseHub.Hub.Subscribe` | internal/httpapi/stream.go:53-67 | refused at 100 channels or 4 of a session, else one more live channel in its group |
| `SseHub.Hub.Unsubscribe` | internal/httpapi/stream.go:68-84 | a live channel leaves its group and the counts; a late call changes nothing, even when the group exists again |
| `SseHub.Hub.Publish` | internal/httpapi/stream.go:119-145 | every channel of the group gets the update or is closed and dropped; others are untouched |
| `SseHub.Hub.Deliver` | internal/httpapi/stream.go:128-141 | queued bytes never pass one mebibyte, and a closed channel is never sent to |
| `SseHub.Hub.Consume` | internal/httpapi/stream.go:289-297 | a consumer that receives an update, at any moment and of any channel, keeps the invariant of the hub |
| `SseHub.Hub.Drained` | internal/httpapi/stream.go:317-325 | drained bytes are subtracted exactly; the clamp at zero never bites |
| `SseHub.Hub.Release` | internal/httpapi/stream.go:111-117 | the count of a session goes down and its entry vanishes at zero |
| `SseHub.Hub.Drop` | internal/httpapi/stream.go:74-82 | an empty group is dropped |
| `SseHub.KeyIsInjective` | internal/httpapi/stream.go:53-60 | group keys tell resources apart while sessions and types contain no colon |
| `SseHub.ResourcesHaveTheirKeys` | internal/httpapi/stream.go:53-60 | over sessions identified in hexadecimal and the streamed types, equal keys mean the same resource and conversely |
| `AuthoringRanges.ValidateAuthoringPlan` | internal/investigator/authoring.go:451-495 | the issues of a plan, in order, before they are grouped into a message |
| `AuthoringRanges.NoIssuesExactly` | internal/investigator/authoring.go:451-495 | no issue exactly when identities, titles and ranges are valid and every moment of the video is in some section |
| `AuthoringTimes.IssuesExactly` | internal/investigator/authoring.go:451-495 | which issues a plan has: identity, title and range faults of each section, and a gap or a missing end where coverage breaks off |
| `AuthoringRanges.DeriveAuthoringRanges` | internal/investigator/authoring.go:415-446 | the plan with its derived times |
| `AuthoringTimes.DerivedTimes` | internal/investigator/authoring.go:415-446 | a section runs from the earliest to the latest moment of its evidence, on to the start of the next one if there is a gap; the first starts with the video and the last ends with it |
| `AuthoringRanges.DerivedCovers` | internal/investigator/authoring.go:415-446 | derived times lie in the video and cover it when each section cites evidence from inside the video |
| `AuthoringRanges.DerivedHasNoRangeIssue` | internal/investigator/authoring.go:415-495 | a derived plan can only fail for an identity or a title |
| `AuthoringRanges.ValidateSectionPlan` | internal/investigator/draft.go:303-325 | acceptance of a plan that comes with times |
| `AuthoringTimes.AcceptsExactly` | internal/investigator/draft.go:303-325 | a plan with times is accepted exactly when its sections are identified, titled, in the video, connected in order, and reach its end |
| `AuthoringRanges.AcceptedHasNoIssues` | internal/investigator/draft.go:303-325 | acceptance there, with or without overlap, implies no issue here |
| `ToolHistory.ValidateProtocol` | internal/investigator/context.go:470-493 | accepts exactly histories in which every call is answered once before anything else is said |
| `ToolHistory.ProjectHistory` | internal/investigator/context.go:545-585 | the history without the finished exchanges of a rule |
| `HistorySafety.ProjectionKeepsProtocol` | internal/investigator/draft.go:725-764 | leaving out the finished exchanges of any rule, as the observation and the draft projection do, keeps the protocol |
| `HistorySafety.ProjectionDropsExchanges` | internal/investigator/context.go:545-585 | only whole finished exchanges are left out, and the rest keeps its order |
| `ToolExchanges.FinishedExchangesGo` | internal/investigator/context.go:545-585 | what is left out are exactly the exchanges of which each call is of a tool of the rule and is answered by a result that the rule accepts |
| `ToolHistory.ProjectAuthoringHistory` | internal/investigator/authoring.go:526-577 | the authoring history with its last feedback |
| `ToolHistory.DropCandidateFieldReads` | internal/investigator/authoring.go:579-590 | the history without completed field reads |
| `AuthoringHistory.AuthoringKeepsProtocolExactly` | internal/investigator/authoring.go:526-577 | without reused call identities the projection keeps the protocol exactly when no exchange is torn by a message that carries the feedback name |
| `HistorySafety.AuthoringKeepsProtocol` | internal/investigator/authoring.go:526-577 | the sufficient half of the previous row, for all histories |
| `AuthoringHistory.AuthoringKeepsOrder` | internal/investigator/authoring.go:526-577 | for every history, what is kept keeps its order and at most one feedback message is added, at the end |
| `AuthoringExchanges.AuthoringDropsExchanges` | internal/investigator/authoring.go:526-577 | of a valid history exactly those messages stay, in order, that are neither feedback nor in a recorded exchange nor in a read of candidate fields that a later mutation supersedes |
| `AuthoringExchanges.ExchangesGoWhole` | internal/investigator/authoring.go:526-577 | the two messages of such an exchange stay together or go together |
| `ToolExchanges.FeedbackIsLast` | internal/investigator/authoring.go:526-577 | the feedback at the end says of each field what was said last and not forgotten since; without such a field there is none |
| `AuthoringExchanges.RequestsKeepProtocol` | internal/investigator/context.go:237-299 | the history of a request, projected as its mode prescribes, keeps the tool protocol when only user messages carry the feedback name |
| `AuthoringExchanges.EngineHistoryIsFixed` | internal/investigator/authoring.go:526-577 | a projected history of the engine can be projected again, which changes nothing |
| `AuthoringHistory.AuthoringIsIdempotent` | internal/investigator/authoring.go:526-577 | a second pass changes nothing when feedback that was read is written as the same text |
| `ConceptMap.WriteConceptMap` | internal/exporting/renderer.go:299-355 | the outline of a concept tree, or the first problem |
| `ConceptMap.ExportsExactly` | internal/exporting/renderer.go:299-355 | success exactly for 1 to 256 distinct identified nodes that all hang below a parentless root and link to known chapters; then each node is written once, after its parent, at its depth; the cycle branch is unreachable |
| `ConceptOutline.OutlineShowsTree` | internal/exporting/renderer.go:299-355 | each line shows its node with caption and chapter link, indented under its parent, siblings in their order |
| `Text.FieldsExactly` | internal/exporting/renderer.go:299-355 | the words of a text are its maximal runs without space, in order, by which captions, titles and quotations are normalized |
| `Passages.ValidateQuestionPassages` | internal/domain/passage.go:31-106 | accepts exactly the selections that a reader can make by one continuous drag within the limit |
| `Passages.CheckLength` | internal/domain/passage.go:44-68 | the length limit counts the separators |
| `Passages.CheckContinuity` | internal/domain/passage.go:69-105 | parts lie in consecutive blocks: a tail, whole blocks, a head |
| `Passages.AcceptedSelectionIsContiguous` | internal/domain/passage.go:31-106 | an accepted selection, joined by single blanks, is one substring of the joined article text, within the limit |

## Left out

- HTTP handlers, sessions and their cookies, share links, the admin area: request plumbing without a hard functional core.
- PostgreSQL, Redis and task queues: the store is an atomic map of operations, drafts and checkpoints; its transactions and fences are assumed.
- Model providers, prompts, JSON schemas and JSON decoding: replies and decoded values are inputs; the decoder's own findings are the `rejected` field of a chapter and the `Codec` of a history.
- Images, frame capture, visual sweeps, the visual and text order of a bounded review, figure placement: foreign calls. A delivered frame counts as ready; the error for a frame that stopped being ready is not modelled.
- Revisions of the contract other than V13, and the switches that select them.
- ArticleLoop: functions on values of one store instead of an object with fields, because the theorems compare the stores of many runs; update in place and aliasing of the checkpoint are not captured.
- ArticleLoop: the stage that repairs references, delta reviews, the reconciliation of findings, visual observations, progress receipts and feedback texts are not part of the step relation; a report counts as valid apart from its coverage. Planning, splitting and draft editing are parameters, proved in their own modules.
- ArticleLoop.Gate: leaves out the checks of delta reviews, reconciled findings, reference stages and visual observations, the topics and severities of a report, the policy revision, which is constant in a run, and the state of the frames. The checks of quotes and their bindings are those of `QuoteReports`, where bound reports are proved to pass them.
- LoopHalting.HaltsExactly: speaks of a turn whose effects are stored; a write whose key holds another value also ends a run, before that.
- LoopSafety.ReuseSafe: rebinds reviews of the very same scope; the reuse of a review of a larger scope belongs to earlier revisions and does not happen under V13 (`article_loop_convergence.go:335-337`).
- LoopSafety.IsFaithful: the digests of scopes are assumed to identify what a task answers for, and a valid article to have chapters under different names, which `valid` decides outside this model.
- ArticleLoop: a transport failure is a crash; a review that was cut off or did not fit is split.
- BoundedReview: functions on values with a budget of writes, so that a crash can fall between any two writes; errors of a provider other than truncation and malformed output are crashes.
- ReviewMaterial and ReviewScopes: citations are resolved to segments and frames at the block; the weights of rendered text are parameters; nil and empty slices are one.
- ReviewPlanning.Planner.SplitAt: the third case of the source, a scope with neither chapters nor sources, cannot arise under V13 and is not modelled.
- AuthorLanguage: messages of rejections carry no path; the check of compiled blocks and citations after compilation is the parameter `acceptable`.
- DraftWrite: concept maps, delivery sections and figure placements belong to delivery revisions and are left out of the write; a concept map in a request is refused as the reviewed contract does.
- BlockPatch: the byte limit of a patch request is not modelled; refusals are not told apart.
- DraftSafety.RejectedChangeNothing: assumes that the accepted entries fit in a request, and that a draft which fits still fits without the first of its rejections, because the sizes of JSON texts are parameters.
- CompactedArticle.CompactionKeepsMeaning: assumes that no dangling reference has the name of a group, which holds in every saved draft because its citations are exactly its references.
- AuthoringHistory.AuthoringIsIdempotent: assumes of JSON coding that feedback made of decoded values can be read again and that what is read is written as the same text; the spelling of the values may change on the way.
- SseHub.Hub.Unsubscribe: the once-guard around the returned function is left out, since a second call is proved to change nothing.
- SseHub.ResourcesHaveTheirKeys: that sessions are identified by `domain.ID()` and streamed resources are requests or turns is read off the callers of the hub.
- AuthoringExchanges.RequestsKeepProtocol: the notices that a request adds and drops again (draft state, evidence, readiness, references) carry no calls and are not modelled, nor are the projections of source reads and rejected candidates.
- PatchSafety.PatchKeepsTheRest: for the chapters that a patch names it asks that units name each source once, since any other block is rewritten by the projection (`SectionRoundTrip.UnitRoundTrip`); for all other chapters `PatchFrame.PatchLeavesChapters` does not.
- AuthoringRanges.ValidateAuthoringPlan: models the list of issues; the text that groups them by section and caps their number (`plan_contract.go:68-91`) is not modelled.
- SseHub.Hub.Publish: polling and rendering of updates are parameters; the mutex makes each method one step.
- ConceptMap.WriteConceptMap: labels are normalized but not escaped for Markdown.
- Passages: the in-place normalization of the request is applied before the check.
- Suggested questions, advice, limits of visual search, exact Markdown of the rest of an export: mostly local checks that would add easy members.
