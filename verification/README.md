# Verification of the graph-engineering agent harness

This project models the harness's task-graph state machine and the protocols and passes around it, and
proves what they promise. It is written in Dafny 4.11; `dafny verify dfyconfig.toml` checks all of it.

## What is modelled

**The task graph** (`agent_harness/graph.py`). A graph is a list of nodes, each with one of eight statuses,
an attempt counter and ceiling, an executor, a live review and its histories. `Records` holds the data and the
checks `validate` makes; `Operations` gives, for each named operation, the checks it makes before it touches
anything and the document it has written when it calls `validate`; `TaskGraph.Graph` is the class, whose methods
loop, mutate and validate as the Python methods do and are proved against `Operations`. On top of that:

* `Dependencies`: Kahn's algorithm, the worklist closures, reachability as the existence of a walk.
* `Guards`: which operations the trailing `validate` can refuse after they have written.
* `Runs`: every sequence of accepted operations, the attempt ledger, the exact extent of a FAIL.
* `Termination`: how many operations a run can have.
* `DoubtTrail`: where UNCERTAIN reviews go, and what the bounded history keeps of them.
* `Advice`: settledness above a node, no deadlock, and the advice of `_next_action`.
* `Completion`: from which states ordinary work can finish the graph.
* `Verdicts`, `Lifecycle`: what a verdict does and who may give it, and what each record says along its life, on the
  fields and reduced labels themselves.
* `Evaluation`: the two clients in `agent_harness/evals.py` that drive the class.

**The overlap sweep** (`OverlapSweep`): the sorted, bisected, prefix-table form of "some other session overlaps
this one", in place on verdict objects, and what the flag means in time.

**The journal** (`Literals`, `Journal`, `Sessions`, `Agreement`, `Judgements`): rendering a line and the narrowed read
that rests on it, the report's pass, the hook's pass, that the two agree, and what they decide by where records stand.

**Two concurrent protocols**, as steps of any number of processes in any interleaving: the lock file with
`GraphStore.transaction` (`Store`, and `GraphFile` for one transaction run by the class), and deciding and claiming
a bypass under one lock while others append without it (`Claim`).

**Two folds of plain data**: the installer's merge into client settings (`HookDocument`, `HookLaws`, and `HookFacts`
on the document's own members), and the report over several graph documents (`Archive`, and `Holdings` for what its
counts say of the documents).

Results worth knowing before reading:

* `verify` is the one operation that can write to the in-memory document and then be refused by its own trailing
  `validate`: exactly when the reviewer, reason or recommendation is blank or over the text limit
  (`Guards.TrailingValidate`). Every node under review has such a verdict (`Advice.WrittenThenRefused`), and
  `Advice.BypassedIsRefused` names one. Inside a transaction nothing of it is stored.
* The comment at agent_harness/graph.py:966-968 says that every ancestor of an awaiting node is verified. That holds
  of a ready, running, awaiting or verified node if and only if none of its ancestors is superseded; and all of them
  are at least settled if and only if each superseded one has its own dependencies settled
  (`Advice.UpstreamIsVerified`, `Advice.UpstreamIsSettled`). `Advice.SupersededBreaksIt` is a run of three operations
  to an awaiting node with an unfinished ancestor.
* Ordinary work can complete a reachable graph if and only if no failed or invalidated node has spent its attempts
  (`Completion.ReachableCompletable`).
* `_complete_ancestors` raises unless every ancestor can still be started: an ancestor that is verified already makes
  it raise too (`Evaluation.CompleteAncestors`).
* An install followed by an uninstall returns a settings document to what it was if and only if the document was
  tidy: the docstring at scripts/install_pc.py:129-136 promises it of every document, but empty containers are
  lost (`HookLaws.InstallThenRemove`; `HookLaws.EmptyTableIsLost` is such a document).
* Which status the archive report keeps for a node, and with it the split into verified and superseded, depends on the
  order of documents at a tie (`Archive.SplitDependsOnOrder`). It is free of order and repetition if and only if no two
  documents lead with copies of one node that differ in status (`Archive.OrderFreeExactly`), where a document leads
  with its first copy that no copy anywhere is preferred to. The totals listed below never depend on the order.
* docs/conformance.md:170-176 says a run counts for a session by its journal position only. The code counts a run
  that names its session from that session's start onwards, and the model follows the code.
  `Agreement.LateRunSeparatesTheRules` is a journal on which the two differ, and
  `Agreement.DocumentedRuleAgreesExactly` says on which they agree.
* A lock file whose process died is never taken over: from then on no transaction commits (`Store.StaleIsForever`).

A refused operation is one that raises; the model says so with a result flag. An id is its rank in string order. A
text is its stripped, case-folded form (absent when blank), a spelling, and a length.

## Model

| member | source | states |
|---|---|---|
| Dependencies.TopologicalIds | agent_harness/graph.py:469-488 | Kahn's loop gives an order of all ids with every dependency before its dependent exactly when there is no dependency cycle, and raises otherwise; which order it gives depends on the edges alone |
| Dependencies.LeftoverCycle | agent_harness/graph.py:486-487 | a shortfall in the order is a real cycle of the graph |
| Dependencies.ChaseCycle | agent_harness/graph.py:486-487 | a set of nodes each with a dependency inside the set contains a cycle |
| Dependencies.Closure | agent_harness/graph.py:499-513 | the worklist ends, duplicates and all, with exactly the nodes some walk of at least one edge reaches |
| Dependencies.Duality | agent_harness/graph.py:499-528 | b is reached from a over children exactly when a is reached from b over dependencies |
| Dependencies.Descendants | agent_harness/graph.py:499-513 | exactly the nodes that transitively depend on the given one, once each, in that order |
| Dependencies.Ancestors | agent_harness/graph.py:516-528 | exactly the nodes the given one transitively depends on, once each, in that order |
| Basics.SortedAscends | agent_harness/graph.py:474-484 | sorting distinct ids gives the one ascending list of their set |
| Records.AcceptedIsValid | agent_harness/graph.py:111-144 | whatever `validate` accepts satisfies the standing invariant once promoted |
| Guards.TrailingValidate | agent_harness/graph.py:576-929 | an operation past its own checks is accepted by the `validate` at its end if and only if no verdict text is blank or over the limit; for operations other than `verify`, always |
| Guards.KeepsValid | agent_harness/graph.py:409-467 | no accepted operation leaves the standing invariant |
| TaskGraph.ArchiveReview | agent_harness/graph.py:1127-1159 | cutting by count and then dropping the oldest until the list fits is the longest-suffix bound of the history with the record appended, whatever length a record serialises to |
| TaskGraph.Graph.FromDocument | agent_harness/graph.py:90-97 | a document loads exactly when its version and objective are in order, its ids are distinct and its nodes are accepted; what is loaded is the document promoted |
| TaskGraph.Graph.CheckNodes | agent_harness/graph.py:111-144 | the per-node loop accepts exactly when every record and every dependency is in order |
| TaskGraph.Graph.CheckRuntime | agent_harness/graph.py:409-467 | the runtime loop accepts exactly when every node's status agrees with its dependencies and reviews |
| TaskGraph.Graph.PromoteBlockedNodes | agent_harness/graph.py:1114-1120 | promoting in place, node after node, is promoting all at once against the old statuses |
| TaskGraph.Graph.Validate | agent_harness/graph.py:111-144 | accepts exactly the documents whose header and nodes are in order, and leaves them promoted |
| TaskGraph.Graph.Start | agent_harness/graph.py:576-590 | succeeds exactly on its guard, with the operation's whole new document, else changes nothing |
| TaskGraph.Graph.Submit | agent_harness/graph.py:592-635 | the same for a submission: actor, evidence coverage and context checked first |
| TaskGraph.Graph.Verify | agent_harness/graph.py:637-800 | the same for a verdict; a FAIL returns the dependents of the blamed node in graph order without those already failed; and the one way to be refused with the document already changed |
| TaskGraph.Graph.CheckFail | agent_harness/graph.py:733-760 | the checks of a FAIL, including that the blamed node is the reviewed one or a verified ancestor |
| TaskGraph.Graph.ApplyFail | agent_harness/graph.py:761-798 | the blamed node and its dependents are rewritten as specified, and the list is exactly the dependents not already failed |
| TaskGraph.Graph.InvalidateDescendants | agent_harness/graph.py:1083-1112 | the loop over the dependents discards each once and lists those it changed, in dependency order |
| TaskGraph.Graph.RecordVerification | agent_harness/graph.py:1161-1178 | a live UNCERTAIN review of a submission is archived before the new one takes its place |
| TaskGraph.Graph.WithdrawSubmission | agent_harness/graph.py:802-826 | succeeds exactly on its guard; the doubt is archived and the node is running again |
| TaskGraph.Graph.Retry | agent_harness/graph.py:828-853 | succeeds exactly on its guard, archiving the attempt |
| TaskGraph.Graph.GrantAttempt | agent_harness/graph.py:855-891 | succeeds exactly on its guard, raising the ceiling by one |
| TaskGraph.Graph.Supersede | agent_harness/graph.py:893-929 | succeeds exactly on its guard, and returns in dependency order exactly the waiting dependents it set free |
| TaskGraph.Graph.AddNode | agent_harness/graph.py:530-564 | a copy with the fresh node, description included, is validated and adopted only if accepted |
| TaskGraph.Graph.DescendantsOf | agent_harness/graph.py:499-513 | the transitive dependents of a node of the graph, in dependency order |
| TaskGraph.Graph.AncestorsOf | agent_harness/graph.py:515-528 | the transitive dependencies of a node of the graph, in dependency order |
| Runs.FreshDocumentIsInitial | agent_harness/graph.py:547-561 | a document of fresh nodes that loads is, once promoted, a state runs begin in |
| Runs.InitLoads | agent_harness/cli.py:569-587 | the one-node document `init` writes loads exactly when its record is in order, and its node is then ready |
| Runs.RunKeepsValid | agent_harness/graph.py:111-144 | every run of accepted operations keeps the standing invariant |
| Runs.FailIsExactAndLocal | agent_harness/graph.py:733-800 | an accepted FAIL leaves the blamed node failed, invalidates exactly the listed dependents, takes one attempt back exactly from those holding one, and leaves every other record alone |
| Runs.FailNode | agent_harness/graph.py:733-800 | the whole record a FAIL leaves, node by node |
| Verdicts.FailStrikesTheNamed | agent_harness/graph.py:733-800 | a FAIL that names a node fails that one, which is the reviewed node or a verified ancestor, and invalidates the reviewed one; a FAIL that names none fails the reviewed one; the list is the dependents of the failed node in dependency order, and all else is as it was |
| Verdicts.FailIsOnRecord | agent_harness/graph.py:761-798 | what the failed node's record gains: status, reason and one entry naming verdict, criteria and affected nodes; an ancestor loses its PASS |
| Verdicts.DiscardIsOnRecord | agent_harness/graph.py:1083-1112 | what an invalidated dependent's record gains: the failed node as its reason and the status it had |
| Verdicts.ReviewIsOnRecord | agent_harness/graph.py:695-706 | the live review after any verdict repeats the verdict's fields, with the defaults of a FAIL filled in |
| Verdicts.VerdictIsIndependent | agent_harness/graph.py:657-659 | no verdict is accepted from a label that reduces to the executor's of the reviewed node, nor to that of the node a FAIL names |
| Verdicts.VerdictIsInOrder | agent_harness/graph.py:660-760 | what an accepted verdict has to show of criteria, evidence and reasons, result by result |
| Verdicts.VerifiedIsReviewed | agent_harness/graph.py:430-466 | in every valid graph a verified node was passed by somebody whose label does not reduce to its executor's, with each criterion submitted for, checked and reviewed on evidence |
| Verdicts.SubmitterIsTheExecutor | agent_harness/graph.py:614-619 | naming a submitter adds exactly the demand that the label reduce to the executor's |
| Verdicts.WithdrawerIsTheExecutor | agent_harness/graph.py:805-821 | a withdrawal passes its checks exactly for labels that reduce to the executor's, over standing doubt about a submission |
| Verdicts.SpellingIsNoDisguise | agent_harness/graph.py:1180-1201 | two labels with the same stripped, case-folded form pass and fail the same checks, in all three operations |
| Verdicts.WhatAVerdictCanFail | agent_harness/graph.py:733-743 | the nodes some verdict on a node can fail are exactly that node and its verified ancestors |
| Verdicts.WhatCanBePassed | agent_harness/graph.py:707-717 | a node under review can be passed by some verdict exactly when its evidence speaks of every criterion and of nothing else |
| Verdicts.VerdictTextExactly | agent_harness/graph.py:722-731 | past its own checks a verdict goes through exactly when no label or sentence is blank or over 32768, an empty recommendation of a FAIL excepted |
| Lifecycle.ReachableOrderly | agent_harness/graph.py:576-929 | in every reachable graph what waits carries nothing of an earlier attempt, what is stopped ends its failure history with what stopped it, what is under review or verified was submitted, and what is retired says why |
| Lifecycle.StatusSaysWhatIsDone | agent_harness/graph.py:409-428 | a blocked node has an unfinished dependency; one that is ready, running, awaiting or verified has none |
| Lifecycle.RecordIsInOrder | agent_harness/graph.py:146-236 | the limits and texts of every node of a valid graph, in numbers, and that no node waits for itself |
| Lifecycle.ReviewsAreInOrder | agent_harness/graph.py:218-407 | every live review is complete for its result, about the node's criteria, and by somebody whose label does not reduce to the executor's; every archived one is complete and in doubt |
| Lifecycle.RetryTurnsOver | agent_harness/graph.py:828-853 | a retry archives the attempt whole and clears evidence, review, executor, reason and submission; the node is ready exactly when its dependencies are done |
| Lifecycle.StartTakesAnAttempt | agent_harness/graph.py:576-590 | a start takes one attempt, for the actor named or else the node's role |
| Lifecycle.SubmissionIsOnRecord | agent_harness/graph.py:592-635 | a submission puts its evidence and context on the record and changes nothing else there |
| Lifecycle.DoubtIsArchived | agent_harness/graph.py:1161-1178 | a withdrawal or verdict archives the live review exactly when it is in doubt about a standing submission, with evidence and context, and leaves the history alone otherwise |
| Lifecycle.VerdictDecides | agent_harness/graph.py:707-731 | a PASS verifies, an UNCERTAIN leaves awaiting; neither touches plan, budget or submission |
| Lifecycle.RetirementIsOnRecord | agent_harness/graph.py:893-929 | a retirement changes the status and leaves its reason |
| Lifecycle.AddedAsPlanned | agent_harness/graph.py:530-564 | an added node is what was asked for, with nothing done on it |
| Lifecycle.RunKeepsThePlan | agent_harness/graph.py:855-891 | over every run a node keeps description, dependencies, role and criteria, and its ceiling is what it was plus the grants since |
| Lifecycle.GrantIsSigned | agent_harness/graph.py:855-891 | a grant raises the ceiling by one, up to twenty, records who and why, and gives no attempt back |
| Lifecycle.AdviceIsExact | agent_harness/graph.py:1020-1053 | in every valid and sound graph each action is named exactly when it can be taken: retry when a retry is accepted, escalate when none is |
| Lifecycle.PendingInOrder | agent_harness/graph.py:1023-1029 | what a blocked node is told to wait for: its unfinished dependencies, each once, in the order of its list |
| Runs.StepBalance | agent_harness/graph.py:1100-1110 | an operation changes a node's unaccounted attempts only by retiring it with one in hand |
| Runs.RunBalance | agent_harness/graph.py:576-929 | so over a whole run they are what the run started with plus those retirements |
| Runs.AttemptLedger | agent_harness/graph.py:576-929 | in every reachable state attempts are the node's failed reviews, plus retirements while running or awaiting, plus one if it is running, awaiting or verified |
| Runs.RefundNeverClamped | agent_harness/graph.py:1100-1110 | whoever is refunded holds an attempt, so the `max(0, ...)` never acts |
| Termination.PotentialFalls | agent_harness/graph.py:576-929 | one natural number falls with every accepted operation except UNCERTAIN, over a fixed node set |
| Termination.RunsTerminate | agent_harness/graph.py:576-929 | an explicit bound on the length of every run, each UNCERTAIN verdict adding three; grants and retirements allowed |
| Termination.FailsAreBounded | agent_harness/graph.py:733-800 | at most MAX_ATTEMPTS failures per node are ever accepted |
| Termination.CountsMean | agent_harness/graph.py:637-800 | the two counts in those bounds are the numbers of UNCERTAIN and of FAIL verdicts in the run |
| Termination.ReachableHonest | agent_harness/graph.py:576-929 | the premise of the two bounds holds in every state a run from fresh nodes reaches |
| Termination.ReachableRunsTerminate | agent_harness/graph.py:576-929 | both bounds, from every reachable state on |
| DoubtTrail.BoundedIsLongest | agent_harness/graph.py:1127-1159 | of all suffixes within both bounds the archive keeps the longest |
| DoubtTrail.BoundedAbsorbs | agent_harness/graph.py:1127-1159 | cutting at every step keeps what cutting once at the end would keep |
| DoubtTrail.FitsMeans | agent_harness/graph.py:1157-1159 | the two bounds in numbers, over the length of the list's text: brackets, records and separators |
| DoubtTrail.TrailIsLongestSuffix | agent_harness/graph.py:802-826 | after any run a node's review history is the longest suffix within both bounds of all doubt displaced from it |
| DoubtTrail.DoubtIsNeverLost | agent_harness/graph.py:834-844 | an UNCERTAIN review leaves the live slot only into that trail or, by a retry, into the attempt history |
| DoubtTrail.ReachableSound | agent_harness/graph.py:409-467 | every reachable graph meets what that and the advice rest on |
| Advice.SettledAlongVerified | agent_harness/graph.py:409-428 | the end of a dependency path from a going node through verified nodes is settled |
| Advice.UpstreamIsVerified | agent_harness/graph.py:954-976 | all ancestors of a going node are verified if and only if none of them is superseded |
| Advice.UpstreamIsSettled | agent_harness/graph.py:409-428 | all ancestors of a going node are settled if and only if each superseded one has its own dependencies settled |
| Advice.SupersededBreaksIt | agent_harness/graph.py:966-968 | a run from a fresh plan to an awaiting node with an unfinished ancestor, past one superseded with its reason |
| Advice.WrittenThenRefused | agent_harness/graph.py:722-731 | on every awaiting node of a valid graph an UNCERTAIN verdict with an overlong reason passes its checks, is written and is then refused |
| Advice.BypassedIsRefused | agent_harness/graph.py:722-731 | one such graph and verdict |
| Advice.NoDeadlock | agent_harness/graph.py:986-991 | every incomplete valid graph has an unsettled node whose dependencies are settled, and it is not blocked |
| Advice.AdviceIsTruthful | agent_harness/graph.py:1020-1053 | in every valid and sound graph the action named for each node passes its guard for some arguments |
| Advice.ReachableAdvice | agent_harness/graph.py:1020-1053 | so it does in every reachable graph |
| Completion.Advance | agent_harness/graph.py:576-853 | while no budget is spent some ordinary operation is accepted and brings the graph closer to done |
| Completion.SpentForever | agent_harness/graph.py:828-853 | ordinary work never moves a failed or invalidated node without attempts left |
| Completion.CompletableExactly | agent_harness/graph.py:986-991 | from a valid and sound graph some ordinary run makes the completion check pass if and only if no failed or invalidated node has spent its attempts |
| Completion.ReachableCompletable | agent_harness/graph.py:986-991 | the same from every reachable graph |
| Completion.CompletableWithoutSupersede | agent_harness/graph.py:986-991 | from states reached without `supersede`, failed nodes with attempts left are enough |
| Evaluation.CompleteNode | agent_harness/evals.py:118-136 | one turn of the loop verifies a ready node exactly when it has an attempt left, and otherwise only promotes |
| Evaluation.CompleteAncestors | agent_harness/evals.py:110-136 | the loop ends; it raises exactly when some ancestor is not blocked or ready with an attempt left, one verified already included; otherwise it leaves all of them verified and only promotes elsewhere |
| Evaluation.CompareCase | agent_harness/evals.py:44-100 | on any graph, it reaches its end exactly when all ancestors and the failing node can be started and that node once more; then two checks hold, and the two lists are equal exactly when no dependent had failed before |
| Evaluation.ListsAgree | agent_harness/evals.py:95-96 | the list a FAIL returns is the list of dependents taken beforehand exactly then |
| Evaluation.FreshCase | agent_harness/evals.py:44-100 | on a graph of fresh nodes that comes to a ceiling of at least two, and no dependent has failed |
| OverlapSweep.BisectRight | agent_harness/conformance.py:283-296 | the position after the last start not above the given end |
| OverlapSweep.PrefixTable | agent_harness/conformance.py:284-294 | every prefix's two furthest ends |
| OverlapSweep.FurthestDecides | agent_harness/conformance.py:243-300 | comparing with the furthest other session that starts in time decides for all, inverted and identical windows included |
| OverlapSweep.Decide | agent_harness/conformance.py:295-300 | one comparison says whether any other session overlaps |
| OverlapSweep.MarkOverlaps | agent_harness/conformance.py:243-300 | a session of the group is newly flagged exactly when another one overlaps it under the pairwise test |
| OverlapSweep.Contested | agent_harness/conformance.py:200-240 | a verdict ends contested exactly when another observed session of its repository overlaps it; raises exactly on a verdict that does not say what its bounds are |
| OverlapSweep.OverlapsExactly | agent_harness/conformance.py:309-337 | two sessions overlap exactly when some instant lies in both windows, ends included, or one window is inverted and the other covers it; whichever is asked about first |
| OverlapSweep.ContestIsMutual | agent_harness/conformance.py:200-240 | an entry is flagged exactly when another one of its repository was open together with it, and that one is flagged too |
| Journal.Render | agent_harness/journal.py:135-155 | sheds the fewest fields that bring the line under the bound, or gives up when none do |
| Journal.IdentityIsKept | agent_harness/journal.py:96-96 | fields that are not sheddable survive any shedding with their values |
| Journal.ShedInOrder | agent_harness/journal.py:145-155 | what any number of shedding steps takes away, by field name and in order, and that it is recorded as shed |
| Journal.ShedReadsBack | agent_harness/journal.py:150-152 | the list of shed fields in a line reads back as the names of exactly what was shed |
| Journal.FieldNames | agent_harness/journal.py:121-132 | the names the fields are rendered under |
| Journal.LineShowsEveryField | agent_harness/journal.py:152-152 | every field a record has when it is rendered is in the line under its name |
| Journal.NamesAreSorted | agent_harness/journal.py:152-152 | the fields are rendered in the order of their names |
| Literals.QuotedReadsBack | agent_harness/journal.py:152-152 | a string literal reads back as the string, whatever follows it, escapes and surrogate pairs included |
| Literals.QuotedTellsApart | agent_harness/journal.py:433-433 | no literal begins another one's: the text decides the value and where it ends |
| Literals.EscapedIsAscii | agent_harness/journal.py:153-153 | a literal is printable ASCII, so bytes are characters |
| Journal.MarkerNamesOne | agent_harness/journal.py:433-433 | the substring the narrowed read looks for names one repository |
| Journal.LineNamesItsRepo | agent_harness/journal.py:421-433 | a rendered line contains its repository field literally, however much was shed |
| Journal.ContainsMeans | agent_harness/journal.py:439-441 | the test of a line is that the literal stands somewhere in it |
| Journal.NarrowedReadIsFilter | agent_harness/journal.py:410-451 | on lines written by `render`, the substring-filtered read is the repository filter of the full read |
| Sessions.CollectedMeans | agent_harness/conformance.py:60-132 | the state the report collects is a session's first opening, last end and own records |
| Sessions.Windows | agent_harness/conformance.py:60-132 | the one-pass loop gives every session that state and the number of runs counting for it |
| Sessions.CountedAfter | agent_harness/conformance.py:116-124 | the count of named runs is positive exactly when one stands after the session's start |
| Sessions.CountedBetween | agent_harness/conformance.py:124-131 | the count of unnamed runs is positive exactly when one of the repository stands inside the window |
| Sessions.PreviousBypass | agent_harness/session_hooks.py:283-405 | the session returned is one that ended among the newest five, used no graph run, is unclaimed and worth reporting, with every later one passed over; none is returned only when no such session exists |
| Sessions.Scan | agent_harness/session_hooks.py:381-405 | the newest-first scan decides the same |
| Sessions.ListFinished | agent_harness/session_hooks.py:369-380 | the finished sessions before the cut, each once, newest end first |
| Sessions.CutPosition | agent_harness/session_hooks.py:408-431 | the last record with the caller's identity fields, or the end when there is none |
| Judgements.EditsArePositions | agent_harness/session_hooks.py:222-232 | the edits both passes count are the positions of the session's edits inside the project, those outside it beside them, and their files the path ids there |
| Judgements.SizeIsPositions | agent_harness/session_hooks.py:256-271 | the two sizes of a session in those terms |
| Judgements.WorthMeans | agent_harness/session_hooks.py:274-280 | a session is worth a word exactly when it was seen to open, edited inside the project, and changed two files or made five edits there |
| Judgements.VerdictMeans | agent_harness/conformance.py:135-183 | each verdict from the positions of the session's records: a bypass opened and ended, edited inside the project, and no run counts for it |
| Judgements.VerdictCounts | agent_harness/conformance.py:160-172 | the reported edits, outside edits and changed files are the numbers of those positions and path ids; confidence is high exactly with a close |
| Judgements.RunsReported | agent_harness/conformance.py:116-131 | the reported number of runs is the number of own ones after the opening plus the number of loose ones of the repository inside the window |
| Judgements.NothingReported | agent_harness/conformance.py:152-159 | without an opening or an end nothing is counted and confidence is low |
| Judgements.FiledUnderItsFirst | agent_harness/conformance.py:87-92 | a session belongs to the repository its first own record names |
| Judgements.AnnouncedMeans | agent_harness/session_hooks.py:283-405 | what the hook announces opened and later ended before the cut, edited enough inside the project, has no claim, no own run after its opening and no loose run inside its window |
| Judgements.AnnouncedIsRecent | agent_harness/session_hooks.py:369-405 | at most four sessions ended later than the one announced, and each of those worth a word was claimed |
| Judgements.CutMeans | agent_harness/session_hooks.py:408-431 | the cut is the last record with the caller's event, session and time, or the end when there is none |
| Agreement.NarrowedSame | agent_harness/session_hooks.py:327-337 | narrowing to one repository keeps a session's records and the order of its bounds |
| Agreement.RunsCarryOver | agent_harness/conformance.py:116-132 | a run that counts in the whole journal counts in the narrowed history |
| Agreement.HookAndReportAgree | agent_harness/conformance.py:7-15 | a session the hook announces from the narrowed history, at any cut after the session was over, is judged a bypass over the whole journal, with the same two sizes |
| Agreement.HookAndReportAgreeOnLines | agent_harness/session_hooks.py:337-338 | the same from stored lines, through `read_repo` and `read` |
| Agreement.UncutHookAndReportAgree | agent_harness/session_hooks.py:283-405 | the same of the call without an asking session, with no premise about a cut |
| Agreement.ReportUses | agent_harness/conformance.py:116-131 | what the report counts is positive exactly when the session has a named run after its start or an unnamed one stands inside its window |
| Agreement.DocumentedRuleAgreesExactly | docs/conformance.md:170-176 | when the rule by position alone and the code's give the same answer for a session |
| Agreement.LateRunSeparatesTheRules | docs/conformance.md:170-176 | a journal on which they do not: a session's named run flushed after it closed |
| Store.TransactionsSerialise | agent_harness/storage.py:35-164 | over every interleaving at most one process is inside, and the stored graph is the sequential composition of the committed transactions in lock order, each operation accepted |
| Store.OneInside | agent_harness/storage.py:35-84 | of two processes one is outside or dead, over every interleaving, and whoever is inside made the lock file that is there |
| Store.StepPrivate | agent_harness/storage.py:154-160 | a process's copy is the stored graph with its own operations, until it saves |
| Store.ExitFindsItsOwn | agent_harness/storage.py:75-84 | a leaving process finds its own lock file and removes it, whatever inode numbers are reused |
| Store.AloneItCommits | agent_harness/storage.py:154-164 | from any reachable unlocked state a process let through alone commits an accepted operation and unlocks |
| Store.StaleIsForever | agent_harness/storage.py:35-73 | a lock nobody holds is never taken over: no continuation changes the stored graph |
| Store.DyingInsideIsStale | agent_harness/storage.py:35-84 | a step makes the lock stale exactly when its holder dies or the creator fails to write its pid |
| GraphFile.Perform | agent_harness/storage.py:162-164 | a request is carried out exactly as some accepted operation, or no way of carrying it out is accepted |
| GraphFile.DocumentLoads | agent_harness/graph.py:98-103 | writing the node list out and reading it back gives the same ids and records |
| GraphFile.GraphStore.Mutate | agent_harness/storage.py:134-164 | success replaces the file by the operation's result; whatever raises, a verdict refused after it wrote included, leaves the file alone |
| Claim.DecisionIsNew | agent_harness/session_hooks.py:353-360 | what the lock holder decides was neither said nor is about to be, because all claims are read |
| Claim.AnnouncedAtMostOnce | agent_harness/session_hooks.py:434-497 | over every interleaving with unlocked appends, failed claim writes and deaths, no session of a repository is announced twice |
| Claim.AnnouncementsAreFounded | agent_harness/session_hooks.py:454-465 | every announcement was the scan's answer on the journal read at the time, and its claim is in the journal |
| Claim.AnnouncedIsBypass | agent_harness/session_hooks.py:434-497 | so what is announced is a bypass by the report's judgement of the journal read then, for a session of one repository that was over where the announcing one opened |
| Claim.AloneItAnnounces | agent_harness/session_hooks.py:434-497 | a session start let through alone claims and announces what the scan names, and frees the lock |
| HookDocument.WithoutManagedHooks | scripts/install_pc.py:126-170 | removes exactly the managed entries and the containers that leaves empty, or raises exactly when a reached entry's command is a list or an object |
| HookDocument.WithManagedHooks | scripts/install_pc.py:298-333 | strips, then appends one entry per managed event, with each error the code raises |
| HookLaws.ManagedShape | scripts/install_pc.py:194-271 | the walk lists the managed entries per event with their matcher |
| HookLaws.InstallsExactlyWhen | scripts/install_pc.py:298-320 | an installation goes through exactly when the document is readable, `hooks` is absent or an object and every managed event is absent or a list |
| HookLaws.RemovalFixes | scripts/install_pc.py:126-170 | removal changes nothing exactly on a document with nothing managed and no empty container |
| HookLaws.RemovalIsTidy | scripts/install_pc.py:126-170 | removal leaves such a document, so removing twice is removing once |
| HookLaws.ShapeIsConstant | scripts/install_pc.py:246-271 | after an installation the managed shape is one constant, for every document |
| HookLaws.InstallIsIdempotent | scripts/install_pc.py:298-333 | installing again changes nothing |
| HookLaws.RemovalUndoesInstall | scripts/install_pc.py:126-170 | removing after installing is removing from the original |
| HookLaws.InstallThenRemove | scripts/install_pc.py:129-136 | the pair gives the document back exactly when it was tidy |
| HookLaws.EmptyTableIsLost | scripts/install_pc.py:168-170 | a document on which it does not: an empty hook table |
| HookLaws.InstallKeepsOthers | scripts/install_pc.py:173-191 | every unmanaged entry stays, in order and in its surroundings; other events and members are untouched |
| HookFacts.RemovalTakesExactly | scripts/install_pc.py:126-191 | what a document lists under an event after removal is what it listed before, less, under the four managed events, the command entries that run one of the commands |
| HookFacts.ReadableMeans | scripts/install_pc.py:173-191 | the walk raises exactly on a document that lists, under a managed event, a command entry whose command is a list or an object |
| HookFacts.InstallAppendsOne | scripts/install_pc.py:298-333 | each managed event ends with one object, given member by member, and nothing before it runs a command of the installer's, present or retired |
| Archive.Reviews | agent_harness/effectiveness.py:108-132 | the usable archived reviews, in order, then the live one |
| Archive.BestIsBest | agent_harness/effectiveness.py:286-299 | the record kept for a node is one of its copies, and no copy is preferred to it |
| Archive.CollectedMeans | agent_harness/effectiveness.py:157-167 | a review is kept exactly when some copy of its node carries it |
| Holdings.KeptIsForemost | agent_harness/effectiveness.py:286-299 | a record is kept for exactly the nodes some document holds; it is finished exactly when some copy is, and has the most attempts of the copies finished or unfinished like it |
| Holdings.HistogramCounts | agent_harness/effectiveness.py:175-178 | the histogram counts, for each number, the nodes whose foremost copies made that many attempts |
| Holdings.NodesCounted | agent_harness/effectiveness.py:172-174 | the total is the number of nodes some document holds; verified and superseded together are those some document holds finished |
| Holdings.StatusCounted | agent_harness/effectiveness.py:172-174 | verified, and superseded, lie between the nodes all of whose foremost copies have that status and those some foremost copy of which has it |
| Holdings.KeysTellReviews | agent_harness/effectiveness.py:267-283 | two reviews have one key exactly when result, reviewer, criteria and the evidence summaries are the same |
| Holdings.ReviewsCounted | agent_harness/effectiveness.py:181-196 | passed and failed count each review carried by any copy once per node, its result read in any case |
| Archive.ReportFromDocuments | agent_harness/effectiveness.py:144-238 | the loops count the folded records and reviews |
| Archive.OrderAndRepetitionDoNotMatter | agent_harness/effectiveness.py:144-238 | documents in any order and any number of copies give the same node total, histogram, finished count, passed and failed |
| Archive.MoreDocumentsNeverLower | agent_harness/effectiveness.py:155-166 | further documents never lower the total, the finished count, passed or failed |
| Archive.BestIsLead | agent_harness/effectiveness.py:168-170 | the record kept for a node is the first of its copies that no copy is preferred to |
| Archive.OrderFreeExactly | agent_harness/effectiveness.py:144-170 | the kept statuses are the same for every order and repetition of the documents if and only if no two documents lead with different statuses for one node |
| Archive.NoTieSameReport | agent_harness/effectiveness.py:144-238 | then the whole report is the same, the verified/superseded split included |
| Archive.SplitDependsOnOrder | agent_harness/effectiveness.py:286-299 | two finished copies at a tie: the order decides which is kept |

## Left out

- Strings: ids as ranks, criteria as numbers, texts as reduced form, spelling and length; Unicode case folding and stripping are not computed.
- Field-by-field shape checks (types, patterns, duplicate keys) are folded into one well-formedness predicate per record.
- The serialised length of a review record is an arbitrary function of the record; the JSON text is not computed.
- Node id patterns and the texts of criteria are types: an id and a criterion are well-formed by being one.
- Timestamps: a value of an ordered type where they are compared, otherwise absent. Policy texts of `grant_attempt` and `supersede` are plain texts.
- Evidence normalisation (agent_harness/graph.py:1204-1217) and the path checks of a review context are inputs: items, and a flag that says the paths are sound.
- `transition`, `review_packet`, `status_summary`, `ready_nodes` and `failure_records` read the graph or always refuse.
- Evaluation.CompareCase: loading a case, the counts of reruns and the rest of its report are not modelled.
- Journal.Render: counts characters, as a line is ASCII; values other than the repository are rendered texts, and their grammar is not modelled.
- Literals.QuotedReadsBack: a lone surrogate is no character of the model, so strings holding one are not among its inputs.
- Journal.NarrowedReadIsFilter: month files, unreadable months and pruning are left out; the journal is one sequence of lines, and a read sees one prefix of it.
- Sessions.Windows: what it keeps for display (client, timestamps, tree context) is left out; so are the verdicts taken from Codex's own database.
- Store: the retry loop with its timeout and jitter is the step that finds the file there; clocks are not modelled. Nobody else deletes the lock file. Replacing the graph file is atomic.
- Store.AloneItCommits: progress under contention is not claimed; the code promises none.
- GraphFile.GraphStore.Mutate: one flag stands for the size limit and every error of writing the temporary file; FIFOs, links and permissions are not modelled.
- Claim: the lock is held by name; that creating and unlinking the lock file excludes others is proved in `Store`. A torn line of a killed writer is not modelled.
- HookDocument: JSON numbers are integers; key order inside an object is not kept, as documents are written with sorted keys. Installing files, links, backups and the warning of `_replacements` are left out.
- Archive.ReportFromDocuments: first-attempt passes, escalations, failures despite test evidence and the most failed criteria are left out.
- Archive.OrderFreeExactly: speaks of the status kept for each node. Two orders that keep different statuses can still happen to give equal verified and superseded counts.
- `paths.py`, `worktree.py`, `cli.py`, `claude_hook.py`, `codex_sessions.py`, `sync_adapters.py` and `mutation_audit.py` are not part of this model.
