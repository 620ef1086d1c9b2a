# Agentic Lab: verified core

This project models the parts of Agentic Lab in which guarantees span several functions and proves those
guarantees for all inputs, runs and interleavings. Check it with `dafny verify dfyconfig.toml`.

The model has four cores.

1. **The unified-diff engine and the gate in front of it.** `Text` and `Utf8` define Python's `splitlines`,
   `strip`, `split` and UTF-8 coding (section 3 of RFC 3629). `UnifiedDiff` is the grammar, `DiffParser` the
   parser's loops, `DiffPrinter` a printer that is its inverse, `DiffSpelling` what a diff looks like that parses and
   `DiffFaults` which error any other has, both without the parser; `DiffApply` is the applier and its declarative
   meaning, `DiffReverse` the inverse patch. `PatchPolicy` is the second, independent scanner of the same diff and
   `HeaderCoverage` says which of the parser's headers it sees. `WorkspacePaths` is how the executor places a path,
   `Workspaces` its files and directories, `Delivery` the tree request and how it compares, and `PushProtocol` the
   compare-and-push flow as a step relation over a commit graph with other pushers; commits carry trees, and each
   attempt its own evidence.
2. **Runs, leases and attempts.** `RunStatuses` is the transition table, `RunStore` the tables with a `Session`
   whose methods are the service and lease functions, `Intake` the webhook deliveries, `Orchestrator` one worker
   attempt, and `Lifecycle` the whole service as a step relation over committed rows, a clock and in-flight
   attempts.
3. **Evidence locators.** `Snapshots` reads bounded windows and issues locators; `ToolResults` finds them in a dumped
   tool result; `Citations` indexes them, makes model citations canonical, filters them and resolves them again;
   `CitationChecks` says what these checks come to for arbitrary citations.
4. **Bounded loops.** `ToolRegistries` is the sequence allocator and evidence window under concurrent calls;
   `AgentLoop` is the turn, tool, cost and repair loop of the OpenRouter gateway over a registry object, and
   `LoopOutcomes` says how it ends and what it posts in terms of the replies and clock readings alone.

Code that changes state is a class or a method with loops, proved equal to a specification function; the
properties are lemmas about those functions, and those named `...Meaning`, `...Holds` or `...Faults` fix their values
without calling them. Exceptions are `Result` or `Option` values whose payload names the
raising branch. Hashes, `fnmatch`, lower-casing, secret patterns, schema validation, model replies, clock readings
and snapshot outcomes are parameters, so every statement holds for all of them.

## Where the code and what it promises differ

Each point but the last has a lemma at a failing input beside its exact condition.

- An empty old range is inserted one line earlier than in the unified format of the `diff` utility (IEEE Std
  1003.1-2017): `EmptyRangeExample`; the two agree as `EmptyRangePlacement` says.
- Reversing an edit restores the bytes unless the edit empties the file (it is written as one blank line) or adds a
  NUL character (the edited file is then refused as binary): `EmptiedFileExample`; `ReverseRestoresBytes`,
  `ReverseUndoesCreation` and `ReverseUndoesDeletion` are the equivalences.
- The policy scanner looks for headers after line feeds only, while the parser's lines end at every separator of
  `splitlines`; a header behind, say, a form feed is parsed and applied but never checked: `UnseenHeadersExample`.
  A header with a blank before or right after its side prefix is read differently by the two: `MisalignedExample`,
  `HeaderAgreement`. `HeaderScanned` is the exact condition for one header (`Visible`), `Covered` demands it of the
  headers the parser consumes, and on text whose breaks end in line feeds, CRLF included, `FeedTextIsVisible` leaves
  the alignment alone.
- A workspace application can stop half-way, because a file is removed twice or a new path is taken by a directory or
  lies below a file: `RemovedTwiceExample`, `OntoDirectoryExample`. `WorkspaceStops` is the exact condition on the
  starting files and directories and the parsed sections; the method's contract gives what is left on disk.
- The workspace drops empty and `.` path parts, the tree request does not: `UncanonicalExample`. The two deliveries
  agree if and only if every path of the diff is canonical: `DeliveriesAgree`.
- A read that starts past the end of a file reports a range that cannot be read again: `ReadPastEndExample`;
  `RereadIsStable`.
- `process_claimed_run` lets an exception escape exactly for a run that is received, queued or ready to push, which
  no claimed run is: `AttemptEndsLegally`.

## Assumptions of the service model

- Updates of one run row are serialized: a cancellation or supersession does not commit while an attempt that can
  still commit is in flight on that run (the code takes no row lock there). `RowReadIsRowWritten` shows that then the
  row an attempt read is the one it overwrites.
- Reading the lease, deleting it and committing is one step; so is each webhook delivery.
- Workers have distinct ids and run one attempt each. A worker may vanish at any point, lose any heartbeat, and come
  back. Claims may take any queued run and any expired lease, because locked rows are skipped.
- The pushed branch accepts fast-forward updates only. All attempts of a run share its pinned SHA and nothing else.
- Git trees and the executor's workspace hold canonical paths, the contents request finds a file under its exact name,
  and the entries of a tree request take effect in order. The workspace has no symbolic links, and nothing but the
  cases modelled (a missing file, a directory in the way, a file above) makes one of its operations fail.

## Model

| member | source | states |
|---|---|---|
| Text.JoinSplit | src/agentic_lab/gateway/patch_apply.py:113-142 | joining the split lines of a newline-terminated, line-feed text gives the text back |
| Text.DecimalPlaces | src/agentic_lab/gateway/patch_apply.py:58-59 | a number is read with each digit worth ten times as much for every digit behind it |
| Utf8.DecodeInvertsEncode | src/agentic_lab/gateway/patch_apply.py:106-112 | strict decoding accepts exactly the encodings of strings, and gives the string back |
| Utf8.Truncate | src/agentic_lab/tools/snapshot.py:208-212 | the cut text is the longest prefix that fits in the byte limit, whichever character the cut falls into |
| Utf8.TruncateBetween | src/agentic_lab/tools/snapshot.py:208-212 | cutting any text between the cut text and the whole text gives the same cut text |
| DiffParser.ParseTextDiff | src/agentic_lab/gateway/patch_apply.py:32-95 | the nested parsing loops compute the grammar's parse, with the same error for every malformed diff |
| DiffParser.ParseFileHunks | src/agentic_lab/gateway/patch_apply.py:50-88 | the hunk loop of one file reads exactly the grammar's hunks and stops at the line after them |
| DiffParser.ParseHunkBody | src/agentic_lab/gateway/patch_apply.py:63-87 | the body loop takes lines until both counts are used up, or fails as the grammar does |
| DiffPrinter.ParsedIsWellFormed | src/agentic_lab/gateway/patch_apply.py:32-95 | every accepted diff parses to printable paths and hunks whose counts are their bodies' tallies |
| DiffPrinter.ParsePrint | src/agentic_lab/gateway/patch_apply.py:32-95 | parsing a printed list of patches returns the list if and only if it is well formed, whatever its body lines look like |
| DiffPrinter.PrintNormalizes | src/agentic_lab/gateway/patch_apply.py:32-95 | an accepted diff and its reprint parse to the same patches |
| DiffSpelling.SplitMeaning | src/agentic_lab/gateway/patch_apply.py:33 | splitting a text gives exactly the lines it spells, CR LF being one break |
| DiffSpelling.HunkHeaderMeaning | src/agentic_lab/gateway/patch_apply.py:6 | the pattern reads a hunk header exactly as it is spelled: two ranges, each with a count or for one line, and any tail |
| DiffSpelling.OmittedCounts | src/agentic_lab/gateway/patch_apply.py:58-59 | a count left out on either side is one, whatever the numbers and the tail |
| DiffSpelling.PathMeaning | src/agentic_lab/gateway/patch_apply.py:150-158 | a header's path is exactly the safe name between its blanks and the first tab, without one side prefix |
| DiffSpelling.ParseMeaning | src/agentic_lab/gateway/patch_apply.py:32-95 | a diff parses to a list of patches if and only if its lines spell the list, with markers inside bodies and other lines between hunks and files |
| DiffFaults.ParseFaults | src/agentic_lab/gateway/patch_apply.py:32-95 | a diff is refused with an error if and only if that is its first fault, or it names no file |
| DiffApply.ApplyTextDiff | src/agentic_lab/gateway/patch_apply.py:98-147 | the loop over files yields every file's old and new path and new bytes, or the first error |
| DiffApply.ApplyHunksInOrder | src/agentic_lab/gateway/patch_apply.py:114-138 | the cursor loop over hunks computes the specified lines or error |
| DiffApply.ApplyHunkBody | src/agentic_lab/gateway/patch_apply.py:122-137 | one hunk body keeps, drops and adds lines as its markers say and moves the cursor past its old side |
| DiffApply.ApplyMeaning | src/agentic_lab/gateway/patch_apply.py:115-138 | application succeeds if and only if the file decomposes into gaps and old sides at the positions the starts fix, and then has the new sides in the same gaps |
| DiffApply.ApplyLineCount | src/agentic_lab/gateway/patch_apply.py:115-138 | the line count changes by the sum of new minus old counts |
| DiffApply.AppliedContents | src/agentic_lab/gateway/patch_apply.py:98-147 | every applied file has the bytes of its base text with the old sides replaced by the new ones in the same gaps, newline-terminated if new or its base was |
| DiffFaults.ApplyFaults | src/agentic_lab/gateway/patch_apply.py:98-147 | application fails with an error if and only if the parse does, or that is the fault of the first file whose base or hunks do not fit |
| DiffApply.SecondCountCheckIsDead | src/agentic_lab/gateway/patch_apply.py:136-137 | the applier's own count check never fires on a parsed diff |
| DiffReverse.ReverseDecomposes | src/agentic_lab/gateway/patch_apply.py:115-138 | the reversed hunks fit the edited file in the same gaps if and only if each new start is the old one moved by the growth before it |
| DiffReverse.ReverseUndoesLines | src/agentic_lab/gateway/patch_apply.py:98-147 | a positioned patch followed by its reverse gives back the original lines |
| DiffReverse.ReverseRestoresBytes | src/agentic_lab/gateway/patch_apply.py:98-147 | on a newline-terminated line-feed file the reverse of an edit or rename restores path and bytes if and only if the edit leaves a line and adds none with a NUL character |
| DiffReverse.ReverseUndoesCreation | src/agentic_lab/gateway/patch_apply.py:98-147 | the reverse of a creation deletes the file again if and only if no added line has a NUL character |
| DiffReverse.ReverseUndoesDeletion | src/agentic_lab/gateway/patch_apply.py:98-147 | the reverse of a deletion restores the bytes if and only if the hunks remove every line, or do nothing to a file of one blank line |
| DiffReverse.EmptiedFileExample | src/agentic_lab/gateway/patch_apply.py:139-146 | deleting a file's only line and putting it back leaves a blank line behind it |
| DiffReverse.EmptyRangePlacement | src/agentic_lab/gateway/patch_apply.py:119 | an empty old range is placed as the standard says if and only if it starts at zero or repeats the line it names |
| DiffReverse.EmptyRangeExample | src/agentic_lab/gateway/patch_apply.py:119 | a hunk whose lines land before the line the standard puts them after |
| PatchPolicy.ChangedPaths | src/agentic_lab/policy/patch.py:104-110 | the scanner's loop collects exactly the paths of the header lines |
| PatchPolicy.ValidateUnifiedDiff | src/agentic_lab/policy/patch.py:58-101 | the four checks on the whole diff refuse in order, with their reasons; then ALLOW if and only if every path passes, and a refusal names the reason of some path |
| PatchPolicy.PassedMeaning | src/agentic_lab/policy/patch.py:74-100 | a path passes if and only if it is plain source, matches an allowed pattern and no protected one |
| PatchPolicy.AllowMeaning | src/agentic_lab/policy/patch.py:58-101 | ALLOW means a textual diff within the size limit that names one to the permitted number of files, all allowed source |
| PatchPolicy.HeaderAgreement | src/agentic_lab/policy/patch.py:39 | on a header line the scanner records the parser's path if and only if no blank hides or follows the side prefix |
| HeaderCoverage.LineStands | src/agentic_lab/gateway/patch_apply.py:33 | every line the parser sees stands in the text between line breaks or its ends |
| HeaderCoverage.ScanAtIsScanned | src/agentic_lab/policy/patch.py:104-110 | what the anchored pattern matches anywhere in the text is a changed path |
| HeaderCoverage.HeaderScanned | src/agentic_lab/policy/patch.py:39 | the scanner records a header's path where it stands if and only if the header starts the text or follows a line feed, is aligned, and has only blanks before the next tab, line feed or end |
| HeaderCoverage.FeedTextIsVisible | src/agentic_lab/policy/patch.py:39 | if all breaks end in line feeds, a header is visible if and only if it is aligned |
| HeaderCoverage.ParsedPathsHaveHeaders | src/agentic_lab/gateway/patch_apply.py:36-94 | every path of the parse comes from a header the parser consumed, not from a body line |
| HeaderCoverage.ScannerCoversParser | src/agentic_lab/policy/patch.py:104-110 | if the consumed headers are visible, every old or new path the parser yields is a changed path |
| HeaderCoverage.AllowCoversApplier | src/agentic_lab/policy/patch.py:58-101 | after ALLOW on such a diff every path the applier touches matches an allowed pattern and no protected one |
| HeaderCoverage.UnseenHeadersExample | src/agentic_lab/policy/patch.py:39 | two sections, the second behind form feeds: both are parsed, only the first is scanned |
| HeaderCoverage.MisalignedExample | src/agentic_lab/policy/patch.py:39 | a header whose path the parser reads with a leading blank and the scanner without |
| WorkspacePaths.PlacesAreCanonical | src/agentic_lab/executor/adapter.py:128-136 | a path is placed under its own name if and only if it has no empty or `.` part, and every place has such a name |
| Workspaces.Workspace.ApplyWorkspaceDiff | src/agentic_lab/executor/adapter.py:139-162 | files, directories and exception are those of the specified run, also when it stops half-way |
| Workspaces.Workspace.WriteItem | src/agentic_lab/executor/adapter.py:152-162 | one round removes, makes directories and writes, and ends in the exception of the first operation that fails |
| Workspaces.WorkspaceHolds | src/agentic_lab/executor/adapter.py:139-162 | after a run that does not stop, a place holds the applied content of the last section that writes or removes it, nothing if that only removes it, and what it held if none does |
| Workspaces.StoppedHolds | src/agentic_lab/executor/adapter.py:151-162 | a run that stops does so at the first section whose old file is gone or new path misplaced, with that exception, after its own removal and all earlier sections |
| Workspaces.OriginalsMeaning | src/agentic_lab/executor/adapter.py:145-150 | the base files are the old files of all sections, or the first missing one decides the error |
| Workspaces.DiskStaysValid | src/agentic_lab/executor/adapter.py:151-162 | nothing is ever both a file and a directory, every file lies in directories, and no directory is removed, stopped or not |
| Workspaces.WorkspaceStops | src/agentic_lab/executor/adapter.py:151-162 | a diff that applies stops half-way if and only if a file is removed twice without being written in between, or a new path is the root, a directory then, or below a file then |
| Delivery.RequestDespiteStop | src/agentic_lab/gateway/github.py:81-129 | for canonical paths the tree request is the applied items' entries, whether the workspace stops or not |
| Delivery.RemovedTwiceExample | src/agentic_lab/executor/adapter.py:151-162 | a moved file that a later section deletes: the workspace keeps the move and fails, the writer asks for all three entries |
| Delivery.OntoDirectoryExample | src/agentic_lab/executor/adapter.py:151-162 | renaming a/b to a: the file is removed and the write fails on the directory that stays, the writer asks for both entries |
| Workspaces.ReadOriginals | src/agentic_lab/gateway/github.py:81-88 | the base files are exactly the patches' old files, or the first missing one is reported |
| Delivery.BuildEntries | src/agentic_lab/gateway/github.py:81-129 | the loop builds the specified tree entries in order |
| Delivery.EntriesRequested | src/agentic_lab/gateway/github.py:97-129 | an entry is requested if and only if a section has that applied content at its new path, or leaves that path |
| Delivery.PushedHolds | src/agentic_lab/gateway/github.py:97-137 | the pushed tree holds at a path the applied content of the last section that writes or removes it, nothing if that removes it, and what it held if none does |
| Delivery.ValidatedIsPushed | src/agentic_lab/gateway/github.py:81-129 | if the workspace accepts a diff with canonical paths, the writer's entries folded over a tree with the same old files agree with the workspace on every touched path |
| Delivery.DeliveriesAgree | src/agentic_lab/executor/adapter.py:139-162 | from the same tree both deliveries end in the same path-to-content map if and only if every path of the diff is canonical |
| Delivery.UncanonicalExample | src/agentic_lab/executor/adapter.py:128-136 | a new file with an empty path part is written under different names by the two deliveries |
| Delivery.AllowCoversEntries | src/agentic_lab/gateway/github.py:97-129 | after ALLOW on a covered diff every tree entry is for an allowed, unprotected path |
| Delivery.ChangedFilesAreAllowed | src/agentic_lab/gateway/github.py:97-137 | after ALLOW on a covered diff every file the pushed tree changes is allowed source |
| Delivery.WorkspaceChangesAreAllowed | src/agentic_lab/executor/adapter.py:151-162 | with canonical paths the same holds of every file the workspace application changes, finished or not |
| PushProtocol.StepKeeps | src/agentic_lab/runs/ci_push.py:38-111 | every step of attempts with their own evidence, other pushers and failing requests keeps the protocol invariant |
| PushProtocol.GateMeaning | src/agentic_lab/policy/push_gate.py:28-56 | the gate allows if and only if every demand is met, and calls stale exactly a moved head or patch base behind a valid opt-in |
| PushProtocol.PushSafety | src/agentic_lab/gateway/github.py:59-159 | over all interleavings at most one commit of the run is written, directly on the pinned SHA as sole parent, dropping no one's commit; its writer was allowed twice on its own evidence, with a pull-request branch and matching artifact paths, and its tree is what that diff makes of the pinned tree |
| PushProtocol.PushedTree | src/agentic_lab/gateway/github.py:81-146 | a written commit has the tree the executor workspace made with the same diff, and changes allowed source files only |
| PushProtocol.ReturnMatchesStatus | src/agentic_lab/runs/ci_push.py:80-111 | an attempt returns a commit exactly when the run succeeded, after two ALLOW verdicts on its own evidence, and otherwise returns with the run refused, or superseded if head or patch base moved, by allowed transitions |
| RunStatuses.TransitionsDescend | src/agentic_lab/domain/enums.py:51-88 | every allowed transition leaves a non-terminal status and lowers its rank |
| RunStatuses.EdgesByTarget | src/agentic_lab/domain/enums.py:51-88 | from which statuses each status can be reached |
| RunStatuses.TerminalIsFinal | src/agentic_lab/domain/enums.py:39-88 | the terminal statuses are exactly those without a transition |
| RunStatuses.PathsAreShort | src/agentic_lab/domain/enums.py:51-88 | a path through the table is no longer than the rank it descends |
| RunStore.Session.TransitionRun | src/agentic_lab/runs/service.py:83-97 | an allowed transition updates status, end time and log; any other raises and changes nothing |
| RunStore.Session.CreateQueuedRun | src/agentic_lab/runs/service.py:22-39 | the new run is queued and its log starts at received |
| RunStore.Session.LinkRuns | src/agentic_lab/runs/service.py:42-47 | a link is appended unless it would join a run to itself |
| RunStore.Session.SupersedeActiveRuns | src/agentic_lab/runs/service.py:50-80 | exactly the supersedable runs of the pull request are superseded and returned, in order |
| RunStore.Session.ClaimNextRun | src/agentic_lab/runs/leases.py:14-43 | the oldest queued run is leased; without one, the first expired lease is taken over if its run is leased; else nothing happens |
| RunStore.Session.HeartbeatLease | src/agentic_lab/runs/leases.py:46-58 | the lease is renewed if and only if the worker holds it and it has not expired |
| RunStore.Session.ReleaseLease | src/agentic_lab/runs/leases.py:61-66 | the lease is deleted if and only if the worker holds it |
| RunStore.SupersededExactly | src/agentic_lab/runs/service.py:50-80 | exactly the runs of the pull request for another SHA that have neither ended nor begun to push are ended, and returned |
| RunStore.SupersessionLogged | src/agentic_lab/runs/service.py:50-80 | each of them gets one record, in order |
| RunStore.RenewOrTakeOver | src/agentic_lab/runs/leases.py:25-57 | at any time a lease can be renewed by its holder or be taken over, never both |
| RunStore.TransitionAudited | src/agentic_lab/runs/service.py:83-97 | a transition keeps every run's log a path from received to its status, with the end time set exactly when ended |
| RunStore.CreationAudited | src/agentic_lab/runs/service.py:22-39 | so does creating a run |
| RunStore.SupersessionAudited | src/agentic_lab/runs/service.py:50-80 | so does superseding |
| RunStore.AtMostNineRecords | src/agentic_lab/domain/enums.py:51-88 | a run has at most nine records, fewer by the rank it still has |
| Intake.ProcessGithubDelivery | src/agentic_lab/api/app.py:363-416 | a delivery writes one event, and the run it queues or the reason it does not |
| Intake.ProcessedMeaning | src/agentic_lab/api/app.py:363-543 | a new delivery is recorded with the reason of the first check it fails and changes nothing else; if it fails none, one run is queued with what the payload says |
| Intake.QueuePullRequestRun | src/agentic_lab/api/app.py:442-477 | a pull-request event is rejected for the first failed check, or supersedes, creates, locates and links |
| Intake.QueueCheckRunRun | src/agentic_lab/api/app.py:480-543 | a check-run event is rejected for the first failed check, or creates a CI run linked from the latest assessment |
| Intake.CheckRunLinks | src/agentic_lab/api/app.py:533-543 | a CI run is linked from the latest assessment of its head, if there is one |
| Intake.EventsUntouched | src/agentic_lab/api/app.py:428-543 | queueing writes no event and no lease |
| Intake.IntakeIsIdempotent | src/agentic_lab/api/app.py:383-389 | a processed delivery is seen, and any delivery with its id then changes nothing |
| Intake.SupersessionIsComplete | src/agentic_lab/api/app.py:465-477 | after a human pull-request event no other-SHA run of it that has neither ended nor begun to push is left, each superseded one links to the new run, and the rest is unchanged |
| Orchestrator.Orchestrate | src/agentic_lab/runs/orchestrator.py:37-281 | the three role functions take exactly the planned transitions for every outcome, and raise exactly when planned |
| Orchestrator.RunAndStore | src/agentic_lab/runs/orchestrator.py:216-281 | from the budget on: terminal errors, evaluation, refusals and success in the order of the code |
| Orchestrator.DispatchRun | src/agentic_lab/runs/worker.py:37-70 | the configured role function is run; an unconfigured one fails the run |
| Orchestrator.ProcessClaimedRun | src/agentic_lab/runs/worker.py:122-160 | one transaction with catch-all, heartbeat exit and release, committed as a whole or rolled back |
| Orchestrator.LegalMovesSucceed | src/agentic_lab/runs/service.py:83-97 | legal transitions never raise and change only the run's status, end time and log, in order |
| Orchestrator.AttemptIsLegal | src/agentic_lab/runs/worker.py:135-153 | every outcome takes allowed transitions only; the catch-all raises exactly for received, queued and ready-to-push runs |
| Orchestrator.AttemptEndsLegally | src/agentic_lab/runs/worker.py:129-160 | an attempt returns true exactly when it holds the lease and lost no heartbeat; then the run has ended, its lease is gone and nothing else changed; otherwise there is no effect |
| Orchestrator.AttemptStatus | src/agentic_lab/runs/orchestrator.py:37-281 | which outcomes lead to success, exhausted budget and refusal, each as an equivalence; all others fail |
| Orchestrator.SuccessIsLogged | src/agentic_lab/runs/orchestrator.py:37-281 | a successful attempt is logged as four transitions with its role's reason codes |
| Orchestrator.EndIsLogged | src/agentic_lab/runs/orchestrator.py:37-281 | every attempt's log ends with the transition and reason of the first thing that goes wrong, or success |
| Lifecycle.StepOk | src/agentic_lab/runs/worker.py:122-160 | every step of intake, claims, heartbeats, attempts, cancellation and time keeps the invariant, and undoes no ended run, link or event |
| Lifecycle.CommittedState | src/agentic_lab/runs/leases.py:14-43 | in every reachable state runs are queued without lease, leased with one, or ended; no run committed two attempts; logs are short paths |
| Lifecycle.ClaimOk | src/agentic_lab/runs/leases.py:22-25 | a claim of a queued run never meets an existing lease row |
| Lifecycle.FinishCommitsIff | src/agentic_lab/runs/worker.py:122-160 | an attempt ends its run and is recorded as committed exactly when it lost no heartbeat and holds the lease; otherwise nothing changes |
| Lifecycle.NotHoldingIsFenced | src/agentic_lab/runs/leases.py:32-43 | an attempt does not hold its lease exactly when its lease generation is over |
| Lifecycle.FencedHasNoEffect | src/agentic_lab/runs/heartbeat.py:47-80 | no heartbeat, exit or finish of a fenced attempt changes the database |
| Lifecycle.FencedNeverCommits | src/agentic_lab/runs/worker.py:155-160 | over any run of the service a fenced attempt stays fenced and never commits |
| Lifecycle.ReclaimFences | src/agentic_lab/runs/leases.py:32-43 | a reclaim fences the attempt it takes over from, for good |
| Lifecycle.InFlightRowIsStable | src/agentic_lab/runs/worker.py:129-157 | no step of others changes the row of a run while an attempt on it can still commit |
| Lifecycle.RowReadIsRowWritten | src/agentic_lab/runs/worker.py:129-157 | the row read when an attempt began is the row its commit replaces |
| Lifecycle.EndedRunsStay | src/agentic_lab/runs/leases.py:35-37 | an ended run never changes again: nothing revives it |
| Lifecycle.CiRunsAreUnique | src/agentic_lab/api/app.py:508-518 | in every reachable state a pull request's head has at most one CI run that is neither superseded nor cancelled |
| Lifecycle.DeliveriesAreUnique | src/agentic_lab/api/app.py:379-411 | in every reachable state a delivery id has at most one event and one run |
| Lifecycle.RedeliveryHasNoEffect | src/agentic_lab/api/app.py:383-389 | a delivery repeated after any further steps changes nothing |
| Lifecycle.LinksAreAcyclic | src/agentic_lab/runs/service.py:42-47 | every path of causal links ends at a later run than it starts, so there is no cycle |
| Snapshots.CutIsStable | src/agentic_lab/tools/snapshot.py:97-104 | reading only the lines the cut text reaches into gives the same cut text |
| Snapshots.ReadAnswered | src/agentic_lab/tools/snapshot.py:91-99 | a read is answered if and only if path and window are in order and the file exists, and refused in that order |
| Snapshots.ReadMeaning | src/agentic_lab/tools/snapshot.py:100-110 | a read returns the longest prefix within 32,000 bytes of the numbered lines, is truncated exactly if it leaves out lines or text, and carries the hash of its text |
| Snapshots.ReportedRange | src/agentic_lab/tools/snapshot.py:104 | the reported range ends at the first line by which the text is complete |
| Snapshots.ReadsJoin | src/agentic_lab/tools/snapshot.py:91-110 | two adjoining reads without a cut hold what one read of both ranges returns, up to its cut |
| Snapshots.RereadIsStable | src/agentic_lab/tools/snapshot.py:91-110 | reading the reported range again gives the identical text and locator if and only if the window starts inside the file |
| Snapshots.ReadPastEndExample | src/agentic_lab/tools/snapshot.py:91-110 | a read past the end reports a range that cannot be read again |
| Snapshots.SearchFile | src/agentic_lab/tools/snapshot.py:129-141 | the inner search loop appends the file's matches up to the limit |
| Snapshots.SearchText | src/agentic_lab/tools/snapshot.py:112-142 | a bad query, limit, prefix or pattern is refused; otherwise the first matches in file and line order are returned, each with its locator, up to the limit |
| Snapshots.SearchReturns | src/agentic_lab/tools/snapshot.py:126-142 | the matches returned are the first matching lines in file and line order, each with its own text and hash; a matching line is missing only behind a full list |
| Citations.ParseFormatted | src/agentic_lab/evaluation/evaluators.py:33-58 | an issued locator parses back to its path and lines exactly for a non-empty path on one line |
| Citations.CitationResolution | src/agentic_lab/evaluation/evaluators.py:33-58 | the evaluator lists exactly the citations that do not resolve and passes if there are none |
| CitationChecks.LocatorMeaning | src/agentic_lab/evaluation/evaluators.py:33-44 | the pattern reads exactly the locators of the form path#Lstart-Lend |
| CitationChecks.ResolvesMeaning | src/agentic_lab/evaluation/evaluators.py:33-58 | an arbitrary citation resolves if and only if its lines hold text of the snapshot with its hash, or it names no lines and need not |
| ToolResults.Visit | src/agentic_lab/tools/registry.py:226-239 | the walk appends every locator of the value, an object's own before those of its fields |
| ToolResults.FoundMeaning | src/agentic_lab/tools/registry.py:223-244 | a locator is found if and only if an object with its three fields is anywhere in the value |
| ToolResults.ReadIsFound | src/agentic_lab/tools/registry.py:223-244 | in a dumped read the walk finds its locator and nothing else |
| ToolResults.SearchIsFound | src/agentic_lab/tools/registry.py:223-244 | in a dumped search it finds the locator of every match, in order, and nothing else |
| ToolResults.OutputIsFound | src/agentic_lab/tools/registry.py:223-244 | in any dumped read, text search or structure search the walk finds exactly its locators, in order |
| Citations.CitationIndex.RememberCitationLocators | src/agentic_lab/tools/registry.py:223-244 | every locator found in the result is added to the candidates of its SHA and hash |
| Citations.RememberedIsIssued | src/agentic_lab/tools/registry.py:223-244 | a locator is a candidate if and only if it was issued for that SHA and hash |
| Citations.CitationIndex.Canonical | src/agentic_lab/tools/registry.py:129-144 | the claimed locator, else the only candidate on its path, else the only candidate, else nothing |
| Citations.CanonicalIsIssued | src/agentic_lab/tools/registry.py:129-144 | whatever is returned was issued for that SHA and hash, and an issued claim is returned as it is |
| CitationChecks.CanonicalMeaning | src/agentic_lab/tools/registry.py:129-144 | a locator is made canonical as the issued one it is, else the only one issued on its path, else the only one issued |
| Citations.VerifyScoutCitations | src/agentic_lab/agents/scout.py:77-98 | coverage, and with tools the filter, coverage and resolution, with the first error that applies |
| CitationChecks.VerdictMeaning | src/agentic_lab/agents/scout.py:77-98 | for arbitrary citations, each of the three errors under its exact condition, and else exactly the citations that stand for an issued locator, in order |
| CitationChecks.AcceptedIsSupported | src/agentic_lab/agents/scout.py:77-98 | in an accepted artifact every material claim has a citation with an issued locator whose text supports it |
| CitationChecks.VerdictWithoutTools | src/agentic_lab/agents/scout.py:77-80 | without tools only the claims' coverage is checked |
| Citations.HonestCitationSurvives | src/agentic_lab/agents/scout.py:81-97 | a copied citation is kept unchanged, and resolves if and only if its path is a non-empty line, its excerpt is not empty and a hit spans at most 200 lines |
| Citations.CopiedCitationsKept | src/agentic_lab/agents/scout.py:89-97 | copied citations pass the filter unchanged and in order |
| Citations.CopiedArtifactPasses | src/agentic_lab/agents/scout.py:77-98 | after any sequence of tool calls, an artifact copied from their outputs passes unchanged if and only if every citation can be read again, else it is unresolved |
| Citations.IndexAfterAll | src/agentic_lab/tools/registry.py:223-244 | the index after any sequence of outputs holds the locators of all of them |
| Citations.SearchMatchesAreHits | src/agentic_lab/tools/snapshot.py:126-142 | every match a text search returns carries the locator of its line, as a hit issues it |
| Citations.KeptCitationsWereIssued | src/agentic_lab/agents/scout.py:89-97 | every kept citation has a locator that was issued for its SHA and hash |
| ToolRegistries.SnapshotToolRegistry.ConfigureEvidenceWindow | src/agentic_lab/tools/registry.py:113-120 | both limits are set, or the error says why not and nothing changes |
| ToolRegistries.SnapshotToolRegistry.Execute | src/agentic_lab/tools/registry.py:146-190 | a call draws the next number, reaches the tools only inside the window, is recorded with its status and returns its payload; past the budget it changes nothing |
| ToolRegistries.StepKeeps | src/agentic_lab/tools/registry.py:146-190 | every interleaving of the two locked sections keeps the numbering, window and record invariants |
| ToolRegistries.SequencesAndWindow | src/agentic_lab/tools/registry.py:146-190 | numbers are unique and within the budget, and exactly the calls inside both limits are let through |
| ToolRegistries.RecordsFill | src/agentic_lab/tools/registry.py:176-190 | once all calls finish the records number exactly 1 to n, each once |
| ToolRegistries.WindowIsFinal | src/agentic_lab/tools/registry.py:113-120 | the limits never change after the first call |
| ToolRegistries.ScoutWindowAccepted | src/agentic_lab/agents/scout.py:27-33 | an unused registry accepts the window the scout computes from any budget that is not negative |
| AgentLoop.OpenRouterModelGateway.RunAgentLoop | src/agentic_lab/gateway/model.py:130-234 | outcome, requests, tool calls, recorded cost and registry are those of the specified loop, with the errors in the code's order |
| AgentLoop.OpenRouterModelGateway.TakeTurn | src/agentic_lab/gateway/model.py:156-233 | one turn: clock, request, reply checks, tool calls, answer or repair |
| AgentLoop.OpenRouterModelGateway.AnswerToolCalls | src/agentic_lab/gateway/model.py:206-218 | the calls of one reply are counted, executed and answered in order |
| AgentLoop.TurnKeeps | src/agentic_lab/gateway/model.py:156-233 | a turn that goes on keeps the loop invariant, and one that ends meets the bounds |
| AgentLoop.LoopBounds | src/agentic_lab/gateway/model.py:148-234 | for every reply sequence: requests and executed calls within budget; on every exit the recorded cost is the sum of the replies read; an answer is schema-valid and within the cost budget; a registry with room never runs out |
| LoopOutcomes.OutcomeMeaning | src/agentic_lab/gateway/model.py:148-234 | an outcome is the loop's if and only if it is what the first turn gives that does not go on, by its clock, reply, provider, cost, message, calls or content, or all turns go on |
| LoopOutcomes.RefusedAtOnce | src/agentic_lab/gateway/model.py:130-147 | the three refusals before the first turn under their exact conditions, with nothing posted |
| LoopOutcomes.ReturnedFromProviders | src/agentic_lab/gateway/model.py:191-196 | when an answer is returned, every reply came from a provider asked for, an unnamed one, or none was asked for |
| LoopOutcomes.PostsMeaning | src/agentic_lab/gateway/model.py:156-178 | every request posted has the messages, timeout and settings its turn calls for, and there is one for every turn that begins in time |
| LoopOutcomes.CallOnRecord | src/agentic_lab/gateway/model.py:181-190 | on every exit the provider of the last reply read and the cost of all replies read are on record |
| AgentLoop.PostedTranscripts | src/agentic_lab/gateway/model.py:148-234 | every posted transcript answers each tool-call message by its results in order, holds at most one repair, has the length 2 + tool turns + tool calls + 2 repairs, extends the one before, and comes with the same provider settings |

## Left out

- HTTP, tokens, Docker, archives, database sessions, API routes, HTML pages and tracing: the database is maps and logs, the branch a head and an ancestor relation.
- `PydanticAIModelGateway`, the gateway production wires in: its loop is in a library.
- `refuse_ci_failure`, evaluation scripts, fixtures, scorecards, settings and migrations: they add only easy members.
- Liveness of reclaim: the expired lease of a cancelled run can stand first in line and make `claim_next_run` return nothing, so no abandoned run is promised a retry.
- Overlapping webhook transactions (the unique-key error path) and a supersession or cancellation racing an attempt on the same row; see the assumptions above.
- Ordering by creation and record timestamps: runs and records are in insertion order.
- Which path of several refused ones the policy names: the source checks them sorted, the model in any order.
- Budgets, manifests' contents, task texts, model configuration, policy-decision rows and artifacts of a run.
- The identity check of the scout's artifact, which is three equalities.
- Symbolic links, permissions and name limits of the workspace's file system.
- Reversing a patch on a file without a final newline: the code ignores the "no newline" marker, so no byte statement is made.
- How `search_structure` finds its definitions: its matches and their line ranges are inputs.
- Lone surrogates, non-ASCII digits in hunk headers and locators, and the limits of floating-point cost: strings are Unicode scalar values, digits ASCII, costs real numbers.
- Webhook payloads whose `action` is no hashable value, and deliveries rejected before the JSON is read other than by signature.
- Workspaces.Workspace.ApplyWorkspaceDiff: the refusal of symbolic links is not modelled, because the workspace has none.
- ToolRegistries.SnapshotToolRegistry.Execute: argument validation, dispatch and redaction are inside the parameter `perform`, and a record has no request and summary.
- AgentLoop.OpenRouterModelGateway.RunAgentLoop: the constant parts of the request payload, its metadata and the tool definitions are not modelled.
