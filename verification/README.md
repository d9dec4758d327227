# Verified models of the worktree pool, the merge gate and the LSP shims

Dafny models of the parts of this workspace that carry an algorithm or a protocol, with proofs of what they are for.

- **Worktree pool.** `PoolProtocol` is a step system: any number of acquires and of releases advance one shared read,
  lock or git command at a time, interleaved with crashes, edits, commits and moves of main. `PoolInvariant`,
  `PoolSafety`, `PoolWork` and `PoolAllocation` prove what every execution keeps, which commits are lost and how many
  acquires succeed; `PoolTraces` reads off a whole execution what a single acquire or release did, above all that an
  acquired slot stands at the base its run resolved. `PoolAcquire` is the acquire loop itself, proved to do what the step system does for a run on its own, and
  `PoolRelease` the release of one slot.
- **Leases.** `Calendar` has both date computations in both directions, `Timestamp` the parser and the two printers,
  `Glob` the two-level matcher against a declarative language.
- **Cumulative document.** `TableRows` is the canonicalising row merge and its algebra, `ConflictMerge` the marker
  parser and the resolver.
- **Restart supervisor.** `Supervisor` is the policy with a ghost log of all exits, `SupervisorRuns` its behaviour over
  whole runs, `Queue` the admission queue, `RequestLoop` and `RequestRuns` the tool-call loop composed with both, `RequestReplies` which reply each call gets.
- **Wire framing.** `Framing`: sending, receiving, cut streams and the two header readers.
- **Command rendering.** `ShellQuote`: the rendered line against a reading by a POSIX shell.
- **Path check.** `LexicalPath`: lexical resolution against walks through a tree, and the diff validator.
- **Index feeding.** `IndexFeed`: deduplication and the batched open/close feeding.
- **Merge gate.** `MergeGate` has the gates, `MergeToMain` the orchestration and what whole histories of merges can
  bring into main.

`CommitGraph`, `Text`, `Decimal`, `Sets` and `Wrappers` hold what several of these share. `dafny verify dfyconfig.toml`
checks everything. Operating system, clock, git and JSON come in as parameters under stated contracts.

Where code and documentation disagree the model follows the code. The cases that matter:

- Slots are locked with `flock` on a marker file that stays (wtpool/src/pool.rs:311-339), not by exclusive creation.
- The comment that a dispatch can only find Failed after window expiry (lsp-cpp/src/mcp.rs:616-618) is false: the
  probe of the same call may have set it, and `RequestRuns.FailedIsOverwrittenExactly` says when success takes it back.
  So there are sessions without any restart cap (`RequestRuns.LoopHasNoRestartCap`). A session meets the cap exactly as
  `RequestRuns.SessionMeetsCapExactly` says, and a run of the policy as `SupervisorRuns.RestartCapExactly` says; never
  recording in Failed is sufficient (`RequestRuns.SessionRespectsFailedExactly`, `RequestRuns.SessionRestartCap`).
- `should_retry` is documented as not changing state (lsp-cpp/src/supervisor.rs:469-471); what it changes, and exactly
  when, is `SupervisorRuns.AskChangesExactly`.
- A merge that fails for another reason than a hook is meant to be told apart (wtpool/src/merge.rs:577-590); it never
  is: `MergeToMain.FailedMergeIsAlwaysHookBlocked`.
- The verification that the tip of main differs after a merge (wtpool/src/merge.rs:24-26) is not in the code; a merge
  of a branch with nothing new is reported as merged (`MergeToMain.EmptiedBranchIsReportedMerged`), and so is one of a
  detached worktree by the name HEAD (`MergeToMain.DetachedHeadIsReportedMerged`). `MergeToMain.MergedMeansContained`
  says what a reported merge means.
- A rebase conflict is said to be aborted by the time it is returned (wtpool/src/merge.rs:947-948); an error before the
  abort, or an abort that fails, leaves the worktree in the middle of it: `MergeToMain.RebaseIsLeftUnderWayExactly`, with
  the inputs of `MergeToMain.RebaseIsLeftUnderWay`. Nothing aborts a merge that stops either
  (`MergeToMain.MergeIsLeftUnderWayExactly`).
- The gate against unmerged commits is meant to keep work from being lost on release (wtpool/src/pool.rs:517-520). It
  keeps branches only, and only what they held when it looked: `PoolWork.UnforcedReleaseLosesExactly`,
  `PoolWork.CommitAfterGateIsLost`.
- A lease violation is meant to outrank every parse failure (wtpool/src/merge.rs:917-919), but a script that fails to
  start ends the gate first: `MergeGate.ViolationIsReportedExactly`, with the input of `MergeGate.ViolationIsHidden`.
- Second 60 is refused, offset hours and minutes are not range-checked, fractions are dropped: `Timestamp.ParserIsTheGrammar`.

## Model

| member | source | states |
|---|---|---|
| `CommitGraph.AheadZeroIffMerged` | wtpool/src/pool.rs:527-541 | a branch is zero commits ahead of main exactly when its tip is an ancestor of main, and then main holds everything the branch holds |
| `CommitGraph.IsReachableFrom` | wtpool/src/pool.rs:636-645 | the revision walk finds a commit exactly when it is an ancestor of the starting point |
| `PoolSafety.NamedAcquiresAreExclusive` | wtpool/src/pool.rs:321-403 | over every execution with crashes and releases anywhere: two successful named acquires of one slot have a release of that slot between them |
| `PoolSafety.CheckoutHidesSlotIffNamed` | wtpool/src/pool.rs:365-386 | a checkout takes the slot out of circulation exactly when a branch name was given |
| `PoolSafety.CrashBeforeCheckoutFreesSlot` | wtpool/src/pool.rs:311-347 | a holder that dies before its checkout leaves the slot as it was and unlocked, and the next run to try it gets it |
| `PoolTraces.AcquiredSlotStandsAtBase` | wtpool/src/pool.rs:273-386 | over every execution: the step that gives a run its slot leaves that slot at the commit the run found in its first step (its own base, or main as it then was), on the new branch if one was named and detached otherwise, and no other slot or branch moves; the run had found the slot detached and clean under a lock it still has |
| `PoolTraces.AcquireStepExactly` | wtpool/src/pool.rs:270-393 | how an acquire ends, step by step: unknown base, branch in use, failed checkout, acquired; and short of a successful checkout it moves no head and no branch |
| `PoolTraces.ExhaustedHasReasons` | wtpool/src/pool.rs:305-404 | over every execution: a run that reports exhaustion has looked at every slot and found it on a branch, dirty or unreadable, or its lock taken |
| `PoolTraces.GateStepExactly` | wtpool/src/pool.rs:489-543 | the gates of a release: refused exactly on a dirty or unreadable tree, or on a branch whose tip is not an ancestor of the main it resolved, forced releases only on an unreadable tree |
| `PoolTraces.CommandStepExactly` | wtpool/src/pool.rs:545-570 | after a detach or reset that goes through the slot stands at the main of the release, whatever it was on; the reset takes along the branch it finds there and no other; a clean moves no head; other slots stay |
| `PoolTraces.DropStepExactly` | wtpool/src/pool.rs:572-580 | the final cleanup deletes exactly the branch the gate saw, if git goes along and it is checked out nowhere, and nothing else |
| `PoolTraces.ReleasedSlotIsCleanAtMain` | wtpool/src/pool.rs:487-629 | over every execution: a release that reports success leaves its slot clean and detached at the main of its first step; unforced, it had seen the tree clean and then the head detached or held by that main |
| `PoolInvariant.StepKeepsInv` | wtpool/src/pool.rs:261-590 | every step of every acquire and of every release, one command at a time, every crash, edit, commit and move of main keeps: locks held by exactly the runs that say so, slots on existing branches, verified slots still detached, a slot taken by name still on a branch until given back, and what a release has seen in main still in main |
| `PoolInvariant.ExecutionKeepsInv` | wtpool/src/pool.rs:261-590 | the same over every interleaving |
| `PoolWork.StepLosesExactly` | wtpool/src/pool.rs:507-580 | a step loses a commit that main or a branch held exactly when it is a release taking a branch back at its reset or deleting it at its end, and neither main nor any other branch holds the commit |
| `PoolWork.StepKeepsWork` | wtpool/src/pool.rs:507-580 | a step after which main holds every branch it takes back or deletes loses no commit made in the pool |
| `PoolWork.HarmlessRunsLoseNoBranchWork` | wtpool/src/pool.rs:507-580 | over every execution in which each reset and each deletion finds its branch held by main, every commit made on a branch in the pool stays reachable from main or a branch |
| `PoolWork.UnforcedRunsLoseNoBranchWork` | wtpool/src/pool.rs:497-580 | in particular over every execution with unforced releases in which nobody is given a slot before its reset and no branch moves between gate and deletion |
| `PoolWork.CommitAfterGateIsLost` | wtpool/src/pool.rs:517-580 | a commit made on the branch between gate and detach is stranded, and the release reports success |
| `PoolWork.NewHolderIsTakenBack` | wtpool/src/pool.rs:547-557 | a reset that finds the slot on a branch again takes that branch back to main, with all that only it held |
| `PoolWork.UndisturbedReleaseIsAtomic` | wtpool/src/pool.rs:472-590 | undisturbed, a release is refused exactly by its gates or has the effect of a single step, and reports which |
| `PoolWork.ReleaseLosesExactly` | wtpool/src/pool.rs:472-590 | a whole release, forced or not, strands exactly the commits that only the head of its slot holds, unless that is a branch that stays |
| `PoolWork.UnforcedReleaseLosesExactly` | wtpool/src/pool.rs:517-543 | an unforced one strands exactly the commits below a detached head that neither main, nor a branch, nor another slot holds |
| `PoolWork.DetachedCommitIsStranded` | wtpool/src/pool.rs:517-543 | in particular a commit made on a free slot |
| `PoolAllocation.ExactAllocation` | wtpool/src/pool.rs:298-404 | for every interleaving of named acquires with fresh distinct branches and no failure, at rest exactly min(runs, free slots) succeeded, on distinct slots carrying their branches, each branch at its base or at main, and every other run reports exhaustion |
| `PoolAllocation.ExecutionAllocates` | wtpool/src/pool.rs:298-404 | the invariant behind it: a free slot that a run has passed over is claimed, and winners are as many as filled slots |
| `PoolAllocation.ExecutionKeepsBases` | wtpool/src/pool.rs:273-386 | over the same executions every run carries the base it was given, or else main, and the branch of every winner stands there |
| `PoolAllocation.AcquireIsWaitFree` | wtpool/src/pool.rs:321-339 | whatever the others do, a run makes at most 4n + 4 steps of its own in a pool of n slots |
| `PoolAllocation.LoneAcquireTakesFirst` | wtpool/src/pool.rs:321-404 | an undisturbed acquire takes the first unlocked, detached and clean slot in path order, puts it at its base and on its branch, moves nothing else, or reports exhaustion when there is none |
| `PoolAllocation.DetachedAcquireSharesSlot` | wtpool/src/pool.rs:376-386 | two acquires without a branch name, one after the other, are given the same slot |
| `PoolAcquire.Pool.Acquire` | wtpool/src/pool.rs:261-404 | whatever the file system and git answer: an acquired slot was detached, clean and unlocked, and is at the given base or at main, on the new branch if one was named, all other slots, branches and locks as before; any other outcome moves no head and no branch; unknown base and branch in use exactly when they are; and all this is what the step system reaches for a run on its own |
| `PoolAcquire.Pool.TrySlot` | wtpool/src/pool.rs:321-399 | one turn of the loop: acquired exactly when the lock file opens, the slot is unlocked, detached and clean, git goes along and the name is new, the slot then at the base; passed over without a trace, or failed without moving a head; as in the step system |
| `PoolAcquire.Pool.Inventory` | wtpool/src/pool.rs:94-135 | the snapshot scan, slot by slot in order, is the scan of the step system |
| `PoolAcquire.Pool.CheckOut` | wtpool/src/pool.rs:376-393 | succeeds exactly when git does and the name is new; then only that slot moves, to the base, on the new branch if one was named; otherwise no head and no branch does |
| `PoolAcquire.Pool.BranchInUse` | wtpool/src/pool.rs:409-439 | true exactly when the branch is checked out in a slot or elsewhere |
| `PoolAcquire.DriveIsSolo` | wtpool/src/pool.rs:261-404 | with all answers good this is the lone run of the allocation results |
| `PoolRelease.IsDirty` | wtpool/src/pool.rs:182-201 | dirty exactly when some status entry is neither `.cargo` nor below it |
| `PoolRelease.DirtyOnText` | wtpool/src/pool.rs:182-201 | clean exactly when nothing is listed but `.cargo` and paths below it |
| `PoolRelease.Worktree.Unmerged` | wtpool/src/pool.rs:517-543 | refuses exactly a branch head with a commit main does not hold |
| `PoolRelease.Worktree.VerifyPostRelease` | wtpool/src/pool.rs:598-629 | passes exactly on a clean slot detached at main |
| `PoolRelease.Worktree.Release` | wtpool/src/pool.rs:507-590 | whatever the three git commands did, a successful release leaves the slot free at the tip of main; unforced, it was clean before and main holds all its branch held; a refusal changes nothing and happens exactly when the gates of the step system are shut; success is the release step of that system |
| `Calendar.CivilRoundTrip` | wtpool/src/lease.rs:623-665 | date to day number to date is the identity on every valid civil date |
| `Calendar.DaysRoundTrip` | wtpool/src/lease.rs:623-665 | day number to date to day number is the identity on every integer, and the date is valid |
| `Calendar.CalendarsAgree` | wtpool/src/agents.rs:390-402 | the second calendar gives the same date for every day number |
| `Calendar.NextDayAddsOne` | wtpool/src/lease.rs:602-636 | the day after a valid date, counted by leap years and month lengths, has the next day number |
| `Calendar.ClosedFormsStep` | wtpool/src/lease.rs:602-665 | the closed form of day n + 1 is the calendar successor of that of day n |
| `Calendar.ClosedFormsCount` | wtpool/src/agents.rs:390-402 | both closed forms agree with counting days one at a time from the epoch |
| `Calendar.DayOrderIsCivilOrder` | wtpool/src/lease.rs:623-636 | day numbers are ordered as dates are |
| `Timestamp.Rfc3339ToUnix` | wtpool/src/lease.rs:512-586 | the index-advancing parser computes the specified partial function |
| `Timestamp.ParserIsTheGrammar` | wtpool/src/lease.rs:512-586 | a string parses to t exactly when it spells some well-formed stamp denoting t: valid date, T or t, second at most 59, any two-digit offset fields, fraction dropped |
| `Timestamp.StampParses` | wtpool/src/lease.rs:512-586 | every well-formed stamp, spelled out, parses to its instant |
| `Timestamp.PrintedTimestampParses` | wtpool/src/lease.rs:647-665 | parsing the printed form of t gives t exactly when t lies in the years 0 to 9999; outside it is refused |
| `Timestamp.ParsedTimestampPrints` | wtpool/src/lease.rs:647-665 | printing what was parsed gives the string back exactly when it is twenty characters long with T and Z in place |
| `Timestamp.PrintersAgree` | wtpool/src/agents.rs:370-386 | the second printer gives the same string for every non-negative time |
| `Timestamp.ExpiryIsCivilOrder` | wtpool/src/lease.rs:384-395 | for two Z stamps a lease is expired exactly when its stamp comes before the other in date, hour, minute and second |
| `Timestamp.ExpiryExactly` | wtpool/src/lease.rs:384-395 | expired exactly when there is an expiry, both strings are stamps of the grammar, and the second denotes the later instant |
| `Timestamp.OffsetIsLocalTime` | wtpool/src/lease.rs:512-586 | an instant parsed from a stamp with any offset, moved on by that offset and printed, is the date and time the stamp shows |
| `Glob.SegmentMatcherIsLanguage` | wtpool/src/lease.rs:462-489 | within a segment the matcher accepts exactly the strings got by replacing each star with some run of characters |
| `Glob.GlobIsLanguage` | wtpool/src/lease.rs:426-458 | the path matcher accepts exactly the paths got by giving each lone double star a run of segments and every other pattern segment one segment of its language |
| `Glob.ConcatenationSplitsPath` | wtpool/src/lease.rs:432-458 | a concatenated pattern matches exactly when the path splits into two parts matched by the two |
| `Glob.LiteralGlob` | wtpool/src/lease.rs:426-458 | a pattern without stars matches only itself |
| `Glob.DirectoryGlob` | wtpool/src/lease.rs:432-458 | `dir/**` matches the directory itself and everything below, nothing else |
| `Glob.OneStarGlob` | wtpool/src/lease.rs:426-489 | one star in the last segment stands for any run without a slash |
| `Glob.ForbiddingADirectory` | wtpool/src/lease.rs:347-355 | forbidding a directory closes exactly that subtree, whatever is allowed |
| `Glob.PermittedPaths` | wtpool/src/lease.rs:347-355 | a path is permitted exactly when it is not empty, some allowed pattern spells it and no forbidden pattern does |
| `Glob.DirectoryLease` | wtpool/src/lease.rs:347-355 | allowing a directory and forbidding another permits exactly the nonempty paths at or below the one and not at or below the other; allowing nothing permits nothing |
| `TableRows.MergeIsSortedUnion` | wtpool/src/cumulative_md.rs:161-186 | a merge holds each non-blank row of either side exactly once, in strictly increasing key order |
| `TableRows.RowOnText` | wtpool/src/cumulative_md.rs:235-238 | a table row is a line with `| ` or `|-` behind its indentation |
| `TableRows.CommentOnText` | wtpool/src/cumulative_md.rs:240-245 | a row comment is a line that, trimmed, starts with `<!--` and ends with `-->` |
| `TableRows.CommentKey` | wtpool/src/cumulative_md.rs:264-271 | a comment with a name before its first colon is filed under that name, whatever follows |
| `TableRows.BareCommentKey` | wtpool/src/cumulative_md.rs:264-271 | and so is a comment that holds nothing but a name |
| `TableRows.PhaseKey` | wtpool/src/cumulative_md.rs:272-277 | any other row is filed under its first whole token that names a phase 2 |
| `TableRows.CellKey` | wtpool/src/cumulative_md.rs:278-296 | a row without one is filed under its first cell that can pass for a branch name, or under the empty string |
| `TableRows.MergeCommutes` | wtpool/src/cumulative_md.rs:161-186 | merging is commutative |
| `TableRows.MergeAssociates` | wtpool/src/cumulative_md.rs:161-186 | merging is associative |
| `TableRows.MergeIdempotent` | wtpool/src/cumulative_md.rs:161-186 | merging a side in again changes nothing |
| `TableRows.CascadeOrderIrrelevant` | wtpool/src/cumulative_md.rs:161-186 | cascading the same branches in any order, repeats included, yields the same table |
| `ConflictMerge.PrintedMergeSplitsBack` | wtpool/src/cumulative_md.rs:161-186 | a merge of newline-terminated rows is printed as it is and read back as it is |
| `ConflictMerge.WrittenCascadeOrderIrrelevant` | wtpool/src/cumulative_md.rs:161-186 | cascading through the written document, the table printed and split after each merge, is independent of the order too |
| `TableRows.UnionMergeSorted` | wtpool/src/cumulative_md.rs:161-186 | the printed merge is the merged rows, each ended by a newline |
| `TableRows.InsertKeepsSorted` | wtpool/src/cumulative_md.rs:161-186 | inserting a row keeps the set strictly sorted and adds just that row |
| `TableRows.SortedRowsUnique` | wtpool/src/cumulative_md.rs:161-186 | a set of rows has one strictly sorted order |
| `ConflictMerge.FindConflictBlocks` | wtpool/src/cumulative_md.rs:190-233 | the scan with its nested loop finds the specified blocks or the malformed-marker error |
| `ConflictMerge.ParserIsExact` | wtpool/src/cumulative_md.rs:190-233 | parsing yields these blocks exactly when they are well marked, in order, and no opening marker lies outside them |
| `ConflictMerge.BlocksReassemble` | wtpool/src/cumulative_md.rs:190-233 | blocks with their markers, woven into the context, give the document back |
| `ConflictMerge.ResolveCumulativeMdConflict` | wtpool/src/cumulative_md.rs:80-116 | the loop computes the specified resolution or the error of the first refused block |
| `ConflictMerge.ResolvedExactly` | wtpool/src/cumulative_md.rs:80-159 | a document is resolved exactly when its markers parse and every block starts at line 100 or later, ends more than 50 lines before the end, and has on both sides something, and nothing but rows, comments and blank lines; otherwise the first block that has not decides: protected zone if it lies there, mixed content else; malformed exactly when no list of blocks parses |
| `ConflictMerge.ResolvedDocument` | wtpool/src/cumulative_md.rs:80-116 | a resolved document has no line starting with an opening marker, resolves to itself, and keeps the first 100 and last 51 lines if anything changed |
| `ConflictMerge.ResolveReplacesOnlyBlocks` | wtpool/src/cumulative_md.rs:80-116 | every line outside the blocks is kept in order and each block is replaced by its merged rows |
| `ConflictMerge.SplitLinesShape` | wtpool/src/cumulative_md.rs:81 | splitting into lines that keep their newline loses nothing |
| `Supervisor.SupervisorPolicy.RecordSpawn` | lsp-cpp/src/supervisor.rs:394-403 | the whole new state after a spawn; the log of exits is untouched |
| `Supervisor.SupervisorPolicy.RecordExit` | lsp-cpp/src/supervisor.rs:420-465 | the whole new state after an exit, and the pruned history is then the exits of the whole life aged at most 300 s |
| `Supervisor.SupervisorPolicy.ShouldRetry` | lsp-cpp/src/supervisor.rs:483-542 | the decision and the whole new state; asked in Failed, the history is again exactly the recent exits |
| `Supervisor.SupervisorPolicy.PruneHistory` | lsp-cpp/src/supervisor.rs:545-549 | keeps exactly the entries aged at most the window, in order |
| `Supervisor.SupervisorPolicy.BackoffAfterCrash` | lsp-cpp/src/supervisor.rs:434-445 | the next backoff: initial after a healthy uptime or from zero, else doubled up to the cap |
| `SupervisorRuns.RetryAfterIsOneTickShort` | lsp-cpp/src/supervisor.rs:504-509 | at the announced moment the answer is still Fail with nothing left to wait; one nanosecond later it is Proceed exactly when fewer than five exits on record are younger than the oldest |
| `SupervisorRuns.UptimeSpansTheState` | lsp-cpp/src/supervisor.rs:378-386 | in every run the uptime reported counts from the event that last entered the state: a spawn, an exit, or a question that ended a wait; zero if none did |
| `SupervisorRuns.AskChangesExactly` | lsp-cpp/src/supervisor.rs:483-542 | asking changes the policy exactly when a backoff has expired, or in Failed some exit is too old or fewer than five are left; the state then becomes Stopped exactly when a wait is over |
| `Supervisor.WindowShrinks` | lsp-cpp/src/supervisor.rs:545-549 | pruning at one moment never loses what a later pruning would keep |
| `SupervisorRuns.HistoryIsRecentExits` | lsp-cpp/src/supervisor.rs:420-465 | over every run, after an exit the history is the exits of the whole run aged at most 300 s and the counter is their number |
| `SupervisorRuns.RunRemembers` | lsp-cpp/src/supervisor.rs:394-549 | the invariant of every run: pruned history and full log agree on every later window, times ascend, the state anchors are in the past |
| `SupervisorRuns.RestartCapExactly` | lsp-cpp/src/supervisor.rs:420-465 | over every run: every closed 300 s interval holds at most 5 exits if and only if no exit is recorded while the history, pruned to that moment, already holds five |
| `SupervisorRuns.RestartCap` | lsp-cpp/src/supervisor.rs:420-542 | in particular if nothing is recorded in Failed |
| `SupervisorRuns.BackoffCurve` | lsp-cpp/src/supervisor.rs:434-445 | in every run the backoff is min(16, 2^(k-1)) s for the k exits since the last healthy exit, itself counted, or the last Failed expiry |
| `SupervisorRuns.WaitIsExact` | lsp-cpp/src/supervisor.rs:523-535 | a wait is exact: asked again later it is shorter by the delay, and at its end the answer is Proceed |
| `SupervisorRuns.FailedWhileFiveRecent` | lsp-cpp/src/supervisor.rs:489-510 | in Failed the answer is Fail exactly while five exits are in the window, otherwise Proceed and Stopped |
| `SupervisorRuns.FailedExpires` | lsp-cpp/src/supervisor.rs:489-510 | Failed ends once 300 s have strictly passed without exits |
| `SupervisorRuns.DecisionExactly` | lsp-cpp/src/supervisor.rs:483-542 | over every run, from the state and the log of exits: Wait(w) exactly in Backoff with w left of it since the last exit, Fail(r) exactly in Failed with the fifth-last exit at most 300 s ago, the oldest exit within 300 s having r to go |
| `SupervisorRuns.ExitFailsExactly` | lsp-cpp/src/supervisor.rs:420-465 | an exit ends in Failed exactly when the fifth-last exit is then at most 300 s ago, in Backoff otherwise |
| `SupervisorRuns.ReasonOnRecord` | lsp-cpp/src/supervisor.rs:394-430 | the reason on record is that of the last exit, or of the first spawn if that came later |
| `Queue.BoundedQueue.TryAcquire` | lsp-cpp/src/queue.rs:87-96 | gives a new slot exactly when fewer than capacity are out; in-flight stays the number of live slots |
| `Queue.BoundedQueue.Drop` | lsp-cpp/src/queue.rs:125-134 | dropping a live slot frees just that one |
| `RequestLoop.ExitStatusSurvives` | lsp-cpp/src/mcp.rs:552-578 | a code or signal printed by the backend is read back as the same reason, an unknown status as a failed wait |
| `RequestLoop.Server.IsAlive` | lsp-cpp/src/clangd.rs:417-435 | no child counts as not alive, a zombie is reaped with its status kept, a failed probe changes nothing |
| `RequestLoop.Server.RecordDispatchOutcome` | lsp-cpp/src/mcp.rs:634-646 | success records a spawn, an error that tells of a dead child an exit, any other error nothing |
| `RequestLoop.Server.Dispatch` | lsp-cpp/src/mcp.rs:440-546 | layers 3 to 5 of a call that got a slot |
| `RequestLoop.Server.HandleToolsCall` | lsp-cpp/src/mcp.rs:360-546 | the reply and whole new state of a call, with the in-flight slots after it exactly those before it on every exit path |
| `RequestReplies.ReplyExactly` | lsp-cpp/src/mcp.rs:360-546 | which reply every call of every session gets, from the state it finds, the log of exits and what the backend did: queue full, backoff with what is left of it, giving up with what is left of the oldest exit, unknown tool, success, failure |
| `RequestReplies.StatusReportExactly` | lsp-cpp/src/mcp.rs:387-411 | a status report says alive exactly when the probe finds a live child, the number of exits recorded in the session, and the cost of all its probes |
| `RequestReplies.StatusUptime` | lsp-cpp/src/mcp.rs:387-411 | the uptime it reports counts from the event of the session that last entered the state |
| `RequestRuns.CallIsPolicyRun` | lsp-cpp/src/mcp.rs:360-546 | what a call does to the supervisor is a run of at most three policy events in time order, two of them exits at most |
| `RequestRuns.SessionIsPolicyRun` | lsp-cpp/src/mcp.rs:360-546 | every session of calls is a run of the policy, so what holds of all such runs holds of the loop |
| `RequestRuns.AtMostTwoExits` | lsp-cpp/src/mcp.rs:360-546 | a call adds none, one or two restarts to the count |
| `RequestRuns.StatusTouchesNoRestartState` | lsp-cpp/src/mcp.rs:383-411 | the status tool answers in every state and leaves the restart state alone |
| `RequestRuns.SuccessEndsRunning` | lsp-cpp/src/mcp.rs:634-646 | a successful dispatch ends Running, and the next decision is Proceed |
| `RequestRuns.FirstCallRecordsAnExit` | lsp-cpp/src/clangd.rs:417-435 | a backend that was never spawned is recorded as an exit by the first served call |
| `RequestRuns.OneCrashCountsTwice` | lsp-cpp/src/mcp.rs:499-526 | a child dying in a dispatch is recorded once for the broken pipe and once when it is reaped |
| `RequestRuns.CallRecordsInFailedExactly` | lsp-cpp/src/mcp.rs:485-526 | a call records a spawn or an exit in Failed exactly when it is served, its probe finds no live child, that exit is at least the fifth in the window, and its outcome is a success or tells of a dead child |
| `RequestRuns.SessionRespectsFailedExactly` | lsp-cpp/src/mcp.rs:360-546 | a whole session meets the premise of the restart cap exactly when no call of it does that |
| `RequestRuns.CallOverrunsExactly` | lsp-cpp/src/mcp.rs:485-526 | a call records an exit on top of five recent ones exactly when its probe finds no live child, or its outcome tells of a dead one, while the pruned history already holds five |
| `RequestRuns.SessionMeetsCapExactly` | lsp-cpp/src/mcp.rs:360-546 | every closed 300 s interval of a session holds at most 5 exits if and only if no call of it does that |
| `RequestRuns.SessionRestartCap` | lsp-cpp/src/mcp.rs:360-546 | in particular if no call overrides Failed |
| `RequestRuns.FailedIsOverwrittenExactly` | lsp-cpp/src/mcp.rs:485-526 | a Failed set by the probe of a call is taken back to Running by the same call exactly when its dispatch succeeds |
| `RequestRuns.FailedFoundIsLeftByExpiryOnly` | lsp-cpp/src/mcp.rs:440-483 | a Failed that a call finds is left only by expiry; until then nothing is served and nothing recorded |
| `RequestRuns.LoopHasNoRestartCap` | lsp-cpp/src/mcp.rs:485-526 | for every n there is a session, with choices the backend can make, of n served calls and n exits in one instant |
| `RequestRuns.DyingCallsOverrun` | lsp-cpp/src/mcp.rs:485-526 | from its fifth call on each overrides Failed, from the sixth on each overruns the cap |
| `RequestRuns.SessionCountsExits` | lsp-cpp/src/mcp.rs:485-526 | over every session the restart counter is the zombies reaped before a dispatch, plus the probes that found no child, plus the errors that told of a dead one |
| `RequestRuns.SessionProbeTotal` | lsp-cpp/src/supervisor.rs:350-352 | over every session the reported probe total is the cost of every probe made, status calls included, capped at the largest 64-bit number and never wrapped |
| `Framing.Writer.SendFrame` | lsp-shim-core/src/framing.rs:174-180 | appends header part and body of one frame to the stream |
| `Framing.Utf8DecodesExactly` | lsp-shim-core/src/framing.rs:190-200 | header text is read exactly when its bytes are the UTF-8 encoding of some text, and as that text |
| `Framing.Reader.ReadLine` | lsp-shim-core/src/framing.rs:195 | the line and what is left are the old stream; the line has a newline at most at its end, and has it there unless the stream is exhausted |
| `Framing.LineEndIs` | lsp-shim-core/src/framing.rs:195 | there is only one such way to take a line off a stream |
| `Framing.Reader.RecvFrame` | lsp-shim-core/src/framing.rs:190-226 | the header loop and the exact read give the specified message or error and leave the specified rest |
| `Framing.AnyBodyIsDecoded` | lsp-shim-core/src/framing.rs:187-225 | a frame with any bytes for a body is received if they decode and refused as bad data if not, later bytes unread |
| `Framing.UndecodableLineIsRefused` | lsp-shim-core/src/framing.rs:187-196 | a header line that is not UTF-8 text is refused as bad data |
| `Framing.FrameRoundTrip` | lsp-shim-core/src/framing.rs:97-226 | a sent frame is received whole with every later byte unread |
| `Framing.StreamRoundTrip` | lsp-shim-core/src/framing.rs:174-226 | any sequence of frames written back to back is read as the same sequence, later bytes unread |
| `Framing.CutFrameIsNeverRead` | lsp-shim-core/src/framing.rs:190-226 | no strict prefix of a frame yields a message: InvalidData exactly when cut after 15 or 16 bytes, closed stream otherwise |
| `Framing.HeaderReadersAgree` | lsp-shim-core/src/framing.rs:155-222 | on any well-formed header part the two readers agree exactly when nothing is declared, or the first length is malformed, or all are numbers and the first equals the last |
| `Framing.RecvTakesLastDeclared` | lsp-shim-core/src/framing.rs:193-222 | the receiving loop takes the last declared length and fails on any malformed one |
| `Framing.FirstLengthIsFirstDeclared` | lsp-shim-core/src/framing.rs:155-172 | the header parser takes the first declared length |
| `ShellQuote.RunGit` | wtpool/src/git_exec.rs:66-83 | the argument vector and environment of the child, none when an argument holds a NUL |
| `ShellQuote.RenderCommand` | wtpool/src/git_exec.rs:108-120 | the loop renders the specified line |
| `ShellQuote.ScanQuote` | wtpool/src/git_exec.rs:122-134 | a POSIX lexer reads the quoted form of any string back as that string |
| `ShellQuote.RenderedIsTheInvocation` | wtpool/src/git_exec.rs:66-134 | a shell given the rendered line starts exactly the argument vector of `run_git`, for all arguments; the environments agree exactly when the shell has neither variable that `run_git` removes |
| `ShellQuote.RenderingIsInjective` | wtpool/src/git_exec.rs:108-134 | a rendered line stands for one invocation only |
| `LexicalPath.LexicalResolve` | codex-stdio/src/run_task.rs:320-340 | the stack loop computes the specified resolution |
| `LexicalPath.ResolveKeepsWalk` | codex-stdio/src/run_task.rs:320-340 | from every directory a resolved path leads where the path led |
| `LexicalPath.ResolvedShape` | codex-stdio/src/run_task.rs:320-340 | a resolved path has no `.` and no `..` after a name |
| `LexicalPath.FixedExactlyWhenUpThenDown` | codex-stdio/src/run_task.rs:320-340 | a path is left alone exactly when it has that shape |
| `LexicalPath.ResolveIdempotentOnText` | codex-stdio/src/run_task.rs:320-340 | resolving the text of a resolved path changes nothing |
| `LexicalPath.ResolveIdempotent` | codex-stdio/src/run_task.rs:320-340 | resolving twice is resolving once |
| `LexicalPath.RelativeResolveIsCanonical` | codex-stdio/src/run_task.rs:320-340 | two relative paths resolve alike exactly when they lead to the same place from everywhere |
| `LexicalPath.AbsoluteResolve` | codex-stdio/src/run_task.rs:320-340 | an absolute path that never climbs above `/` resolves to the directory it leads to; one that does keeps a `..` after the root |
| `LexicalPath.PrefixDecidesContainment` | codex-stdio/src/run_task.rs:299-307 | the prefix test accepts exactly the absolute paths that lead inside the root and did not climb above `/`, a climb being harmless only if the root is `/` |
| `LexicalPath.ShowRoundTrip` | codex-stdio/src/run_task.rs:339 | a resolved path collected into text splits into the same components |
| `LexicalPath.JoinWalks` | codex-stdio/src/run_task.rs:287-291 | a relative path joined to the worktree leads where it leads from the worktree |
| `LexicalPath.ValidateDiffPaths` | codex-stdio/src/run_task.rs:252-311 | accepts exactly the diffs all of whose header paths are allowed, otherwise names the first that is not; an unreadable worktree is its own error |
| `LexicalPath.PathFieldOnText` | codex-stdio/src/run_task.rs:264-277 | a header is a line with `+++ ` or `--- ` in front, its field the text up to the first tab, trimmed |
| `LexicalPath.AllowedOnDisk` | codex-stdio/src/run_task.rs:264-307 | a line that is no header, or names /dev/null, is allowed; a header whose path is on disk is allowed exactly when what it comes to there lies in the worktree |
| `LexicalPath.AllowedLeadsInside` | codex-stdio/src/run_task.rs:264-307 | a header naming no file on disk is allowed exactly when its path leads inside the worktree, climbs above `/` excluded |
| `IndexFeed.ReadCompileCommands` | lsp-cpp/src/clangd.rs:1140-1159 | the distinct file names in the order of first mention, or the error of reading |
| `IndexFeed.DistinctIsUnique` | lsp-cpp/src/clangd.rs:1140-1159 | that description leaves one answer |
| `IndexFeed.Clangd.BuildFullIndex` | lsp-cpp/src/clangd.rs:831-957 | on success the batches of the first min(limit, distinct) files were all opened and closed, opened and skipped add up to that number; otherwise the log ends in the first open that did not go through |
| `IndexFeed.Clangd.TurnOver` | lsp-cpp/src/clangd.rs:872-917 | one batch closed, the next opened |
| `IndexFeed.Clangd.OpenBatch` | lsp-cpp/src/clangd.rs:887-916 | the readable files of a batch opened in order, the unreadable counted, the first refused write ending it |
| `IndexFeed.Clangd.Drain` | lsp-cpp/src/clangd.rs:876-885 | every open document sent a close, refusals ignored |
| `IndexFeed.FeedIsOrderly` | lsp-cpp/src/clangd.rs:869-957 | at every moment at most 32 own documents are open, none opened while open or closed while closed, none left at the end |
| `IndexFeed.FeedOpensAndClosesEachOnce` | lsp-cpp/src/clangd.rs:869-957 | each readable file is opened once with its contents and closed once, in order, and nothing else is touched |
| `IndexFeed.FeedLoad` | lsp-cpp/src/clangd.rs:876-885 | when close writes fail the server holds at most one batch plus the documents whose close was refused |
| `IndexFeed.SuccessfulBuild` | lsp-cpp/src/clangd.rs:831-957 | all of this about the log of one successful build: the distinct files up to the limit, each readable one opened and closed once in order, the report adding up, the load bounded at every moment |
| `IndexFeed.UnclosedFeedHoldsEverything` | lsp-cpp/src/clangd.rs:876-885 | if no close goes through every file stays open |
| `MergeGate.VoiceGate` | wtpool/src/merge.rs:208-249 | passed exactly when some listed voice is, trimmed, neither empty nor `worktree-worker`, or nobody is listed and the carveout applies; with only those listed refused as self-merge whatever the carveout |
| `MergeGate.RequestShape` | wtpool/src/merge.rs:151-206 | a request is well formed exactly when branch and subject are not blank, the subject is at most 72 bytes and contains the branch unless that check is bypassed, and not only the worker is listed; otherwise which check refuses it first |
| `MergeGate.AllowlistMeaning` | wtpool/src/merge.rs:55-76 | exactly which paths the allowlist covers |
| `MergeGate.BranchCarveoutEligible` | wtpool/src/merge.rs:298-343 | the path loop computes the specified eligibility or error |
| `MergeGate.CarveoutCoversLowRiskOnly` | wtpool/src/merge.rs:263-343 | the carveout applies exactly when something changed, every changed path is covered, and none leads out of the worktree or is a dangling link |
| `MergeGate.ChangedPathsExactly` | wtpool/src/merge.rs:345-362 | the changed paths are the non-blank lines of the diff listing, trimmed |
| `Text.LinesReadBack` | wtpool/src/merge.rs:356-362 | lines ended by a newline or by carriage return and newline are read back, and a last one without an end too |
| `MergeGate.EnforceLeaseCompliance` | wtpool/src/merge.rs:861-939 | the loop with its two accumulators computes the specified verdict, a failed start of the script first, then a violation, then an unreadable verdict |
| `MergeGate.LeaseGateMeaning` | wtpool/src/merge.rs:861-939 | the gate opens exactly when every verdict on file reads and none says out-of-scope |
| `MergeGate.LeaseGateExactly` | wtpool/src/merge.rs:861-939 | otherwise which voice it names: the first whose script does not start, else the first out of scope, else the first unreadable |
| `MergeGate.ViolationIsReportedExactly` | wtpool/src/merge.rs:917-928 | with an out-of-scope verdict on file the gate refuses, and names the violation exactly when no script fails to start |
| `MergeGate.ViolationIsHidden` | wtpool/src/merge.rs:876-888 | an input where it does not |
| `MergeGate.EnforceMergeTip` | wtpool/src/merge.rs:689-811 | the loop computes the specified enforcement; the identical-tree outcome is never left standing |
| `MergeGate.TipGateMeaning` | wtpool/src/merge.rs:689-811 | no drift exactly when every verdict names a tip with the merged tree; a drift names one whose tree differs; the identical-tree outcome is never returned |
| `MergeGate.TipGateExactly` | wtpool/src/merge.rs:689-811 | otherwise the first verdict that names no tip with the merged tree decides: unreadable, unresolvable, or drift from the tip it names |
| `MergeGate.TipGateWithoutVerdicts` | wtpool/src/merge.rs:689-811 | nothing to enforce exactly when no verdict is on file |
| `MergeGate.ComposeMergeMessage` | wtpool/src/merge.rs:425-440 | the message as assembled |
| `MergeGate.MessageLines` | wtpool/src/merge.rs:395-440 | line by line: subject without trailing whitespace, blank line, body likewise with a blank line if there is one, then one trailer for each voice in order, or the one of the carveout if nobody is listed |
| `MergeToMain.LinkedWorktree.RunRebaseMain` | wtpool/src/merge.rs:955-1006 | the outcome of the rebase step and the worktree it leaves, rebase under way or not; only the cumulative document, alone in conflict, is ever written, and only with what the resolver returned |
| `MergeToMain.RebaseResultExactly` | wtpool/src/merge.rs:955-1006 | how a rebase ends: error, clean, resolved by the union merge, or conflict, and as which kind a conflict is reported |
| `MergeToMain.MainRepository.Admit` | wtpool/src/merge.rs:446-493 | the checks before the branch is touched, in order |
| `MergeToMain.MainRepository.FinishMerge` | wtpool/src/merge.rs:537-641 | tip check, message, merge and the look at the outcome; a merge that git stops in stays under way |
| `MergeToMain.MainRepository.MergeToMain` | wtpool/src/merge.rs:446-641 | the whole new state of repository and worktree and the result of a request |
| `MergeToMain.MainMovesExactlyWhenAdmitted` | wtpool/src/merge.rs:446-641 | main moves exactly when every gate is passed and the rebased branch holds something new; then to a merge commit of old main and the rebased tip |
| `MergeToMain.WorkerAloneMovesNothing` | wtpool/src/merge.rs:189-249 | with nobody but the worker listed no request touches anything whatever the carveout says, and a well-shaped one is answered as a self-merge |
| `MergeToMain.RefusalExactly` | wtpool/src/merge.rs:446-500 | which gate answers a request that does not pass them all, and how: the first shut one in order |
| `MergeToMain.LateRefusalExactly` | wtpool/src/merge.rs:537-641 | what can go wrong between a completed rebase and the report of the merge, in order, and as what it is reported |
| `MergeToMain.StatusExactly` | wtpool/src/merge.rs:446-641 | every report of every request: already merged, dry run, rebase conflict, hook blocked and merged exactly when, the auto-resolve and drift-override flags exactly when, and an error if a gate is shut |
| `MergeToMain.NothingTouchedBeforeTheRebase` | wtpool/src/merge.rs:446-535 | a request that is refused, previewed or found already merged leaves repository and worktree as they were; main and branches change only after a completed rebase; no request removes a commit or touches another branch |
| `MergeToMain.RebaseIsLeftUnderWayExactly` | wtpool/src/merge.rs:955-1006 | a request leaves a rebase under way, head detached, exactly when the rebase stopped and an error came up before the abort, or the abort itself failed; main and branches are then as they were |
| `MergeToMain.RebaseIsLeftUnderWay` | wtpool/src/merge.rs:955-1006 | inputs for it: an error before the abort, an abort that fails |
| `MergeToMain.WorktreeIsBack` | wtpool/src/merge.rs:955-1006 | otherwise the worktree is on what it was on, a detached one at the new tip if the rebase was completed; without a completed rebase the repository is as it was |
| `MergeToMain.MergeIsLeftUnderWayExactly` | wtpool/src/merge.rs:574-598 | a merge is under way in the main checkout afterwards exactly when one was before, or the request got to the merge and git stopped in the middle; main is then where it was, and a new one is reported as hook-blocked |
| `MergeToMain.BlockedMergeIsLeftUnderWay` | wtpool/src/merge.rs:574-598 | an input for it |
| `MergeToMain.FailedMergeIsAlwaysHookBlocked` | wtpool/src/merge.rs:574-591 | every failed merge is reported as hook-blocked, because the shown command line itself names the override |
| `MergeToMain.MergedMeansContained` | wtpool/src/merge.rs:600-641 | merged is reported exactly when all gates pass and the look afterwards succeeds; the rebased tip is then in main exactly if the worktree was on its branch or main held it before, and main stayed put exactly if the worktree was detached or main held it before; an error with main moved comes only from the reads after the merge |
| `MergeToMain.MergingHeadMovesNothing` | wtpool/src/merge.rs:461-468 | a detached worktree passes the branch check for the name HEAD and for that alone; with the other gates passed the request is reported as merged, and main and all branches are as they were |
| `MergeToMain.DetachedHeadIsReportedMerged` | wtpool/src/merge.rs:461-468 | an input for it: reported as merged, the commit not in main |
| `MergeToMain.EmptiedBranchIsReportedMerged` | wtpool/src/merge.rs:600-641 | an input on a branch: the rebase drops the only commit, merged is reported and main has not moved |
| `MergeToMain.StepGrowsMain` | wtpool/src/merge.rs:446-641 | one request or work elsewhere loses nothing from main and adds only what an admitted request brings |
| `MergeToMain.MainHoldsOnlyAdmittedWork` | wtpool/src/merge.rs:446-641 | over every history main loses nothing, and every commit it gained is an admitted merge commit or lies below an admitted tip |

## Left out

- Subprocesses, pipes, polling, sleeps, log files, environment variables and clocks: their outcomes are parameters.
- libgit2 and the git binary: commits, refs, heads and slot status are abstract; checkout, reset, clean, rebase and merge are step contracts. A `git checkout` that fails leaves head and refs unchanged, and an abort that succeeds restores the worktree.
- Rebase and checkout are single steps seen from outside; other processes do not act between the steps of one merge request.
- A worktree in which a rebase is already under way when a merge request arrives.
- Main checkout: the repository that merges land in has main checked out.
- Branch-name syntax (wtpool/src/pool.rs:652-672) and the pool-root check of a release (wtpool/src/pool.rs:476-485).
- Lock-file paths: distinct slots are taken to have distinct lock files; the path hash is not modelled.
- PoolAcquire.Pool.Acquire: runs without interference, because interleavings are the business of the step system, whose single step is the same; re-resolving the tip of main after the lock is left out, its value being unused.
- PoolSafety.NamedAcquiresAreExclusive: named acquires only, because an acquire without a branch name leaves the slot free (`PoolAllocation.DetachedAcquireSharesSlot`).
- PoolWork.UnforcedRunsLoseNoBranchWork: branch heads only, because the gate skips a detached one (`PoolWork.DetachedCommitIsStranded`), and with slots and branches left alone during a release, because no lock keeps others off (`PoolWork.CommitAfterGateIsLost`, `PoolWork.NewHolderIsTakenBack`).
- Timestamp strings are sequences of bytes, written as characters below 256.
- Integer widths of dates: years and seconds are unbounded integers, which i64 holds for every string the parser accepts.
- Supervisor: nanosecond differences are unbounded naturals; the source truncates them to 64 bits, which takes over 584 years to show.
- SupervisorRuns.RestartCap: under the premise that nothing is recorded in Failed, because the loop can break it; the condition without a premise is `SupervisorRuns.RestartCapExactly`.
- Admission queue: the mutex makes each operation atomic, so the operations are modelled one at a time.
- JSON: printing and parsing are an inverse pair with non-empty bodies; `parse_response`, tool schemas and error texts are not modelled.
- Framing.Reader.RecvFrame: a declared length is not bounded by the memory to hold it; what an error leaves on the stream is not stated.
- Framing.HeaderReadersAgree: for header lines in ASCII without stray carriage returns, as the base protocol has them.
- ShellQuote: aliases are not expanded, and a line that is not one simple command of literal words, or has double quotes or a continued line, none of which is ever rendered outside quotes, has no reading. Repository paths are text.
- LexicalPath: canonicalisation and symbolic links are a parameter; walks are through a tree without links.
- IndexFeed: the quiescence drain, shard counting, warm-up and seeded headers, which may already be open; only documents opened by the feeding itself are counted.
- MergeToMain: the merge commit's own message and the warning for a missing trailer; verdict files and the two rounds of reading them are separate parameters.
- TableRows.PhaseKey: a row that is no comment; a comment without a name goes through the same two searches, which is not stated.
- TableRows.CellKey: the same.
- Pool status, telemetry scanning, caches, review tokens, MCP message dispatch, CLI parsing: tables and small state without a property that spans operations.
- `clangd-launcher/clangd-driver.py`, `wtpool/src/git.rs`, `lsp-rust/src/lsp.rs`, `codex-stdio/src/codex.rs`: retry, cache and driver logic that would only add easy members.
