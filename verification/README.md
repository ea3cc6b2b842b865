# Verified models of wllr's algorithmic cores

This project models, in Dafny 4.11, the parts of wllr whose behaviour is worth proving: the
exact-text editor and the bounded edit distance, the tool-loop guard, the concurrent log
dispatcher, the hand-written OTLP encoder, the result cache and pager of `list_files` and
`search`, the entry builder, the shell scanner and command policy, device-code polling,
versioned plans, the config migration, the agent tree, and thinking-mode resolution.
`dafny verify dfyconfig.toml` checks all of it.

How the models are built:

- One module per component, one file per module; `Wire.dfy` is the protobuf wire format under
  `TraceProto.dfy`; `Sequences.dfy`, `GoStrings.dfy`, `Bytes.dfy` and `Options.dfy` hold what
  several components share.
- Code that works step by step is a method with the loops of the source, or a class with the
  source's fields, proved against a specification: a relation, a reference function that is
  defined without reference to the loop, or a step function about which the lemmas then speak.
- `LogDispatcher.dfy` is a state machine: every flag load, lock, unlock, send and receive is a
  step, producers are arbitrarily many, and `Run` ranges over every interleaving.
- Everything outside the code is a parameter: what ripgrep returned, clock readings, how long a
  poll takes, which write fails, whether a snapshot was persisted, glob matching.

What the proofs found. In these places the code and its own documentation disagree; the model
follows the code and a lemma gives the exact condition:

- `boundedEditDistance` is documented as capped, but its empty-string shortcuts are not
  (`EditDistance.CapIsHonouredExactlyWhen`), and the caller's `d <= 2` filter on a distance
  capped at 2 rejects no non-empty name (`EditDistance.SimilarityTestRejectsOnlyEmptyNames`).
- `putCache` never gives back the bytes of an entry it overwrites in place: they are missing from
  the 50MB budget for good (`ResultCache.LeakIsForever`), a list is cached exactly when it fits
  beside them (`FetchedListIsHeldIffItFits`), and refreshing one list of b bytes about 50MB / b
  times within its lifetime leaves a cache in which lists of that size are never held again
  (`RefreshesUseUpTheBudget`, `RefreshingWearsTheCacheOut`).
- A result ID survives a refresh, so pages on both sides of one can come from two lists
  (`ResultCache.RefreshMixesTwoLists`; `SameListIff` and `PagesMakeOneList` say when they do not).
- "Startup logs are not lost" once a subscriber appears needs two things the documentation does
  not say: a tick between the subscription and the stop, and a listener still there when the ring
  is handed over, for `DispatchEvent` skips extensions that are not subscribed at that moment.
  A startup record is delivered iff the ring was handed over while someone listened
  (`LogDispatcher.StartupRecordsNeedAListener`); where subscriptions are never withdrawn the tick
  alone decides (`WithoutWithdrawalTheTickDecides`). Both losses have a run
  (`StoppingCanStrandAStartupRecord`, `LeavingListenerLosesAStartupRecord`).
- "Queue caps growth" while there is no sink holds only until the first flush
  (`LogDispatcher.BootstrapMemoryIsBounded`). Once the ring was flushed and the listener has left,
  the loop keeps receiving and its batch grows without bound (`BatchGrowsWithoutBound`).
- `min_repeats` is the documented threshold for identical calls; with cycles of two watched it
  decides anything only up to 4 (`LoopGuard.ThresholdMattersUpToFour`).
- "Version increments on every mutation" fails for `plan_evidence`, and for a `plan_update` that
  is rejected for its status after its title was stored (`Plans.ChangesWithoutNewVersion`).  Such a
  title is silently overwritten by the next call that expects the same version
  (`RejectedTitleIsOverwritten`), and that is the only way two calls expecting one version can both
  change a plan (`TwoChangesOfOneVersion`).
- The evidence gate guards `plan_complete` alone.  An open plan becomes "completed" iff it passes
  that gate or a `plan_update` sets the status and passes its own checks
  (`Plans.UpdateBypassesTheGate`); a plan found completed without evidence was closed by such an
  update or by an override (`UnprovenPlansWereForced`).  The override's reason is kept only when a
  step was incomplete (`OverrideIsRecordedOnlyForIncompleteSteps`).
- The config migration writes an extension's file directly; a torn write is taken for the
  extension's own file by the next start, and the group is lost exactly then
  (`ConfigMigration.TornWriteIsLostByTheNextRun`).  A group whose own write never tears survives
  any number of crashes and restarts (`ConfigMigration.GroupSurvivesUnlessItsOwnWriteTears`).
- For a local model that can only switch thinking on and off, the level "medium" turns it on and
  "high" and "xhigh" turn it off (`ThinkingModes.OnOffModelTurnsOff`).  Among the sets an LM Studio
  endpoint can declare these are the only ones where asking for more gives none
  (`MoreTurnsOffExactlyForOnOffModels`).

## Model

| member | source | states |
|---|---|---|
| Editor.FindOccurrences | cmd/provider.go:772-784 | lists exactly the positions where the text occurs, overlapping ones included, in ascending order |
| Editor.OneOccurrenceIsUnique | cmd/provider.go:338-371 | having listed one occurrence is the same as the text having a unique place, and that is the place |
| Editor.EditFile | cmd/provider.go:303-398 | writes iff there are edits, each oldText is non-empty and occurs exactly once, and no position of the file lies in the spans of two edits; the file written is the simultaneous substitution; otherwise the first offending edit in list order is reported with its reason |
| Editor.AcceptableMeansDisjoint | cmd/provider.go:376-391 | comparing the ends of the matched spans accepts exactly the lists whose spans share no position of the file; spans that touch are accepted |
| Editor.OverlapIsACommonPosition | cmd/provider.go:790-792 | two non-empty spans overlap iff some position is in both |
| Editor.Splice | cmd/provider.go:400-412 | replacing the spans in descending order of start gives one left-to-right substitution pass over the original file |
| Editor.SortByStartDescending | cmd/provider.go:400-403 | a permutation with starts descending |
| Editor.OrderDoesNotMatter | cmd/provider.go:330-412 | any permutation of the edits is accepted alike and writes the same file |
| Editor.EditedLength | cmd/provider.go:405-412 | the file grows by the sum of new minus old lengths |
| Editor.EditRoundTrip | cmd/provider.go:338-412 | if every newText is non-empty and unique in the result, the swapped edits are accepted on it and restore the original |
| EditDistance.NoAlignmentIsCheaper | cmd/provider.go:713-715 | the recursive Levenshtein distance is a lower bound of every alignment's cost |
| EditDistance.SomeAlignmentIsThisCheap | cmd/provider.go:713-715 | and some alignment attains it |
| EditDistance.RowMinimumNeverShrinks | cmd/provider.go:748-750 | once a whole table row exceeds the cap, so does the distance: the row cut-off is sound |
| EditDistance.FillRow | cmd/provider.go:734-747 | one pass turns row i-1 of the distance table into row i and returns its minimum |
| EditDistance.BoundedEditDistance | cmd/provider.go:716-757 | for two different non-empty strings min(Levenshtein, max), for equal or empty ones Levenshtein itself, for every max |
| EditDistance.CapIsHonouredExactlyWhen | cmd/provider.go:713-726 | the documented "capped at max" holds iff the strings are equal and max is non-negative, or differ and no empty-string shortcut returns more than max |
| EditDistance.SimilarityTestRejectsOnlyEmptyNames | cmd/provider.go:622-624 | the distance capped at 2 exceeds 2 only when one name is empty and the other longer than 2 |
| LoopGuard.BlocksEqual | extensions/agents/loopguard.go:187-196 | true iff the tail is a k-fold repetition of one block of m calls |
| LoopGuard.DetectToolLoop | extensions/agents/loopguard.go:137-183 | detects iff the last W calls end in a run of R calls or in a square of a period from 2 to min(W/2, P), with W, R and P as given or 10, 3 and 5; reports the run or the shortest such period with its exact multiplicity |
| LoopGuard.LimitsAreTheConfigured | extensions/agents/loopguard.go:57-73 | the limits in force: window 10, run 3 and period 5 unless configured, and a cycle of m calls watched iff 2m fits the window and m is at most the period |
| LoopGuard.WindowDecidesLikeHistory | extensions/agents/loopguard.go:147-149 | the window of the last W accepted calls decides every call as the whole accepted history would |
| LoopGuard.AcceptingKeepsClean | extensions/agents/loopguard.go:236-252 | accepting a call keeps the whole history free of squares with 2 <= period <= min(W/2, P) and of runs of minRepeats calls |
| LoopGuard.BlockedExactlyWhenNeeded | extensions/agents/loopguard.go:236-252 | on a repetition-free history a call is blocked iff accepting it would create a square with 2 <= period <= min(W/2, P) or a run of R calls |
| LoopGuard.EveryRunIsClean | extensions/agents/loopguard.go:236-252 | over every sequence of calls of all agents: each buffer is the window onto its agent's accepted history, and that whole history is free of squares with 2 <= period <= min(W/2, P) and of runs of R calls; filling in the configuration's defaults first gives the same run |
| LoopGuard.BlockedPatternIsMinimal | extensions/agents/loopguard.go:110-122 | in every reachable state a blocked run has exactly minRepeats calls and a blocked cycle exactly two rounds |
| LoopGuard.RetriesStayBlocked | extensions/agents/loopguard.go:231-247 | after a blocked call any number of retries leaves the guard in the same state |
| LoopGuard.NeverFourInARow | extensions/agents/loopguard.go:124-130 | with cycles of two watched, no accepted history has four identical calls in a row |
| LoopGuard.ThresholdMattersUpToFour | extensions/agents/loopguard.go:32-40 | with cycles of two watched, some clean history can end in a run of min_repeats calls iff min_repeats is at most 4 |
| LoopGuard.LoopGuard.Observe | extensions/agents/loopguard.go:236-252 | for an enabled guard and an agent in scope, blocks iff accepting the call would put a repetition into the history, which otherwise grows by the call; changes only the calling agent's buffer, and leaves everything unchanged when it blocks |
| LogDispatcher.NextKeepsInv | cmd/loghandler.go:146-225 | every atomic step of a producer or of the drain goroutine keeps lock ownership, flag, stage and conservation invariants; the goroutine is never back at its select, or stopped, with a batch in hand, and once stopping it stops |
| LogDispatcher.EveryRunKeepsInv | cmd/loghandler.go:146-225 | hence every interleaving does |
| LogDispatcher.DeliveredInAdmissionOrder | cmd/loghandler.go:168-225 | dispatched records are a subsequence of admission order without duplicates or inventions |
| LogDispatcher.EveryRecordIsInOnePlace | cmd/loghandler.go:146-225 | every admitted record is in exactly one of ring, flush in flight, batch, queue, dispatched, dropped, handed over unheard |
| LogDispatcher.BootstrapRingKeepsTheLatest | cmd/loghandler.go:143-158 | until the flush takes it, the ring holds exactly the last 256 records, earlier ones are exactly the dropped ones, and every later stage is empty |
| LogDispatcher.StepsOnlyExtendHistory | cmd/loghandler.go:146-225 | no step takes back an admission, a drop or a delivery |
| LogDispatcher.GuardRefusesExactlyDuringDispatch | cmd/loghandler.go:87-93 | the reentrancy guard refuses a record iff a batch is being handed to the extensions at that instant |
| LogDispatcher.WhatStoppingLeavesBehind | cmd/loghandler.go:174-191 | after the drain stopped, a record was handed to an extension iff it was not dropped on overflow, is not left in ring or queue, and was not handed over while nobody listened |
| LogDispatcher.StartupRecordsNeedAListener | cmd/loghandler.go:170-225 | after the drain stopped, each record that the ring held at the flush or still holds was delivered iff the ring was handed over while an extension listened; that needs a tick selected while subscribed, without which nothing was delivered; with one the others were delivered unless dropped, queued or unheard |
| LogDispatcher.WithoutWithdrawalTheTickDecides | modules/extension/host.go:2379-2396 | where subscriptions are never withdrawn nothing goes unheard, and startup records are delivered iff a tick was selected while subscribed |
| LogDispatcher.FlushTakesTheLatest | cmd/loghandler.go:193-206 | the ring is taken at most once, and holds exactly the last 256 records then |
| LogDispatcher.SomebodyCanStep | cmd/loghandler.go:146-225 | no deadlock in any interleaving: a goroutine that cannot take its next step waits for the ring's mutex, and the owner of the mutex can step; each step counts down, so Handle takes at most 6 steps and the drain goroutine at most 12 between two selects, where its batch is empty |
| LogDispatcher.SubscribedTickFlushes | cmd/loghandler.go:181-191 | in every run, each record that the batch held at a tick with a subscriber has been dispatched or handed over unheard whenever the goroutine is back at its select or stopped; one from the ring may instead have been dropped by a later record |
| LogDispatcher.PastTheGuardIsAdmitted | cmd/loghandler.go:143-163 | each step of a producer past the guard keeps its record in hand or admits it |
| LogDispatcher.StopsOnlyWhenClosed | cmd/loghandler.go:176-178 | the drain goroutine stops only after the stop channel was closed |
| LogDispatcher.BootstrapMemoryIsBounded | cmd/loghandler.go:182-184 | until a tick was selected while subscribed, only the ring holds records, at most 256 |
| LogDispatcher.BatchGrowsWithoutBound | cmd/loghandler.go:180-184 | for every n a run without listener, without drops, and with n records in the batch |
| LogDispatcher.DropsAreOverflows | cmd/loghandler.go:146-163 | a record is dropped iff it is the oldest of 256 in the ring when another is appended, or is itself sent while 4096 are queued |
| LogDispatcher.StoppingCanStrandAStartupRecord | cmd/loghandler.go:36-37 | a run that logs, is subscribed to and is stopped before the next tick keeps its startup record in the ring |
| LogDispatcher.LeavingListenerLosesAStartupRecord | modules/extension/host.go:2384-2390 | a run that logs, is subscribed to, picks the tick and loses its listener before the ring is handed over: the startup record reaches nobody |
| Wire.AppendVarint | extensions/otel-traces/proto.go:23-29 | appends the base-128 varint of the value |
| Wire.AppendFixed64Field | extensions/otel-traces/proto.go:60-74 | appends tag and eight little-endian bytes |
| Wire.AppendLenDelim | extensions/otel-traces/proto.go:38-43 | appends tag, length and data of a length-delimited field |
| Wire.SpecificationExamples | extensions/otel-traces/proto.go:22-43 | the worked examples of the encoding specification |
| Wire.VarintIsSelfDelimiting | extensions/otel-traces/proto.go:22-29 | a 64-bit varint takes at most ten bytes and is read back before any suffix |
| Wire.FieldReadsBack | extensions/otel-traces/proto.go:31-74 | every field written is read back as the same field before any suffix |
| Wire.FieldsReadBack | extensions/otel-traces/proto.go:31-74 | a message is read back field by field, in order |
| TraceProto.EncodeSpan | extensions/otel-traces/proto.go:138-171 | the bytes are the span's fields in the documented layout, the parent omitted iff zero |
| TraceProto.SpanLayout | extensions/otel-traces/proto.go:138-171 | the bytes of a span, tag by tag |
| TraceProto.EncodeTraceRequest | extensions/otel-traces/proto.go:200-207 | the bytes are the request's nested layout, empty without spans |
| TraceProto.SpanReadsBack | extensions/otel-traces/proto.go:138-171 | a reader of the span gets trace ID, IDs, parent (absent meaning zero), name, signed kind and timestamps, ordered attributes and status |
| TraceProto.RequestRoundTrip | extensions/otel-traces/proto.go:85-207 | a reader of the whole request gets exactly the recorded spans, in order, under resource wllr and scope wllr/otel-traces |
| ResultCache.FollowingPagesYieldsTheList | extensions/list_files/list_files_logic.go:155-187 | following next_offset with any page sizes terminates and yields the cached list once, in order |
| ResultCache.PagesAreAsAskedFor | extensions/list_files/list_files_logic.go:163-187 | a page has min(left, default) entries without a limit, min(left, limit) within the maximum and min(left, max) above it; they are the entries from the offset on, and next_offset is where the rest begins |
| ResultCache.PagesOfTheTools | extensions/search/search_logic.go:21-33 | with 200 and 1000 for list_files, 50 and 200 for search |
| ResultCache.NewestStaysIffItFits | extensions/list_files/list_files_logic.go:353-362 | the newest entry survives eviction iff its size plus the leaked bytes fit the 50MB |
| ResultCache.TransitionKeepsLegal | extensions/list_files/list_files_logic.go:332-363 | every query and page call keeps held total plus leaked bytes within 50MB (or holds nothing) and never gives leaked bytes back |
| ResultCache.FetchedListIsHeldIffItFits | extensions/list_files/list_files_logic.go:332-363 | a fetched list is held after its call iff its size, the earlier leak and the entry it replaces fit the 50MB together |
| ResultCache.ListsLiveFiveMinutes | extensions/list_files/list_files_logic.go:22 | a stored list answers a query for less than five minutes, and pages up to and including that instant |
| ResultCache.SizeOfListing | extensions/list_files/list_files_logic.go:133-135 | a listing costs its paths and 16 bytes for each |
| ResultCache.SizeOfHit | extensions/search/search_logic.go:140-147 | a hit costs its path, text and context lines and 64 bytes |
| ResultCache.LeakIsForever | extensions/list_files/list_files_logic.go:332-363 | over every run, bytes overwritten up to one state are missing from the budget in all later ones: no list larger than the rest is ever held again |
| ResultCache.CounterIsExactUnlessOverwritten | extensions/list_files/list_files_logic.go:332-344 | over every run the byte counter drifts from the held total iff some query stored over a held non-empty entry |
| ResultCache.RefreshesUseUpTheBudget | extensions/list_files/list_files_logic.go:113-137 | in every run of refreshes with lists of b bytes within the first one's lifetime, the n-th leaves (n - 1) * b bytes leaked and its list held while n * b fits 50MB, and an empty cache from then on |
| ResultCache.RefreshingWearsTheCacheOut | extensions/list_files/list_files_logic.go:113-137 | such a run exists: 50MB / b + 1 refreshes, after which b bytes no longer fit |
| ResultCache.SameListIff | extensions/list_files/list_files_logic.go:140-200 | a result ID stands for the same list in two states of a run iff no query stored under it in between or the last to do so fetched the same list |
| ResultCache.PagesMakeOneList | extensions/list_files/list_files_logic.go:140-200 | over every run, page requests chained by next_offset put together the one list of the first request, if the entry is unexpired at each and every query that stored under the ID in between fetched that list again |
| ResultCache.RefreshMixesTwoLists | extensions/list_files/list_files_logic.go:113-200 | a refresh between two pages leaves the client with a list that never existed |
| ResultCache.ResultCache.Evict | extensions/list_files/list_files_logic.go:346-363 | terminates; drops the expired, then oldest first and only while over budget; evicted entries are never newer than survivors |
| ResultCache.ResultCache.PutCache | extensions/list_files/list_files_logic.go:332-337 | keeps counter = held total + leaked bytes, the leak at most 50MB and growing exactly by the size of a held entry overwritten in place |
| ResultCache.ResultCache.RunQuery | extensions/list_files/list_files_logic.go:107-137 | moves the cache by the specified transition and replies with the first page of the right size; a hit (strictly before expiry, no refresh) changes nothing; a miss stores the new list; a leak needs a refresh, or lookup and eviction at the very instant of expiry |
| ResultCache.ResultCache.RunPage | extensions/list_files/list_files_logic.go:140-200 | serves the page of the right size of an unexpired entry with its staleness and remaining lifetime, removes an expired one, and reports each parameter error |
| ResultCache.NewSearchCache | extensions/search/search_logic.go:21-33 | the search tool's cache is the same cache with its own page sizes and entry size |
| ListEntries.DedupeSorted | extensions/list_files/list_files_logic.go:309-320 | in place, without overwriting an unread element, keeps the first of each run of equal neighbours |
| ListEntries.OrderIsLexicographic | extensions/list_files/list_files_logic.go:272-288 | paths are ordered by their first difference, a prefix first |
| ListEntries.DedupeOfSorted | extensions/list_files/list_files_logic.go:309-320 | on sorted input that is strictly increasing with the same members |
| ListEntries.DeriveDirs | extensions/list_files/list_files_logic.go:292-307 | strictly increasing; exactly the proper ancestor directories of the files, with trailing slash |
| ListEntries.BuildEntries | extensions/list_files/list_files_logic.go:272-288 | files: sorted permutation; dirs: the ancestor directories; both: strictly increasing union of the two |
| ShellCommands.HasShellOperator | extensions/permissions/commandrules.go:108-135 | true iff an operator occurs outside quotes and escapes |
| ShellCommands.LiteralTextHidesOperators | extensions/permissions/commandrules.go:108-135 | text between single quotes, between double quotes with escapes, or one rune after a backslash adds no operator and hides none around it |
| ShellCommands.OperatorsInTheOpen | extensions/permissions/commandrules.go:130 | outside quotes ; & pipe < > and newline are operators, and a command without these runes has none |
| ShellCommands.SplitShellSegments | extensions/permissions/commandrules.go:137-176 | the trimmed non-empty pieces between separators outside quotes and escapes |
| ShellCommands.NoOperatorMeansOneSegment | extensions/permissions/commandrules.go:108-176 | the two scanners agree: without an operator there is at most one segment, the trimmed command |
| ShellCommands.NoSeparatorMeansOneSegment | extensions/permissions/commandrules.go:137-176 | a command without ; & pipe and newline is one segment, redirections included |
| ShellCommands.SegmentsAreSimple | extensions/permissions/commandrules.go:137-176 | splitting a segment again gives that segment |
| ShellCommands.SegmentsOfChain | extensions/permissions/commandrules.go:137-176 | a separator met in the start state splits the command, whatever follows |
| ShellCommands.CommandNames | extensions/permissions/commandrules.go:50-73 | the executables that the segments start, at most one per segment |
| ShellCommands.FirstWordDecides | extensions/permissions/commandrules.go:54-70 | sudo, env, command, --, options and NAME=value words are transparent; any other first word yields exactly its base name, unless that is empty, a dot or a slash |
| ShellCommands.UnquotedWord | extensions/permissions/commandrules.go:55 | quotes around a word do not belong to it |
| ShellCommands.BaseOfPath | extensions/permissions/commandrules.go:65 | the base name of dir/name is name |
| ShellCommands.WrappersAreTransparent | extensions/permissions/commandrules.go:50-73 | for every command, the executables of "sudo c" (or another wrapper, option or assignment before c) are those of c |
| ShellCommands.NamesOfChain | extensions/permissions/commandrules.go:50-73 | names of "c1;c2" are the names of c1 followed by those of c2 when c1 ends unquoted and unescaped |
| ShellCommands.CheckCommandPermission | extensions/permissions/commandrules.go:20-46 | allows iff no denied variable, no forbidden operator, and every executable passes deny and allow rules; otherwise the first reason in that order, and of the executables the first that fails |
| ShellCommands.WrapperIsPermittedIffBareIs | extensions/permissions/commandrules.go:20-46 | a wrapper cannot smuggle an executable past the rules, nor block one |
| ShellCommands.ChainIsPermittedIffBothHalvesPass | extensions/permissions/commandrules.go:20-46 | a separator cannot smuggle an executable past the rules |
| ShellCommands.DeniedOperatorsLeaveOneCommand | extensions/permissions/commandrules.go:27-29 | with operators denied an allowed command has at most one segment and one executable |
| DeviceCode.PollDeviceCode | cmd/devicecode.go:63-120 | no poll at or after the deadline; each poll exactly on time up to the environment's own delays; the outcome is that of the last poll, and earlier polls said pending or slow_down; a time-out returns at the deadline up to those delays |
| DeviceCode.NextPollIsDue | cmd/devicecode.go:66-72 | the next poll comes after the reply, the requested seconds (5 when none) and 5 seconds for each slow_down received so far, and the environment's delays |
| DeviceCode.PollsAreWellSpaced | cmd/devicecode.go:95-118 | consecutive polls are at least I + 5k seconds apart after k slow_down replies |
| DeviceCode.PollCountIsBounded | cmd/devicecode.go:63-120 | at most ceil(E/I) polls in a lifetime of E seconds |
| Plans.PlanStore.PlanCreate | extensions/plan/main.go:172-201 | stores the normalized plan at version 1 and makes it active, or reports the missing title |
| Plans.CreateStoresAFreshPlan | extensions/plan/state.go:89-118 | with all titles given: an active plan at version 1 whose steps have trimmed titles, their ID or step-<number>, and a valid status |
| Plans.CreateReportsMissingTitles | extensions/plan/state.go:89-98 | else the plan title is reported, then the first step without one, and nothing is stored |
| Plans.DigitsAreDecimal | extensions/plan/state.go:99-101 | the number in a generated step ID reads back as that number |
| Plans.PlanStore.PlanUpdate | extensions/plan/main.go:246-301 | the whole new state and result, the title that survives a rejected status included |
| Plans.RefusalsInOrder | extensions/plan/main.go:246-495 | every operation is refused first for its parameters, then for an unknown plan, then for the version, each exactly then |
| Plans.UpdateSetsWhatIsGiven | extensions/plan/main.go:267-300 | the result, and each field of the plan: given or kept |
| Plans.PlanStore.PlanStepUpdate | extensions/plan/main.go:303-360 | changes the first step with the ID and bumps the version, or reports why not and changes nothing |
| Plans.StepRefusals | extensions/plan/main.go:303-427 | a step operation is refused for its step iff no step has the ID, for its status iff that is none of the four |
| Plans.StepUpdateSetsWhatIsGiven | extensions/plan/main.go:325-360 | only the first step with the ID differs, each of its fields given or kept, and the version is one higher |
| Plans.PlanStore.PlanEvidence | extensions/plan/main.go:362-390 | appends evidence to the first step with the ID, the version unchanged |
| Plans.PlanStore.PlanAssign | extensions/plan/main.go:392-427 | assigns the first step with the ID and bumps the version |
| Plans.EvidenceAndAssigneeAreStored | extensions/plan/main.go:362-427 | evidence is appended at the same version, an assignee stored at the next, and nothing else differs |
| Plans.PlanStore.PlanComplete | extensions/plan/main.go:453-495 | the two gates, the override and the new state |
| Plans.CompleteClosesThePlan | extensions/plan/main.go:466-494 | the two gates in order with the IDs they list, and the plan that passes them |
| Plans.PlanStore.Unresolved | extensions/plan/state.go:134-155 | the IDs of incomplete steps, and of completed steps without evidence, in order |
| Plans.UnresolvedOfChain | extensions/plan/state.go:134-155 | the scans list, step by step, the IDs of those not completed, and of those completed without evidence |
| Plans.RunsEvolvePlans | extensions/plan/main.go:246-495 | over every run with fresh IDs versions never decrease, steps never disappear, evidence only grows |
| Plans.FailuresChangeNothingElse | extensions/plan/main.go:246-495 | a call that reports a failure, a version conflict included, leaves every plan as it was, except exactly an update with a new title and an invalid status |
| Plans.OneSuccessPerVersion | extensions/plan/state.go:57-60 | in every interleaving at most one call that expects a given version of a plan is carried out in full |
| Plans.TwoChangesOfOneVersion | extensions/plan/state.go:57-60 | in every interleaving two calls that expect one version both change the plan only if the earlier is an update whose title was stored before its status was rejected |
| Plans.RejectedTitleIsOverwritten | extensions/plan/main.go:268-279 | such a pair: both change the plan at one version, and the second leaves the state it alone would have produced |
| Plans.EqualVersionsMeanEqualPlans | extensions/plan/state.go:57-60 | in every run, two states with equal versions of a plan have equal plans up to evidence, and up to a title left by a rejected update in between |
| Plans.CompletedWithoutOverrideKeepsEvidence | extensions/plan/main.go:453-495 | a plan completed without override has evidence on every step, then and in every later state |
| Plans.ChangesWithoutNewVersion | extensions/plan/state.go:57-60 | an operation changes a plan without a new version iff it records evidence on an existing step, or is an update with a new title and an invalid status |
| Plans.OverrideIsRecordedOnlyForIncompleteSteps | extensions/plan/state.go:53-55 | a completion goes through iff nothing is unresolved or a reason is given, and then leaves that reason iff a step was incomplete (or the reason was there before) |
| Plans.ForcingPastEvidenceLeavesNoReason | extensions/plan/main.go:466-482 | a plan whose step is completed without evidence is closed and keeps no reason |
| Plans.UpdateBypassesTheGate | extensions/plan/main.go:246-301 | an open plan becomes "completed" iff plan_complete passes its gate, or plan_update sets that status and passes its ID, version and title checks |
| Plans.AnyPlanCanBeClosedUnproven | extensions/plan/main.go:274-279 | some plan_update closes any plan whatever its steps and evidence |
| Plans.UnprovenPlansWereForced | extensions/plan/main.go:246-495 | over every run, a plan that is completed with evidence missing was closed by such an update or by an override |
| ConfigMigration.PathsAreInjective | cmd/main.go:1091-1100 | no two extension names share a config file |
| ConfigMigration.KeysThatStay | cmd/main.go:1091-1100 | the keys that stay are wllr, the empty key, . and .., and those with a slash or backslash |
| ConfigMigration.Migration.MigrateLegacyExtensionConfigs | cmd/main.go:1191-1248 | goes through exactly the disks of the specified trace |
| ConfigMigration.EveryCrashPointIsSafe | cmd/main.go:1191-1248 | at every crash point each legacy group without its own file is in the app config or complete in its own file; existing files, the wllr group and un-nameable keys are as they were |
| ConfigMigration.EveryRestartIsSafe | cmd/main.go:1179-1190 | the same over any number of crashes and restarts, as long as writes leave the whole file or none |
| ConfigMigration.GroupFaresByItsOwnWrite | cmd/main.go:1203-1240 | on any disk, whatever fails for other groups, a group's file after each write and its place in the app config follow from its own stat and write |
| ConfigMigration.FileDiffersIffOwnWriteTore | cmd/main.go:1203-1240 | after a full run the own file holds something else iff the group's own write tore |
| ConfigMigration.GroupSurvivesUnlessItsOwnWriteTears | cmd/main.go:1179-1190 | a group survives any crashes and restarts if its own write never tears, even when others do |
| ConfigMigration.TornWriteIsLostByTheNextRun | cmd/main.go:1250-1256 | for every disk, environment and crash point of one run, the next failure-free run loses the group iff its own write tore before the crash |
| ConfigMigration.TornWriteOfAFullRunIsLost | cmd/main.go:1250-1256 | after a run to its end: iff its own write tore |
| ConfigMigration.SecondRunChangesNothing | cmd/main.go:1188-1190 | after a failure-free run the migration is a no-op |
| ConfigMigration.FailureFreeRunMovesEverything | cmd/main.go:1179-1190 | a run without failures leaves exactly the keys that stay in the app config, in order, and each other non-null group in the file it had or in a new one with its value |
| AgentTree.PrefixIsParentChain | extensions/agents/main.go:592-598 | the ID prefix test holds iff the agent is on the other's parent chain |
| AgentTree.AccessIsAncestry | extensions/queue/cancel.go:56-73 | a queue target is allowed iff it is the caller or has the caller on its parent chain, an empty caller being main and an empty target the caller |
| AgentTree.AccessIsPartialOrder | extensions/queue/cancel.go:56-73 | access is reflexive, antisymmetric and transitive |
| AgentTree.ReachIsNestedOrDisjoint | extensions/queue/cancel.go:56-73 | two agents that reach a common agent reach one another in one direction |
| AgentTree.CancelStaysInTheSubtree | extensions/queue/cancel.go:77-92 | for every caller, the empty one included, a cancellation is planned iff the target is in the caller's subtree, with exactly the requested selector |
| AgentTree.AgentRecords.RemoveAgent | extensions/agents/main.go:140-149 | filters in place: exactly the records with the ID go, order kept |
| AgentTree.AgentRecords.AgentsKill | extensions/agents/main.go:642-667 | removes exactly the subtree's records, order kept; nothing when the host refuses |
| AgentTree.KillRemovesTheSubtree | extensions/agents/main.go:658-667 | the removed records are the agent's own and those with it on their parent chain |
| ThinkingModes.ThinkingModeIDForSet | cmd/modeltier.go:347-376 | the ID of the row with the level's own ID, else its label, else the nearest ranked row with ties to the stronger; with non-empty row IDs the result is empty iff no row resolves or the level is off |
| ThinkingModes.LabelsAreEvenlySpaced | cmd/modeltier.go:378-440 | the labels None to Max are whole steps on one scale with Medium-Low half way, each level stands at its label, and nothing else has a rank |
| ThinkingModes.ResolutionIsUnique | cmd/modeltier.go:347-376 | those rules single out at most one row |
| ThinkingModes.HigherLevelIsNeverWeaker | cmd/modeltier.go:324-376 | a higher level never resolves to a weaker mode when the two rows, if found by ID, carry their own labels |
| ThinkingModes.AllLevelsResolveOrNone | cmd/modeltier.go:324-376 | once one level resolves to a row with its own label, every active level resolves |
| ThinkingModes.LevelTurnsOffIff | cmd/modeltier.go:347-376 | an active level resolves to "None" iff the first row with its ID is so called, or no row has its ID or label and every other ranked row is ranked above twice the level |
| ThinkingModes.LmsReasoningToModes | cmd/localmodels.go:385-420 | builds one row per usable option in order, repeated IDs skipped, "On" for the medium row of a boolean-only model |
| ThinkingModes.LmsRowOfOption | cmd/localmodels.go:335-357 | off is none, on is medium, the standard efforts are themselves under their labels, and other options are unusable |
| ThinkingModes.OnOffOptions | cmd/localmodels.go:390-400 | an on/off model is one that declares two options, one for none and one for medium |
| ThinkingModes.LmsRowsAreTheOptions | cmd/localmodels.go:385-420 | the set offers exactly the IDs of the declared options, each under its one label |
| ThinkingModes.OnOffModelTurnsOff | cmd/localmodels.go:390-413 | on an on/off model "medium" resolves to the "On" row and every other active level to "None" |
| ThinkingModes.MoreTurnsOffExactlyForOnOffModels | cmd/main.go:545-556 | for every declared option list, some level turns thinking off although a lower one turns it on iff the model is on/off only |

## Left out

- LogDispatcher.EveryRunKeepsInv: marshalling a batch is taken to succeed, whether anyone listens is read at one instant per dispatch, an extension that fails on a batch counts as having got it, and the 30ms ticker is an arbitrary tick; the dispatcher is modelled on values because its threads share it step by step.
- ResultCache.ResultCache.RunPage: JSON decoding; the sha256 cache key is an arbitrary non-empty string, and the current git HEAD is a parameter.
- ResultCache.ResultCache.RunQuery: parameter validation, scope paths and the ripgrep run are outside; their outcome is the parameter `fetched`, and elapsed_ms is not part of the reply.
- ListEntries.DeriveDirs: filepath.Dir is modelled for paths without empty, "." or ".." components, which is what ripgrep prints; there its cleaning is the identity.
- LoopGuard.DetectToolLoop: JSON canonicalization of tool inputs and case folding of the scope string are taken as done.
- ShellCommands.CheckCommandPermission: glob matching, case folding and the denied-variable search are parameters; a command is a sequence of runes, so invalid UTF-8 is not modelled.
- DeviceCode.PollDeviceCode: a poll is dated by the clock reading that admitted it; 64-bit overflow of durations (intervals of centuries) is not modelled.
- Plans.PlanStore.PlanUpdate: time stamps, the attempts counter, acceptance checks, and the read-only plan tools are not modelled; persistence is the flag `saved`; a plan ID is the clock reading passed to PlanCreate.
- ConfigMigration.EveryCrashPointIsSafe: YAML is taken as parsed, with distinct keys as YAML demands; directory creation counts as part of the write.
- TraceProto.RequestRoundTrip: the request is shorter than 2^63 bytes, as every Go slice is.
- Wire.AppendVarint: bytes and words are integers in range; masking and shifting are written as remainder and division.
- Editor.EditFile: reading and writing the file, and the JSON of the reply.
- EditDistance.BoundedEditDistance: lower-casing and directory listing around it.
- ThinkingModes.LmsReasoningToModes: mode descriptions; an absent capability is the empty option list. The catalogue's own mode sets are table lookups.
- AgentTree.AgentRecords.AgentsKill: focus handling and notifications.
- The parsing of ripgrep's JSON into matches with context lines, and the other plan and agent tools: no property beyond those proved here.
- HTTP, OAuth exchange, process execution, the terminal UI, the extension ABI and the model catalogue: external effects, plumbing or table lookups.
