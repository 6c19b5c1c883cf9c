# Verified kernels of the agentic operating system

This project models the parts of the repository whose behaviour comes from loops, state and
string languages, and proves what they promise over every input, run or interleaving.
`dafny verify dfyconfig.toml` checks all of it.

- **Agent graphs** (`AgentGraph`, `AgentRun`, `AgentReach`, `AgentOrder`, `AgentAccounts`): the
  breadth-first walk over a compiled agent graph, with disabled nodes, undeclared targets, a visit
  bound, a deadline, two model calls per node and governed tool calls. `AgentRun` holds the loops;
  `AgentGraph.Finish` is the function they are tied to; the other three modules prove which nodes
  run, in which order and until when, and what a run reports, in terms of the graph, the answers
  and the clock alone. Model, tools and clock are an environment that may answer anything.
- **Session brokers** (`SingleUseTokens`, `TerminalSessions`, `TerminalSafety`, `TerminalTimers`,
  `TerminalBroker`): token acceptance with a reaper, and the terminal broker as a state machine
  whose steps are the stretches of code between two awaits. `TerminalTimers` tells the timers by
  the events of a run alone. `TerminalBroker` is the object form; each handler moves the machine
  by one step.
- **SQL doors** (`SqlStatement`, `SqlText`, `SqlPatterns`, `SqlGuard`, `SqlForms`, `SqlRoundTrip`,
  `SqlViews`, `SqlExamples`, `Identifiers`): the read guard, the eleven statement shapes of the
  write guard as regular expressions with a backtracking search, the authorisation of targets, and
  the identifiers two services derive from one identity. `SqlText` and `SqlForms` write the
  accepted statements out by positions, without patterns, and prove that the gate accepts exactly
  those.
- **Folder grants** (`FolderPaths`, `FolderMeaning`, `FolderSelection`, `FolderToggle`,
  `FolderGrants`): compressing ticked items into folder grants, reconciling them with the stored
  grants, and reading the ticks back.
- **Streams, texts, histories** (`EventStream`, `Sanitizer`, `UndoHistory`, `CookieCodec`): the
  chunked event stream, the page sanitiser, the bounded undo and redo stacks, and the signed
  proxy cookie.
- `Prelude`, `TextRuns`, `Trimming`, `Splitting`: shared vocabulary for text.

Text is ASCII throughout. White space is Python's (`\t` to `\r`, `\x1c` to space) in the Python
services and JavaScript's (`\t` to `\r`, space) in the browser and Node parts.

## Where the code differs from what is said of it

The model follows the code. The differences below are proved, each with its exact condition.

- `os-ui/components/agents/GrantPickers.tsx:92-93` and its hint say a single file can be granted
  by its id; `os-ui/lib/agents/simple-edit.ts:174` and `:244` skip item grants of kind `files`,
  as the comment at `GrantPickers.tsx:62-63` says. A file tick that no folder grant covers is
  lost (`FolderGrants.FileTickIsLost`). `FolderGrants.RoundTripIff` and `FolderGrants.CommitTicks`
  give the condition in terms of the feed, the ticks and the stored grants.
- A stored folder path that is not in normal form (`os-ui/lib/agents/system-schema.ts:237` keeps
  the spelling) is never matched by the removal, which compares with the normalised path
  (`FolderGrants.HandWrittenFolderStays`; the exact condition is that of
  `FolderGrants.TargetsAreTexts`).
- `images/extensions/terminal-broker/server.js:21` says the pod is destroyed on disconnect. A
  client that leaves before the create lands leaves a pod for the janitor
  (`TerminalSafety.EarlyDisconnectLeavesPod`); `TerminalSafety.PodRemainsIff` tells by the order
  of events which pods remain.
- Undo or redo pressed while another action is in flight, or whose commit fails, loses the
  document it popped (`UndoHistory.UndoKeepsTimelineIff`, `UndoHistory.RedoKeepsTimelineIff`).
- `sanitize` is not idempotent when its cut leaves a space at the end
  (`Sanitizer.IdempotentIff`, `Sanitizer.CutAtSpaceHappens`).
- A caller below builder loses its personal schema when one of its domains sanitises to the
  same name, since domains are tested first (`SqlGuard.DomainTakesAwayIff`; one family of inputs
  in `SqlExamples.DomainHidesPersonalSchema`). An identity without any letter or digit may write
  to `personal_user` through the guard, but the data runner refuses it
  (`Identifiers.IngestAgreesWithGuard`, `SqlExamples.WordlessIdentityWrites`,
  `SqlExamples.WordlessIdentityIsRefused`).
- The comment at `images/extensions/query-tool/execute_guard.py:75-83` describes the body of a
  view as a plain select that exposes one table; the pattern at `:84-88` admits any text between
  `select` and the last `from` (`SqlViews.AnyBodyIsRead`): the union of two tables
  (`SqlExamples.ViewOfTwoTablesIsRead`), or a second table as a `table` subquery beside a single
  `from` (`SqlExamples.ViewOfTableQueryIsRead`). `SqlViews.AcceptedViewIff` says exactly when the
  last `from` of an accepted body is its only word that introduces a table, `from` or `table`: when
  neither is in the free text or names the source. For "one table" that is sufficient and not
  necessary, since a plain select may hold another `from`, as in the part of a date
  (`SqlExamples.PlainViewMayHoldTwoFroms`), or spell either word in a literal.
- The comment at `os-ui/components/agents/GrantPickers.tsx:115-116` gives marketplace items a
  picker of their own so that nothing grantable is lost; a grant made there is dropped by the
  next tick in the tree, for every kind but files, and for files it stays
  (`FolderGrants.GrantOutsideFeedStaysIff`).

## Model

| member | source | states |
|---|---|---|
| AgentGraph.ModelClient.Call | images/base/agent-runtime/interpreter.py:240-264 | A call publishes exactly its own usage and clears the one before first, so a failed call never reports its predecessor's |
| AgentGraph.EveryRunKeeps | images/base/agent-runtime/interpreter.py:158-210 | Induction over runs: what holds of the report at the start and is kept by each visit holds at the end, on every graph, bound and deadline; the walk it inducts over terminates on cycles and duplicate targets |
| AgentGraph.HandoffsInOrder | images/base/agent-runtime/interpreter.py:127-129 | The handoffs of a node are the targets of exactly the commands that have it as their source, one for each, in the order of the commands |
| AgentGraph.HandoffsIff | images/base/agent-runtime/interpreter.py:127-129 | A node hands off to t exactly if the command from it to t is listed, and has no handoffs exactly if no command is its own |
| AgentGraph.DeclaredIff | images/base/agent-runtime/interpreter.py:126 | An id is declared exactly if some entry has it, and then as the last entry that does |
| AgentGraph.ValidGraphIff | images/base/agent-runtime/interpreter.py:92-109 | A graph passes validation exactly if it has nodes, all with ids, and one of them is the entrypoint |
| AgentRun.TakeUsage | images/base/agent-runtime/interpreter.py:149-156 | The input, output and total sums grow by exactly what the last call published and usage counts as seen; when it published nothing, nothing changes |
| AgentRun.RunTwoTier | images/base/agent-runtime/interpreter.py:175-190 | A node's plan call comes first and feeds the execute call; either may fail without ending the walk; both are charged |
| AgentRun.CallTools | images/base/agent-runtime/interpreter.py:193-199 | One governed call per tool, in order, appended to the steps; a tool ran exactly when its effect is allow, and no answer is a denial |
| AgentRun.Enqueue | images/base/agent-runtime/interpreter.py:203-209 | Appends the targets not yet visited, in order, duplicates included |
| AgentRun.FanOut | images/base/agent-runtime/interpreter.py:201-212 | Members of a supervisor, then handoffs; END is reached at a supervisor or a node that is the source of no command, and nowhere else |
| AgentRun.ReportIsSound | images/base/agent-runtime/interpreter.py:112-226 | Of every run, in terms of the graph, the answers and the clock: no node runs twice, only reachable enabled nodes run, all of them without a deadline under a sufficient bound; the order is that of first mention, and the run ends for want of nodes, time or visits; steps, calls, usage, output and ok are those of the path |
| AgentRun.RunGraph | images/base/agent-runtime/interpreter.py:112-226 | The imperative loop returns the report of the walk, and that report is sound in the sense above |
| AgentReach.PathIsBreadthFirst | images/base/agent-runtime/interpreter.py:158-210 | Under every bound and deadline the path is duplicate-free, made of nodes reached over members of supervisors and commands, and in non-decreasing shortest distance from the entrypoint, although nodes are marked on pop |
| AgentReach.PathIsExact | images/base/agent-runtime/interpreter.py:158-212 | Without a deadline the path has exactly as many nodes as the bound and the reachable set allow, and is the whole reachable set if and only if the bound suffices |
| AgentReach.PathWithinLimit | images/base/agent-runtime/interpreter.py:168-169 | Never more nodes than the bound, also with a deadline |
| AgentReach.PoppedAtDistance | images/base/agent-runtime/interpreter.py:158-165 | A node popped for the first time is at the distance its queue entry was pushed with, however many entries it has |
| AgentReach.FinishIsOrdered | images/base/agent-runtime/interpreter.py:158-212 | From any state of the loop that satisfies the level invariant, the rest of the run keeps the path ordered by distance and, without a bound or deadline hit, exhausts the reachable nodes |
| AgentReach.EntrypointRunsFirst | images/base/agent-runtime/interpreter.py:92-109 | In a graph that passes validation, without a deadline, something runs exactly when the entrypoint is enabled and the bound is positive, and then the entrypoint is first |
| AgentOrder.PathIsDiscovered | images/base/agent-runtime/interpreter.py:158-212 | The path of every run is determined to the last tie: it is an initial part of the runnable nodes that it itself makes known, by first mention, the members of a supervisor before the targets of its commands; and it is all of them unless the next clock reading is past the deadline or the bound is reached, every visit having been begun in time |
| AgentOrder.FinishKeepsOrder | images/base/agent-runtime/interpreter.py:158-212 | The same from any state of the loop in which path and queue agree |
| AgentAccounts.RunIsAccounted | images/base/agent-runtime/interpreter.py:145-226 | Steps are the tools of the path in order with the environment's verdicts, denied without one, marked as a write if the name holds "write", and run exactly if allowed; the calls are two per node, a plan on the reasoning tier and the plan's execution on the node's own model or the common one; usage is the three sums over calls that reported it, a missing total being that of its parts; output is what the last call came to, trimmed or the error; ok holds if and only if some path node supervises or is the source of no command |
| AgentAccounts.UsageSeenIffReported | images/base/agent-runtime/interpreter.py:145-156 | Unless some call reported a usage the three sums are zero |
| AgentAccounts.LowerLimitCuts | images/base/agent-runtime/interpreter.py:158-212 | From any state, two runs that differ in the bound agree until the lower one is hit |
| AgentAccounts.BoundedRunIsPrefix | images/base/agent-runtime/interpreter.py:158-212 | Without a deadline the run bounded by k is exactly the first k nodes of the longer run, with their steps and model calls |
| SingleUseTokens.TokenGate.Verify | images/extensions/terminal-broker/server.js:87-108 | Accepts exactly unexpired claims with a user, an allowed role and an unused sid (and, for the workbench, a domain that is among their domains), and then remembers the sid with its expiry, and otherwise nothing |
| SingleUseTokens.TokenGate.Reap | images/extensions/terminal-broker/server.js:110-113 | Forgets exactly the entries that have expired |
| SingleUseTokens.StepRemembers | images/extensions/workbench-broker/server.js:119-159 | Verification, reaping and the clock keep: every accepted token is expired or remembered under its own expiry |
| SingleUseTokens.NoTokenAcceptedTwice | images/extensions/workbench-broker/server.js:128-159 | In every run with a monotone clock only tokens in order when they came are accepted, none is accepted twice although the reaper forgets, and the sid of every accepted unexpired token is in the used set |
| TerminalSafety.StepKeepsInv | images/extensions/terminal-broker/server.js:292-399 | Each event of sessions, cluster, clock and overlapping janitor callbacks keeps the invariant of sessions, pods and sweeps |
| TerminalSafety.RunKeepsInv | images/extensions/terminal-broker/server.js:272-447 | The invariant in every state of every interleaving |
| TerminalSafety.SessionsAreBounded | images/extensions/terminal-broker/server.js:284-333 | Never more live sessions than the limit; none older than the maximum, up to how late a timer fires; a session has left and issued its one delete exactly when it is closed |
| TerminalSafety.JanitorSparesLiveSessions | images/extensions/terminal-broker/server.js:429-447 | When a janitor delete can land its target is not live, and its pod's creation stamp was over the maximum age; so is the pod itself, up to the one-second grain of stamps |
| TerminalSafety.SweepLeavesNoOldPod | images/extensions/terminal-broker/server.js:429-447 | After a sweep every surviving pod appeared after the listing, or was at the sweep at most the maximum age plus the lag of a timer, or its delete failed |
| TerminalSafety.PodRemainsIff | images/extensions/terminal-broker/server.js:231-242 | By the order of events: a session's pod remains exactly when its create lands and nothing after it deletes the pod, the session's own delete or the janitor's; so also when the own delete lands first or fails, until the janitor reaps it |
| TerminalSafety.RunTellsPods | images/extensions/terminal-broker/server.js:231-447 | In every run, which pods exist is told by the creates and successful deletes in their order |
| TerminalSafety.PassedOverIsYoung | images/extensions/terminal-broker/server.js:438-441 | A pod the janitor passes over is at most the maximum age plus the lag of a timer, also when it is spared for being live |
| TerminalSafety.ClosedSessionLeavesPodIff | images/extensions/terminal-broker/server.js:302-323 | Once its delete is answered, a closed session still has a pod exactly when the create landed and that delete failed or found nothing, until the janitor removes it |
| TerminalSafety.EarlyDisconnectLeavesPod | images/extensions/terminal-broker/server.js:333-345 | The run in which the client leaves before its create lands: the pod outlives the answered delete |
| TerminalSafety.ClosedIsForever | images/extensions/terminal-broker/server.js:302-308 | Whatever happens later, a closed session stays closed, out of the set, with one delete issued |
| TerminalSafety.LateEventsAreInert | images/extensions/terminal-broker/server.js:325-333 | Triggers and messages of a closed session change at most its own timers |
| TerminalSafety.OverdueTimerCanFire | images/extensions/terminal-broker/server.js:325-330 | The clock is only ever held back by a timer that can fire |
| TerminalTimers.TimersAreExact | images/extensions/terminal-broker/server.js:325-330 | Told by the events alone: in every reachable state the idle deadline of a live session is its last opening or message plus the idle limit, the other one its opening plus the maximum; so it was active within the idle limit and opened within the maximum, up to the lag; a closed session has no deadline but one set by a late message |
| TerminalTimers.EndsAreDue | images/extensions/terminal-broker/server.js:302-330 | An idle timer ends a live session only after the idle limit without activity, the other timer only after the maximum, and whatever ends it leaves no timer pending |
| TerminalBroker.Broker.HandleSession | images/extensions/terminal-broker/server.js:292-330 | Adds one new open session with both deadlines set from now, which is the Open step; every session opened before keeps agreeing with its record |
| TerminalBroker.Broker.Upgrade | images/extensions/terminal-broker/server.js:272-290 | The token is spent first, also when the broker is full; 503 only when the sessions are as many as the limit; otherwise exactly one new session opens beside the others |
| TerminalBroker.Broker.Cleanup | images/extensions/terminal-broker/server.js:302-323 | Only the first cleanup of a session closes it, clears both timers, removes it and issues the delete, which is the Trigger step; a later one only uses up the timer that fired; all the other sessions keep agreeing with their records |
| TerminalBroker.Broker.ResetIdle | images/extensions/terminal-broker/server.js:325-330 | Sets the session's idle deadline to now plus the idle limit and nothing else: the Message step |
| TerminalBroker.Broker.Environment | images/extensions/terminal-broker/server.js:292-447 | Steps of the cluster, the clock and pending requests leave every session object in agreement |
| TerminalBroker.Broker.HasSession | images/extensions/terminal-broker/server.js:439 | Finds a name exactly when a live session has it |
| TerminalBroker.Broker.JanitorTurn | images/extensions/terminal-broker/server.js:437-444 | Goes on to delete exactly a listed pod that is not live and whose stamp is over the maximum age: the Examine step |
| TerminalBroker.EnvironmentMoves | images/extensions/terminal-broker/server.js:231-242 | An event of no session leaves every session's record and liveness alone |
| FolderPaths.NormaliseIsCanonical | os-ui/lib/core/folders.ts:32-39 | Normalising keeps the segments and is idempotent |
| FolderPaths.SegmentsOfParts | os-ui/lib/core/folders.ts:32-39 | The segments of a path are those of its parts between slashes, in order; a part without a slash is one trimmed segment, or none if it is blank |
| FolderPaths.NormaliseInjective | os-ui/lib/core/folders.ts:32-39 | Two paths normalise alike exactly when they have the same segments |
| FolderPaths.DepthCountsSegments | os-ui/components/core/FolderTree.tsx:710 | The sort key counts segments, except that the root ties with the top-level folders |
| FolderPaths.UnderIsSegmentPrefix | os-ui/lib/core/folders.ts:85-90 | The string test for being inside a folder is segment prefix, so a sibling with a longer name is outside |
| FolderSelection.CandidatePaths | os-ui/components/core/FolderTree.tsx:707-709 | Each row and each folder that holds an item, once |
| FolderSelection.SortDeepestFirst | os-ui/components/core/FolderTree.tsx:710 | The same folders, deepest first |
| FolderSelection.GrantRoot | os-ui/components/core/FolderTree.tsx:696-703 | One grant of the root exactly when it may be granted and is fully ticked and not empty |
| FolderSelection.GrantFolder | os-ui/components/core/FolderTree.tsx:712-721 | A folder is granted exactly when it is fully ticked and newly covers an item |
| FolderSelection.ItemGrants | os-ui/components/core/FolderTree.tsx:723-725 | The ticked items of the feed that no granted folder covers, one for each feed entry |
| FolderSelection.ComputeSelection | os-ui/components/core/FolderTree.tsx:683-728 | The selection means exactly the ticked items of the feed, item grants lie outside folder coverage, there are at most as many folder grants as entries they cover and one item grant for each other ticked entry, what folders cover is exactly the items whose own folder is fully ticked, and the granted folders are exactly those that hold an item and are fully ticked |
| FolderSelection.NeverMoreThanTicked | os-ui/components/core/FolderTree.tsx:712-727 | So grants never outnumber the ticked entries of the feed |
| FolderSelection.NewCoverHoldsItem | os-ui/components/core/FolderTree.tsx:712-721 | A full folder that covers something new after all deeper full ones holds an item itself |
| FolderToggle.ComputeTriState | os-ui/lib/core/folders.ts:244-255 | All, none or some of the ids are ticked; an empty folder is none |
| FolderToggle.ToggleFolder | os-ui/components/core/FolderTree.tsx:251-260 | A full folder is cleared, any other filled, and nothing outside it changes |
| FolderGrants.SetFolderAppends | os-ui/lib/agents/simple-edit.ts:286-301 | Setting a folder grant that no entry matches appends a Read grant; setting one that stands at Read changes nothing |
| FolderGrants.SetFolderUpdates | os-ui/lib/agents/simple-edit.ts:286-301 | Where an entry matches, the first one is set to Read in place and no other changes |
| FolderGrants.RemoveFolder | os-ui/lib/agents/simple-edit.ts:317-327 | Removes exactly the grants of that normalised path and scope |
| FolderGrants.RemoveItem | os-ui/lib/agents/simple-edit.ts:242-244 | Removes exactly the grants of the id, and nothing of Files |
| FolderGrants.AddFolders | os-ui/components/agents/GrantPickers.tsx:80-85 | Adds a Read grant for each wanted folder without one, and keeps every stored grant |
| FolderGrants.RemoveFolders | os-ui/components/agents/GrantPickers.tsx:86-88 | Removes exactly the normalised folder grants no longer wanted |
| FolderGrants.AddItems | os-ui/components/agents/GrantPickers.tsx:94-98 | Adds a Read grant of the right layer for each wanted item of the family without one, none for Files |
| FolderGrants.RemoveItems | os-ui/components/agents/GrantPickers.tsx:99-101 | Removes exactly the item grants no longer wanted, none for Files |
| FolderGrants.ApplySelection | os-ui/components/agents/GrantPickers.tsx:65-104 | A minimal diff: of the stored grants exactly those that stay are kept untouched; every grant that is new is asked for and Read only, without an id and a layer if it is a folder's, and with a layer exactly for a dataset below gold if it is an item's; and everything asked for is there |
| FolderGrants.ReconciledGrants | os-ui/components/agents/GrantPickers.tsx:65-104 | The same for every outcome of reconciling, told of the grants themselves |
| FolderGrants.CheckedAfter | os-ui/components/agents/GrantPickers.tsx:171-181 | The ticks read back after reconciling, for every kind, feed and stored list: the ticks of the feed, less the file ticks outside fully ticked folders, and what stored grants keep |
| FolderGrants.OwnGrantIff | os-ui/components/core/FolderTree.tsx:712-725 | A tick needs a grant of its own exactly when the folder that holds the item is not fully ticked |
| FolderGrants.KeptWithinIff | os-ui/lib/agents/simple-edit.ts:317-323 | What stored grants keep is harmless exactly when, for Files, every stored item is ticked, and everything under each stored folder in a spelling of its own is ticked |
| FolderGrants.RoundTripIff | os-ui/components/agents/GrantPickers.tsx:65-181 | The picker shows what was ticked if and only if every tick is in the feed or kept, what is kept is ticked, and for Files every tick outside a fully ticked folder is kept |
| FolderGrants.RoundTrip | os-ui/components/agents/GrantPickers.tsx:65-181 | For datasets and knowledge under normalised paths the round trip always holds |
| FolderGrants.CommitTicks | os-ui/components/core/FolderTree.tsx:683-728 | From ticks through selection and reconciliation to the committed grants, for every kind: which ticks are read back, and that they are the ticks made if and only if a condition on feed, ticks and stored grants holds; every new grant is Read only and of a ticked item or a fully ticked folder of this scope; and nothing is dropped but normalised folder grants and items of the family that need no grant of their own |
| FolderGrants.WorkflowsRoundTrip | os-ui/components/agents/GrantPickers.tsx:171-186 | The picker without folders round-trips if and only if everything is ticked or no stored folder grant is of the root |
| FolderGrants.FileTickIsLost | os-ui/lib/agents/simple-edit.ts:171-174 | Ticking one of two files records nothing |
| FolderGrants.HandWrittenFolderStays | os-ui/lib/agents/simple-edit.ts:317-323 | A stored folder path that is not normalised cannot be unticked |
| FolderGrants.GrantOutsideFeedStaysIff | os-ui/components/agents/GrantPickers.tsx:92-101 | A granted item outside the feed of the tree keeps its grant, and its tick, through the next tick exactly if it is a file |
| FolderGrants.TargetsAreTexts | os-ui/lib/agents/simple-edit.ts:286-327 | On stored texts: an edit finds a folder grant exactly when the text is the normalised form asked for, and the picker's key matches exactly when both normalise alike |
| FolderGrants.DepthIsSortKey | os-ui/components/core/FolderTree.tsx:710 | The depth by which folders are handled is the number of pieces of the normalised text |
| Identifiers.SanitizeIsCanonical | images/extensions/query-tool/execute_guard.py:220-227 | Every sanitised identifier is in the language `[a-z0-9]+(_[a-z0-9]+)*` |
| Identifiers.FixedPointIffCanonical | images/extensions/query-tool/execute_guard.py:220-227 | The fixed points are exactly the canonical identifiers; sanitising is idempotent |
| Identifiers.SanitizeIsWords | images/extensions/query-tool/execute_guard.py:220-227 | A sanitised identifier is the lower-case alphanumeric words joined by single bars, and "user" if there is none |
| Identifiers.AlnumsAre | images/extensions/query-tool/execute_guard.py:226 | The characters kept are the small letters and the figures |
| Identifiers.CoreIsWords | images/extensions/query-tool/execute_guard.py:226 | Collapsing and stripping is taking the alphanumeric words and joining them with single bars |
| Identifiers.JoinThenRuns | images/extensions/query-tool/execute_guard.py:220-227 | The words can be read back from the identifier |
| Identifiers.SchemasCollideIff | images/extensions/query-tool/execute_guard.py:230-233 | Two identities share a personal schema exactly when their lower-case words are the same, none counting as "user" |
| Identifiers.SlugIsSanitize | images/extensions/data-runner/app.py:98-102 | The data runner's slug is the guard's identifier, except that it is empty where the guard says "user" |
| Identifiers.PersonalIsStable | images/extensions/data-runner/app.py:206-207 | A personal schema is canonical and both services leave it unchanged |
| Identifiers.IngestAgreesWithGuard | images/extensions/data-runner/app.py:199-213 | An ingest writes only to the personal schema the guard knows, and is let through exactly when caller and dataset have a word and the requested schema is absent or sanitises to it; it is refused first for the caller, then for the dataset |
| SqlStatement.SingleStatementIff | images/extensions/query-tool/execute_guard.py:172-187 | What is left is t exactly when the text is t, trimmed and without semicolons and comment signs, in white space with at most one semicolon behind it |
| SqlStatement.RefusedIff | images/extensions/query-tool/execute_guard.py:172-187 | A text is refused for a comment exactly if it holds a comment sign, as empty exactly if it is white space with at most one semicolon, and as several statements in every other case in which it is not one |
| SqlStatement.SearchIsRun | images/extensions/query-tool/execute_guard.py:200-201 | The word-boundary search finds a verb exactly when some maximal run of word characters is that verb |
| SqlStatement.ReadDoorIff | images/extensions/query-tool/execute_guard.py:151-207 | The read door returns t exactly when t is the single statement, its leading run of letters is one of eight reading words, and none of its whole words is one of twenty forbidden ones, all in any case; a statement that starts otherwise is refused for that |
| SqlStatement.ReadDoorIsIdempotent | images/extensions/query-tool/execute_guard.py:166-207 | What it returns is trimmed, comment-free and semicolon-free, and passes again unchanged |
| SqlPatterns.SearchIsSound | images/extensions/query-tool/execute_guard.py:60-130 | The greedy backtracking search finds only matches in the language of the pattern |
| SqlPatterns.SearchIsComplete | images/extensions/query-tool/execute_guard.py:60-130 | It finds one whenever there is one |
| SqlPatterns.ApartIsSound | images/extensions/query-tool/execute_guard.py:60-130 | A syntactic test on two patterns that guarantees no text matches both |
| SqlPatterns.AgreeIsSound | images/extensions/query-tool/execute_guard.py:60-130 | A syntactic test that guarantees equal captures, however the text is matched |
| SqlGuard.ShapesAreApart | images/extensions/query-tool/execute_guard.py:60-130 | Any two of the eleven shapes pass the first test |
| SqlGuard.OneReading | images/extensions/query-tool/execute_guard.py:60-130 | A text has at most one shape, and its schema and table captures are determined |
| SqlGuard.ClassifyIsComplete | images/extensions/query-tool/execute_guard.py:256-289 | Whatever match exists, the cascade of tests returns that shape and those captures |
| SqlGuard.OrderIsIrrelevant | images/extensions/query-tool/execute_guard.py:256-289 | The order of the tests does not matter |
| SqlForms.BatchTailIff | images/extensions/query-tool/execute_guard.py:107-114 | The tail of a batch delete in readable form: `where`, `_batch_id`, an equals sign, and between quotes a non-empty run of letters, digits, bars, dots, colons and hyphens, up to the end |
| SqlForms.MergeTailIff | images/extensions/query-tool/execute_guard.py:99-106 | The tail of a merge: an optional name with or without `as`, then `using`, and `on` and `when` as words, in this order |
| SqlForms.ExpireTailIff | images/extensions/query-tool/execute_guard.py:115-122 | The tail of an expiry: `execute expire_snapshots` and one retention threshold of digits and `d` or `h` in quotes |
| SqlForms.OptimizeTailIff | images/extensions/query-tool/execute_guard.py:123-130 | The tail of a compaction: `execute optimize`, bare or with one file size threshold of digits and one to three letters in quotes |
| SqlForms.AsSelectIff | images/extensions/query-tool/execute_guard.py:64-71 | The tail of a table made from a query: `as`, then `select` as a word, then any text |
| SqlForms.ReadingIffWrite | images/extensions/query-tool/execute_guard.py:60-130 | What the patterns match, with their captures, is exactly the statements written out by positions, for all eleven shapes: words, target and tail |
| SqlForms.WriteDoorIff | images/extensions/query-tool/execute_guard.py:236-304 | The parser accepts exactly the single statements of the written-out forms and returns the kind, schema and table of the form; any other single statement is refused as not allowed, any other text for what makes it no single statement |
| SqlGuard.DoorsAreDisjoint | images/extensions/query-tool/execute_guard.py:166-304 | No text passes both doors, and each refuses the other's texts for being of the wrong kind |
| SqlGuard.AcceptedTargetIsCanonical | images/extensions/query-tool/execute_guard.py:307-342 | Every accepted target schema is canonical and a fixed point of the sanitiser |
| SqlForms.GateIff | images/extensions/query-tool/execute_guard.py:307-342 | Accepted exactly when identity and role are given, the text is one statement of the written-out forms with that target, and the target is a domain schema of a builder or, if no domain has that name, the personal schema |
| SqlForms.GateRefusal | images/extensions/query-tool/execute_guard.py:307-342 | Refused first for a missing identity or role, then for the text, then for the target: for the role if a domain of the caller has the name, and otherwise as none of the caller's |
| SqlGuard.DomainTakesAwayIff | images/extensions/query-tool/execute_guard.py:317-331 | A further domain takes a write away exactly when it sanitises to the caller's own personal schema, which the write targets, and the role is below builder |
| SqlRoundTrip.WrittenIsRead | images/extensions/query-tool/execute_guard.py:60-304 | A statement that opens with a shape's words and any schema and table, and goes on with a tail of the shape, is read back with that kind, schema and table |
| SqlRoundTrip.SchemaIsRead | images/extensions/query-tool/execute_guard.py:60-63 | The same for creating a schema, which has no table |
| SqlRoundTrip.DropIsRead | images/extensions/query-tool/execute_guard.py:72-75 | Dropping any named table is read back whole |
| SqlRoundTrip.AppendIsRead | images/extensions/query-tool/execute_guard.py:95-98 | Appending the rows of any query is read back with its target |
| SqlViews.ViewTailIff | images/extensions/query-tool/execute_guard.py:84-88 | The tail of a view in readable form: `as`, `select`, any text, a last `from` at a word boundary, one source table |
| SqlViews.ViewIsRead | images/extensions/query-tool/execute_guard.py:84-88 | Every statement that opens as a view of any target and has such a tail is accepted and read back with its target |
| SqlViews.AnyBodyIsRead | images/extensions/query-tool/execute_guard.py:75-88 | Every text before the last `from` is accepted; the body has a single `from`, or a single word that introduces a table, exactly when the text holds none and the source is not called so |
| SqlViews.AcceptedViewIff | images/extensions/query-tool/execute_guard.py:75-88 | Every accepted view, however spaced, has such a tail, and a single `from` or table word under exactly those conditions |
| SqlViews.ViewWords | images/extensions/query-tool/execute_guard.py:84-88 | The whole words of a view's tail are `as`, `select`, those of the free text, `from`, and the source's |
| SqlExamples.ViewOfTwoTablesIsRead | images/extensions/query-tool/execute_guard.py:75-88 | A view over the union of two tables is accepted, with more than one FROM in its body |
| SqlExamples.ViewOfTableQueryIsRead | images/extensions/query-tool/execute_guard.py:75-88 | A view with a single `from` and a second table in a `table` subquery is accepted; its table words are not one |
| SqlExamples.PlainViewMayHoldTwoFroms | images/extensions/query-tool/execute_guard.py:75-88 | A plain select from one table may hold two, as in the part of a date, and is accepted |
| SqlExamples.DomainHidesPersonalSchema | images/extensions/query-tool/execute_guard.py:307-342 | For every plain name: a creator may drop a table of its personal schema, and no longer once it joins the domain called "personal-" and that name |
| SqlExamples.DomainHidesAtOneInput | images/extensions/query-tool/execute_guard.py:307-342 | The same for the identity "a" and the domain "personal-a" |
| SqlExamples.WordlessIdentityWrites | images/extensions/query-tool/execute_guard.py:220-233 | Every identity without a letter or digit may write to `personal_user` |
| SqlExamples.WordlessIdentityIsRefused | images/extensions/data-runner/app.py:199-203 | The data runner refuses every such identity |
| EventStream.PiecesGlueBack | os-ui/components/agents/BuildRunPanel.tsx:1019 | Splitting on blank lines loses nothing, no piece holds one, and none but the last ends in a newline, so each is cut at the first |
| EventStream.PiecesOfMore | os-ui/components/agents/BuildRunPanel.tsx:1018-1020 | Splitting the buffer and one more chunk continues the split of the whole text |
| EventStream.ReadStream | os-ui/components/agents/BuildRunPanel.tsx:1011-1042 | For any way of cutting a stream into chunks, the state reached is what the events of all but the last piece of the whole text tell; and if none of them ends the run, the error says that the stream ended early |
| EventStream.DecodeIff | os-ui/components/agents/BuildRunPanel.tsx:1022-1027 | A frame is an event exactly if it has an `event:` line and a `data:` line; its name is the trimmed rest of the first of the former, its data what the parser makes of that of the latter |
| EventStream.WrittenIsRead | os-ui/components/agents/BuildRunPanel.tsx:1022-1027 | A frame written as a name and a payload is read back as that event |
| EventStream.HandleInOrder | os-ui/components/agents/BuildRunPanel.tsx:1021-1038 | The inner loop handles the complete frames of a read in order |
| EventStream.BannerIsExact | os-ui/components/agents/BuildRunPanel.tsx:958-986 | Every part of what is shown, told by the history: the nodes started and completed since the last `done`, each once, in order of first report; the node, index and total of the last that gave them; the tool, status and index of the last step unless a node was started after it; the result of the last `done` and the error of the last `error` |
| EventStream.FirstsInOrder | os-ui/components/agents/BuildRunPanel.tsx:968-983 | Each node is listed once, at the place of its first report, in the order of those places |
| EventStream.SettledIff | os-ui/components/agents/BuildRunPanel.tsx:1021-1042 | A run settles exactly when some piece before the last is a terminal frame; one without its blank line is lost |
| EventStream.GroupSteps | os-ui/components/agents/BuildRunPanel.tsx:257-270 | The groups cover the steps without gaps, each holds only steps of one key and shows its first, and neighbours differ |
| EventStream.GroupingIsUnique | os-ui/components/agents/BuildRunPanel.tsx:257-270 | There is only one such grouping |
| UndoHistory.Editor.BeginCommit | os-ui/components/agents/SystemView.tsx:168-192 | The component's commit up to its await is the Commit step; a commit in flight drops it |
| UndoHistory.Editor.UndoPressed | os-ui/components/agents/SystemView.tsx:197-202 | The undo press is the Undo step, and sends the popped document unless an action is in flight |
| UndoHistory.Editor.RedoPressed | os-ui/components/agents/SystemView.tsx:204-209 | The redo press likewise |
| UndoHistory.RunKeepsInv | os-ui/components/agents/SystemView.tsx:168-209 | In every run the two stacks together hold at most thirty documents |
| UndoHistory.SliceNeverDiscards | os-ui/components/agents/SystemView.tsx:200-207 | So the slices in undo and redo never discard one |
| UndoHistory.PressesWalkTheTimeline | os-ui/components/agents/SystemView.tsx:197-209 | Any sequence of committed presses only moves along the timeline of documents; none is lost or reordered |
| UndoHistory.UndoThenRedo | os-ui/components/agents/SystemView.tsx:197-209 | Undo and then redo, both committed, restores the document and both stacks |
| UndoHistory.CommitIsSent | os-ui/components/agents/SystemView.tsx:168-192 | A commit in flight drops a further one; otherwise the document is sent, and one that asks for no history leaves both stacks |
| UndoHistory.CommitIsRecorded | os-ui/components/agents/SystemView.tsx:168-181 | Otherwise the document handed to the commit, or else the current one, goes on top of at most twenty-nine others, and nothing is left to redo |
| UndoHistory.EditThenUndo | os-ui/components/agents/SystemView.tsx:168-202 | Undo after a committed edit brings back the document handed to the commit, or else the one before it, and keeps the edit for redo; only the thirtieth older document is gone |
| UndoHistory.UndoKeepsTimelineIff | os-ui/components/agents/SystemView.tsx:197-202 | An undo press keeps the timeline exactly when its commit is accepted and succeeds, or both documents are the same |
| UndoHistory.RedoKeepsTimelineIff | os-ui/components/agents/SystemView.tsx:204-209 | A redo press keeps the timeline under exactly the same condition, and otherwise loses the document it popped |
| UndoHistory.FreshAgentId | os-ui/components/agents/SystemView.tsx:339-344 | The first free numbered name from one past the number of agents; the loop ends within as many tries as there are agents |
| UndoHistory.DecimalIsInjective | os-ui/components/agents/SystemView.tsx:342-343 | Different numbers give different names |
| UndoHistory.DecimalReadsBack | os-ui/components/agents/SystemView.tsx:342-343 | The numeral in a name is that of the number, in decimal digits without leading zeros |
| Sanitizer.CutIsElement | images/base/web-fetch/app.py:50 | What the first substitution cuts is a script or style element: opening word at a boundary, a later `>`, a later close of the same name |
| Sanitizer.NoShorterElement | images/base/web-fetch/app.py:50 | Wherever such an element starts the substitution cuts one, the shortest, as the lazy pattern asks |
| Sanitizer.ElementBecomesSpace | images/base/web-fetch/app.py:50 | Told by positions: text before the first script or style element is kept, the shortest element there becomes one space, and the rest is treated alike |
| Sanitizer.NoElementNoChange | images/base/web-fetch/app.py:50 | A text without script and style elements passes the first substitution unchanged |
| Sanitizer.OnePassIsEnough | images/base/web-fetch/app.py:50 | After the first substitution no script or style element is left, and cutting one makes no other |
| Sanitizer.StripTagsIsTagFree | images/base/web-fetch/app.py:51 | After the second no tag is left |
| Sanitizer.TagBecomesSpace | images/base/web-fetch/app.py:51 | Text before the first tag is kept, the tag becomes one space, and the rest is treated alike, in every text with a tag |
| Sanitizer.NoTagNoChange | images/base/web-fetch/app.py:51 | A text without tags passes the second substitution unchanged |
| Sanitizer.CleanKeepsWords | images/base/web-fetch/app.py:52 | White space handling keeps every word in order; a text without tags keeps all of its words |
| Sanitizer.SanitizedIsSentence | images/base/web-fetch/app.py:47-53 | The result is exactly the words that the two substitutions leave, in order and with single spaces between them, up to the limit |
| Sanitizer.CollapseKeepsTagFree | images/base/web-fetch/app.py:52 | Collapsing white space makes no tag |
| Sanitizer.SanitizedIsClean | images/base/web-fetch/app.py:47-53 | The result holds no tag, is within the limit, and has white space only as single spaces between other characters, but for one the cut may leave at the end |
| Sanitizer.IdempotentIff | images/base/web-fetch/app.py:47-53 | Sanitising again changes nothing exactly unless the cut left a space at the end; then it drops that space |
| Sanitizer.CutAtSpaceHappens | images/base/web-fetch/app.py:53 | A text of three characters where that happens |
| CookieCodec.Base64UrlRoundTrip | images/extensions/workbench-broker/server.js:119-124 | Decoding undoes encoding for all byte strings; the encoding has only letters, digits, `-` and `_`, and no padding (section 5 of RFC 4648) |
| CookieCodec.SymbolsAreSpelt | images/extensions/workbench-broker/server.js:119-124 | The symbols are those of the standard alphabet in its order (section 4 of RFC 4648) |
| CookieCodec.DigitsAreNumber | images/extensions/workbench-broker/server.js:119-124 | Symbols and bytes stand for the same number, most significant first, up to the zero bits that fill the last symbol |
| CookieCodec.MintedVerifies | images/extensions/workbench-broker/server.js:163-181 | A minted cookie verifies to its subject and domain exactly until it expires |
| CookieCodec.CookieRoundTrip | images/extensions/workbench-broker/server.js:163-191 | Minted, set, sent back in any header where it is the first cookie of its name, read and verified (section 4.2.1 of RFC 6265) |
| CookieCodec.AcceptedIsSigned | images/extensions/workbench-broker/server.js:168-178 | What verification accepts is unexpired, and its second dot-separated piece decodes to the hash of the first |
| CookieCodec.VerifiesIff | images/extensions/workbench-broker/server.js:168-178 | Accepted as a session exactly if unexpired and of the first two dot-separated pieces the second decodes to the hash of the first and the first to the session |
| CookieCodec.NamedCookieIff | images/extensions/workbench-broker/server.js:185-190 | A part of the header is a cookie of the name exactly if, trimmed, it is the name or starts with the name and an equals sign |
| CookieCodec.FirstCookieIsRead | images/extensions/workbench-broker/server.js:182-191 | What is read is the value of the first part that is a cookie of the name: all after its first equals sign, percent sequences decoded |
| CookieCodec.NothingReadIff | images/extensions/workbench-broker/server.js:182-191 | Nothing is read exactly if there is no header or none of its parts is a cookie of the name |
| Prelude.PySpacesAre | images/base/web-fetch/app.py:52 | The white space of Python in ASCII, by its codes |
| Prelude.LowersAre | images/extensions/query-tool/execute_guard.py:189 | Lower case in ASCII: each capital letter has its small one, all else is left |
| Splitting.JsSpacesAre | os-ui/lib/core/folders.ts:36 | The white space of JavaScript's `trim` in ASCII, by its codes |

## Left out

- TerminalSafety.SessionsAreBounded: the age bound is the maximum plus `lag`, the delay with which the event loop fires a due timer; with `lag` zero it is the maximum itself.
- TerminalSafety.SweepLeavesNoOldPod: the same `lag` is added to the age at which a pod is spared, since the session it belongs to may be live that long.
- TerminalSafety.PassedOverIsYoung: as above.
- TerminalTimers.TimersAreExact: the deadlines are exact; how long after its deadline a session may still live is again `lag`.
- SqlViews.AcceptedViewIff: whether a body exposes one table is not decided on SQL's grammar, only on its words; the word count is sufficient for one table and not necessary, as said above.
- TerminalSafety.JanitorSparesLiveSessions: the broker's clock, its timers and the creation stamps of the API server are one clock that never goes back; skew between the two machines, or a wall clock set back, would move the age bounds here and in the sweep.
- AgentAccounts.BoundedRunIsPrefix: runs with a deadline are not compared, because the two runs read the clock at different times.
- FolderSelection.ComputeSelection: the exact list of granted folders is stated for feeds with distinct ids and without a registry row for the root; what the selection means is stated for all feeds.
- FolderGrants.RoundTrip: covers the trees of one root; a selection over two roots labels every folder grant with the toggled root's scope.
- FolderGrants.ApplySelection: the tools list and the safety preset that the edits also touch are not modelled.
- CookieCodec.CookieRoundTrip: the keyed hash is any function and JSON any printing and parsing pair that round-trips; base64 texts outside the alphabet and percent sequences, which the broker never makes, decode in some unspecified way.
- EventStream.ReadStream: payloads are objects, since a `null` payload throws out of the loop; the decoder's handling of cut UTF-8 sequences and the final reset of the live banner are left out.
- SqlStatement.SearchIsRun: word characters are ASCII; Python's classes also hold Unicode letters, and its case-insensitive matching folds two of them to `k` and `s`.
- Sanitizer.SanitizedIsClean: the limit is a natural number, where the environment could set a negative one; decoding the bytes is not modelled.
- Tokens and cookies are modelled apart, each with claims of its own type; what one check makes of the other's text is not modelled.
- HTTP servers, the Kubernetes API, Trino, S3 and model calls are steps of an environment that may fail; prompt texts are not modelled, only which call gets which.
- Random pod names are assumed fresh, and shutdown on a signal is left out.
- The workbench broker's capacity check, which is separated from the insertion by awaits, and its deployments.
- `normalizeRun`, `runOrder`, styling, hooks and other user-interface plumbing, which would add easy members only.
- The `ingest` table writes of the data runner, beyond the derivation of the namespace.
