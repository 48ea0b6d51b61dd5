# Verified model of the hand-written algorithms of mcp-file-tools

mcp-file-tools is a Model Context Protocol server that speaks JSON over standard input and
output and lets a client browse, search and read a file tree page by page. Its hard parts are
fixed-capacity, resumable algorithms written by hand. This project models seven of them in Dafny
and proves what they promise, for every input, every state and every run (`Wrappers` and
`TextOrder` hold what they share):

- **Cursor registry** (`HashIndex`, `Arena`, `RegistryModel`, `RegistryState`, `RegistrySteps`,
  `Registry`, `Reservations`, `PlannedReads`, `Publication`, `Computations`, `Continue`). Two
  open-addressed indexes with backward-shift deletion refine finite maps; two arenas with
  generations and free lists hold entries and lineages; an intrusive list keeps lineages in order
  of use. The class
  `Registry` works on these in place. Its view is the sequence of lineages, most recently used
  first, and every method states what it does to the view. The invariant `RegistryState.Ok` ties
  chains, free lists, recency list, both indexes and all slot and byte totals together. On top
  come admission with a dry run before eviction, prepaid continuations, two-phase publication
  and the protocol by which calls with one cursor share one computation.
- **Protocol JSON** (`Utf8`, `JsonTypes`, `JsonGrammar`, `JsonPending`, `JsonNumber`,
  `JsonString`, `JsonCodec`, `JsonTree`, `JsonFaults`, `JsonTrail`, `JsonFrames`, `JsonTracking`,
  `JsonLockstep`, `JsonMoves`, `JsonSteps`, `JsonScanner`, `JsonAcceptance`, `Magnitude`,
  `Decimal`, `RequestId`). The grammar of sections 2 to 7 of RFC 8259 is written as predicates
  over spans of the bytes. A stack of container states means "the rest of the text completes these
  containers", and each step of the scanner keeps that meaning, also beyond the depth limit. A
  text that is JSON has exactly one syntax tree (`JsonTree`), and what is wrong with a message is
  said on the tree (`JsonFaults`): what exceeds a limit, repeats or stands alone, in which layer.
  The scanner moves in lockstep with a trail through the tree, so that its errors and the raw
  arguments it hands on are exactly the tree's. Decimals have a unique normal form over real
  values.
- **Pages** (`OutputBuffer`, `PageFields`, `Vocabulary`, `ResultText`, `ReadPage`, `ReadResult`,
  `LineReading`, `ReadBack`, `ReadPlan`, `BroadWarnings`, `BroadPage`, `BroadReading`,
  `PageBuilder`, `PresentedRun`). Pages are texts, byte for byte, and a reader that knows only
  lines and fields recovers from them what they were rendered from. The size of a read page grows
  with its end and shrinks with its start; hence the greedy plan exists whenever any split does,
  and no split has fewer pages. A project or search page is in order and within its limit whatever
  is tried and committed, every valid cursor and every valid summary finds its page, and the rows
  of a traversal arrive in the order that pages demand.
- **Resumable traversal** (`RowOrder`, `Walk`, `WalkDepth`, `Traversal`). A walk over a file graph
  in which several paths may lead to one directory has one run of rows, none deeper below the
  start than the limit, and every sequence of cuts shows exactly it, but for the symbols of files
  that a call ended over while it read them.
- **Glob matcher** (`Wildcards`, `Glob`). One generic account of last-wildcard backtracking serves
  scalars within a segment and segments within a path.
- **Admission** (`Admission`, `WorkLease`, `SubLimiter`). First in, first out, bounded and
  work-conserving, with every slot given back once.
- **Streaming text** (`CanonicalText`, `TextIo`, `SearchWindow`). Newline canonicalisation and
  context windows, checked against whole-file definitions.

## How the model reads the program

Everything between taking and releasing a mutex is one method; methods of one protocol may follow
each other in any order their preconditions allow, so what holds before and after each of them
holds over every run. Loops of the program are loops here, with the invariants that their
specifications need. Error returns are values.

What the program takes from outside is a parameter: the clock (`now`, an unbounded integer),
entropy (`token`), keyed hashes (`tokenHome`, `lineageHome`) and token derivation (`derive`),
simple case folding (`fold`, a function all of whose orbits are finite), the matcher of a search,
directory listings (`reader`, any order at each call), whether a work lease accepts a transfer, and
when a call of the traversal ends, by its deadline or by cancellation: before it starts or between
two visits (`stopped`), or inside a visit, while a file is read or parsed or a directory is listed
(`strikes`). Integers are unbounded; where the program checks for overflow or
saturates, the model does so explicitly.

The parallel columns of an arena are one array of records, and the index of an entry or lineage is
what the program's references carry. Rows of requests, waiters, computations and calls live in
tables in order of arrival, where the program links objects.

One order of checks deserves attention. `materializeSuccessor` looks for a free entry cell
(`internal/cursor/successor.go:124`) before it evicts anything (line 127), so a step without a
reservation has one condition more than its admission test: a free cell
(`Reservations.UnpaidStep`). No caller in the repository can meet the difference. A project or
search lineage starts with one reserved slot, and `continuationOutcome` uses it exactly for the
child that must be the last; in every run of such callers each lineage keeps its credit through
every section of every protocol (`RegistryModel.Kept`, which all methods of the registry promise,
and `Continue.Continuations.Provident`), and a held credit means a free cell
(`Reservations.CreditFindsCell`, `Continue.Continuations.StepFindsCell`).

A search of symbols does not show everything that it could. When its call ends while a file is
read, `internal/navigation/search_consumer.go:292-296` skips the file with a warning, the page
succeeds, and no later page comes back to the file; `Traversal.SymbolIsLost` gives a directory in
which this hides the only symbol. `Traversal.TraverseAll` says what the pages show in every case,
and `Traversal.WholeRunShown` that they show the whole run if and only if no skipped file has
symbols. A search of texts fails its page instead, and the other traversals read no files.

The rows of the start directory are shown first but need not be smallest: nothing need come after
the path `.`. `Traversal.AfterStartAscends` states the order for all rows after them, and
`PresentedRun.RunIsPresentable` that this is the order of a page. A directory first met at the
depth limit is remembered but not opened, so a later, shorter path to it does not open it either:
`Walk.OpenedByFirstPath` says exactly which directories a walk opens.

## Model

| member | source | states |
|---|---|---|
| HashIndex.Probe | internal/cursor/storage.go:53-68 | The slot reached after a number of probes lies at exactly that cyclic distance from the home. |
| HashIndex.MaskedDistance | internal/cursor/storage.go:248-268 | The program's distance, a wrapped 32-bit subtraction under a mask, is the cyclic distance for every size that divides 2^32. |
| HashIndex.SearchMiss | internal/cursor/storage.go:53-68 | A search that meets an empty slot, or has seen the whole table, proves that the key is absent, because no probe path is broken. |
| HashIndex.InsertKeeps | internal/cursor/storage.go:70-90 | Filling the first empty slot of a missed search adds exactly that key and keeps every probe path unbroken. |
| HashIndex.ClearKeeps | internal/cursor/storage.go:133-146 | Clearing a slot removes exactly its key and leaves one hole as the only possible break. |
| HashIndex.MoveKeeps | internal/cursor/storage.go:92-131 | Moving an entry back into the hole keeps the map and moves the one hole, cyclically, even in a full table. |
| HashIndex.ScanClosesHole | internal/cursor/storage.go:92-131 | When the scan from the hole reaches an empty slot or comes round, no probe path is broken any more. |
| HashIndex.MoveLowersDisplacement | internal/cursor/storage.go:92-131 | Every move lowers the total displacement, so the restarting scan ends. |
| HashIndex.Index.Lookup | internal/cursor/storage.go:53-68 | Finds the value of a key in the represented map, or reports that there is none. |
| HashIndex.Index.Insert | internal/cursor/storage.go:70-90 | The map afterwards, and the outcome: invalid home, duplicate, full or inserted, each exactly when it applies. |
| HashIndex.Index.Delete | internal/cursor/storage.go:92-131 | Removes exactly the key and restores unbroken probe paths for every remaining key, whether or not the table was full. |
| HashIndex.Index.KeyOf | internal/cursor/registry.go:497-504 | Finds a slot that holds an entry's token if and only if there is one. |
| Arena.Store.ClaimCell | internal/cursor/storage.go:305-314 | Takes the head of the free list; the reference is new, because its generation is ahead of every reference issued for the cell before. |
| Arena.Store.Release | internal/cursor/storage.go:320-368 | Frees exactly a valid reference, advances the generation and puts the cell at the head of the free list; any other reference is refused. |
| Arena.RecencyList.AttachFront | internal/cursor/registry.go:517-526 | The list of lineages gains one in front; both directions of links agree with the new order. |
| Arena.RecencyList.Detach | internal/cursor/registry.go:528-543 | Exactly that lineage leaves the order; the rest keeps its order and its links. |
| Arena.RecencyList.Touch | internal/cursor/registry.go:545-551 | The lineage moves to the front and the others keep their order. |
| RegistryModel.IndexSlots | internal/cursor/accounting.go:130-142 | The index size is at least twice the entry capacity. |
| RegistryModel.SumUpdate | internal/cursor/accounting.go:61-69 | Changing one lineage changes the totals by the difference of its weights. |
| RegistryModel.ReservedCounts | internal/cursor/successor.go:101-110 | Reserved slots of any lineage are slots that no entry uses yet. |
| RegistryModel.EvictionStep | internal/cursor/registry.go:389-450 | Evicting the least recently used candidate leaves the plan of the dry run, one victim shorter, with the same totals. |
| RegistryModel.PlanStep | internal/cursor/registry.go:240-245 | The least sufficient number of evictions for the rest is one less than for the whole. |
| RegistryModel.NewItemOk | internal/cursor/registry.go:292-326 | A new lineage satisfies the accounting law, with the slots and bytes it was admitted for. |
| RegistryModel.GrownOk | internal/cursor/successor.go:135-181 | A step keeps the accounting law and the protocol: a prepaid step adds no slot and no byte, only the slack of a final summary is given back; any other adds one slot and its bytes; pages stay at most CursorMaxPages - 2. |
| RegistryModel.StartedOk | internal/cursor/continue.go:189-191 | Starting a computation keeps pins equal to the running computations of the lineage. |
| RegistryModel.BuriedOk | internal/cursor/continue.go:344-357 | Turning an entry into a tombstone keeps all counts of its lineage. |
| RegistryModel.EndedOk | internal/cursor/continue.go:485-500 | A lineage with a running computation has a pin, and ending it keeps pins equal to the running computations. |
| RegistryModel.ObjectionsDecide | internal/cursor/successor.go:43-101 | Of an entry without successor and memo, the ordered refusals of materializeSuccessor up to the reservation are none exactly when the step is allowed for the lineage. |
| RegistryState.RemoveOk | internal/cursor/registry.go:452-495 | Taking one lineage out of arenas, indexes, recency list and counters restores the whole invariant and removes exactly that lineage from the view. |
| RegistryState.RewriteOk | internal/cursor/registry.go:506-515 | Rewriting data columns of one lineage, with the counters adjusted, restores the whole invariant and changes one item of the view. |
| RegistryState.TouchOk | internal/cursor/registry.go:545-551 | Touching restores the whole invariant and moves one item of the view to the front. |
| RegistryState.ExtendOk | internal/cursor/successor.go:134-181 | Appending a claimed cell to a chain restores the whole invariant: chains, free lists, both indexes and all totals. |
| RegistryState.InstallOk | internal/cursor/registry.go:292-326 | Installing a lineage of one entry restores the whole invariant and puts it in front of the view. |
| RegistryState.RemovalKeepsJobs | internal/cursor/registry.go:452-470 | Removing an unpinned lineage stops no running computation. |
| RegistrySteps.ClosedRolled | internal/cursor/registry.go:586-620 | Rolling back a pinned lineage does not change what a closing registry will keep. |
| RegistrySteps.ClosedRemoved | internal/cursor/registry.go:586-620 | Removing an unpinned lineage does not change what a closing registry will keep. |
| RegistrySteps.DryRunStep | internal/cursor/registry.go:397-418 | One step of the dry run either skips a non-candidate, or subtracts exactly one victim and decides whether there is room. |
| RegistrySteps.KeptGrown | internal/cursor/successor.go:135-181 | A step leaves no lineage out of phase without a running computation, publishes none, and keeps the credit of all lineages if its reserved slot is for a child that must terminate. |
| RegistrySteps.KeptRemoved | internal/cursor/registry.go:452-495 | Removal of any lineages keeps all others settled, publishes none and spends no credit. |
| RegistrySteps.ExcludedStays | internal/cursor/registry.go:441-450 | The excluded lineage is never among the victims. |
| RegistrySteps.OneMoreRemoved | internal/cursor/registry.go:240-245 | One eviction after another removes exactly the next victim of the plan, and the rest of the plan stays what it was. |
| RegistrySteps.GrownInFront | internal/cursor/successor.go:127-180 | A lineage that steps outlives the evictions it causes and comes to the front with its child. |
| Registry.Registry.New | internal/cursor/registry.go:73-126 | A registry exists exactly for a valid configuration whose fixed layout fits the byte cap; all its storage is new, every cell is free and in its first generation, no token and no identifier is known, and its base is that layout. |
| Registry.Registry.RemoveUnpinned | internal/cursor/registry.go:452-495 | Exactly the lineage disappears, with its tokens, cells, slots and bytes, and every other lineage is as before. |
| Registry.Registry.RollBack | internal/cursor/registry.go:452-464 | A pinned lineage keeps all its storage, leaves its phase, and each of its computations is barred from committing. |
| Registry.Registry.RemoveLineage | internal/cursor/registry.go:452-495 | A valid lineage is removed or, while pinned, rolled back; the last removal from a closed registry releases every byte; no out-of-phase lineage is left without a computation. |
| Registry.Registry.Close | internal/cursor/registry.go:586-636 | A closed registry keeps exactly its pinned lineages, rolled back; with none left its byte total is zero. |
| Registry.Registry.Resolve | internal/cursor/registry.go:359-380 | A token resolves if and only if the registry is open and the token names an entry of a lineage that is in phase and unexpired; a lineage in phase that has expired is removed or rolled back, and in every other case nothing changes. |
| Registry.Registry.LookupScoped | internal/cursor/registry.go:343-357 | A hit if and only if the token is live and its state is of this tool and directory; a hit moves the lineage to the front and changes nothing else, a miss has exactly the code of the first check that fails and removes at most an expired lineage. |
| Registry.Registry.CanAdmit | internal/cursor/registry.go:389-420 | Says yes if and only if some number of least-recently-used evictions makes room, and changes nothing. |
| Registry.Registry.EligibleTail | internal/cursor/registry.go:441-450 | Finds the least recently used lineage that is published, unpinned, unprotected and not excluded, if there is one. |
| Registry.Registry.EvictUntilFits | internal/cursor/registry.go:240-245 | After a positive admission test the loop cannot fail: it removes exactly the least sufficient number of candidates in recency order and ends with room. |
| Registry.Registry.Install | internal/cursor/registry.go:247-266 | With room, both arena claims and both index inserts succeed and the view gains exactly the new lineage. |
| Registry.Registry.CommitInitial | internal/cursor/registry.go:199-281 | Refused exactly when the request, the token, the identifier or the budget forbids it, with exactly the code of the first check that fails, and then nothing changed; otherwise the least sufficient victims are gone and the lineage is installed, or, if the work lease refuses, taken back at once. What its times mean: `PlannedReads.NewIsTimed` and `PlannedReads.LifeOfLineage`. |
| Registry.Registry.CheckStep | internal/cursor/successor.go:40-127 | The checks let a step proceed if and only if everything materializeSuccessor demands holds, give exactly the code of the first check that fails, say exactly when the lineage is found expired, and change nothing. |
| Registry.Registry.ReservedCell | internal/cursor/successor.go:101-110 | A lineage that holds a reserved slot always finds a free entry cell. |
| Registry.Registry.Materialize | internal/cursor/successor.go:40-182 | Succeeds if and only if the step is possible; then parent and child change as one step, the lineage comes to the front, and a step without reservation evicts exactly the least sufficient victims, never its own lineage; a refusal has exactly the code of the first check that fails and changes nothing, except that an expired lineage goes exactly when the checks reach the clock. |
| Registry.Registry.StepPrepaid | internal/cursor/successor.go:101-110 | A reserved step evicts nobody, keeps the used slots, and keeps the byte total except for the slack of a final summary. |
| Registry.Registry.StartWork | internal/cursor/continue.go:189-191 | The entry runs the computation and its lineage has one pin more; nothing else changes. |
| Registry.Registry.Forbid | internal/cursor/continue.go:328-330 | The computation of an entry may not commit any more; nothing else changes. |
| Registry.Registry.Bury | internal/cursor/continue.go:344-357 | The entry becomes a tombstone and its lineage is marked for rollback; nothing else changes. |
| Registry.Registry.EndWork | internal/cursor/continue.go:493-500 | The entry is idle and its lineage has one pin less; nothing else changes. |
| Registry.Registry.AdvancePhase | internal/cursor/publication.go:36-47 | The phase advances if and only if the registry is open and the lineage is in the expected phase; otherwise nothing changes. |
| Reservations.CommitDynamicInitial | internal/cursor/registry.go:128-163 | Opens a project or search lineage exactly for an unshared state with one summary slot, else refuses without a change. |
| Reservations.CommitReadInitial | internal/cursor/registry.go:165-190 | Opens a read lineage exactly for a state of its shared plan with one slot per page after the first, else refuses without a change. |
| Reservations.ReadPageReservation | internal/navigation/read.go:333-363 | Reserves one slot per page after the first and exactly the bytes of the pages that hand on a cursor, or nothing if the sum overflows. |
| Reservations.ReadStartsOnPlan | internal/cursor/registry.go:165-190 | An admitted read lineage holds in reserve exactly what its plan needs. |
| Reservations.NextPageIsPrepaid | internal/cursor/successor.go:93-168 | Before the deadline the next planned page is allowed and prepaid, and the lineage stays on its plan with the same slots and bytes. |
| Reservations.NextPageIsPossible | internal/cursor/successor.go:58-127 | Whatever other lineages hold, the next planned page can be materialized if and only if the child's token is unused. |
| Reservations.ServePage | internal/navigation/read.go:377-419 | Materializing the next planned page succeeds, keeps used slots and byte total, touches no other lineage and stays on the plan. |
| Reservations.PinnedSurvives | internal/cursor/registry.go:437-450 | No eviction takes a pinned lineage, so it stays in the view unchanged. |
| PlannedReads.SectionKeepsPlans | internal/cursor/registry.go:437-515 | No section of the registry takes a read lineage off its plan: not the start or end of a computation, a bar, a tombstone, a change of phase, a rollback, a touch, an eviction, the opening or the step of another lineage, or the close. |
| PlannedReads.RunKeepsPlans | internal/cursor/registry.go:437-515 | So over every run every read lineage that is there holds exactly what the rest of its plan needs. |
| PlannedReads.NextPageAfterAnyRun | internal/cursor/successor.go:40-126 | After every run from the empty registry the next planned page of a read lineage that is in phase and was opened less than the time to live ago is prepaid and can be served, if and only if its child's token is unused. |
| PlannedReads.NewIsTimed | internal/cursor/registry.go:292-308 | A lineage opened at a time ends its work the time to live later, and its commits the grace later still, each capped at the last time. |
| PlannedReads.SectionKeepsClocks | internal/cursor/registry.go:437-515 | No section of the registry moves these times. |
| PlannedReads.RunKeepsClocks | internal/cursor/registry.go:437-515 | So no run does. |
| PlannedReads.LifeOfLineage | internal/cursor/registry.go:382-387 | Over every run a lineage is in time until the time to live has passed since it was opened, can take no step from then on, and has expired exactly when the grace has passed too, or before that once it is no longer protected. |
| PlannedReads.StepProtects | internal/cursor/successor.go:173-180 | A step never shortens the protection of its lineage, and keeps it from eviction for the grace as long as its commits may last. |
| PlannedReads.StepIsSection | internal/cursor/successor.go:40-183 | The step that Materialize promises is one of these sections. |
| PlannedReads.DropIsSection | internal/cursor/registry.go:452-515 | So is the removal of a lineage, or its rollback while it is pinned. |
| Reservations.DynamicStartsWithCredit | internal/navigation/dynamic.go:67-75 | A project or search lineage starts with a credit of one reserved slot. |
| Reservations.CreditIsKept | internal/navigation/dynamic.go:180-199 | A lineage whose reserved slot is used exactly for a child that must terminate keeps its credit until then. |
| Reservations.CreditFindsCell | internal/cursor/successor.go:110-127 | While the credit is held, a step without reservation is refused by admission alone: the early look for a free cell never fails it. |
| Reservations.UnpaidStep | internal/cursor/successor.go:110-127 | A step of the last entry that uses no reserved slot is possible if and only if it is allowed, its child's token is unused, it is admissible, and, since the program looks before it evicts, an entry cell is free. |
| Publication.InitialPublication.Prepare | internal/cursor/publication.go:26-49 | Succeeds if and only if armed, not yet prepared, and the lineage is provisional in an open registry; then it is publishing and protected for the hand-off grace. |
| Publication.InitialPublication.Commit | internal/cursor/publication.go:51-79 | Publishes exactly a prepared, still publishing lineage; in any case the publication ends and the slot goes back at most once. |
| Publication.InitialPublication.Rollback | internal/cursor/publication.go:81-128 | The lineage is taken back unless the publication had ended; the slot goes back only if asked for and never twice. |
| Publication.InitialPublication.BeginResponse | internal/mcpstdio/concurrency.go:226-231 | The response may be written if and only if output is allowed and the lineage could be prepared; otherwise it is taken back and the slot returned. |
| Publication.InitialPublication.EndResponse | internal/mcpstdio/concurrency.go:232-240 | The lineage becomes published exactly if the response was written whole, the publication had not ended and the lineage was still publishing in an open registry; without the response it is taken back. The slot goes back now unless it went back before, or unless the publication had ended before a response that was written. |
| Publication.ToolRequest.Cancel | internal/mcpstdio/tool_requests.go:21-30 | A cancellation counts exactly before the request may respond and the first time; then the lineage is taken back and the slot is kept. |
| Publication.ToolRequest.Claim | internal/mcpstdio/tool_requests.go:144-172 | The request may respond exactly if it was not cancelled, its result can be encoded and output is still accepted; otherwise its lineage is taken back and its slot given back. |
| Publication.ToolRequest.Begin | internal/mcpstdio/concurrency.go:211-231 | The lineage becomes visible for the writing of the response, or is taken back and the slot given back. |
| Publication.ToolRequest.End | internal/mcpstdio/concurrency.go:232-240 | The lineage becomes published exactly if the response was written whole and the lineage was still publishing in an open registry; in every case the slot is given back exactly once by now. |
| Publication.ToolRequest.SlotReturnedOnce | internal/mcpstdio/tool_requests.go:101-177 | However a cancellation falls between the steps of a request, its slot is given back at most once, and exactly once by the time the request is over. |
| Publication.ToolRequest.KeptByOthers | internal/cursor/publication.go:51-79 | Whatever other sections do to the registry, the ends of other requests included, no lineage is ever published whose response was not written whole. |
| Computations.OnePerEntry | internal/cursor/continue.go:133-190 | At most one unfinished computation runs for an entry. |
| Computations.EachCallAnsweredOnce | internal/cursor/continue.go:571-595 | When all computations are done and no answer is on its way, every call had exactly one answer and every lease went back exactly once. |
| Computations.NeverTwice | internal/cursor/continue.go:571-595 | In every reachable state a call has at most one answer and its lease at most one return. |
| Computations.AlwaysMoving | internal/cursor/continue.go:366-442 | On behalf of every call without an answer some section can be taken: its answer is on its way, or its computation is under way. |
| Computations.MoveLowers | internal/cursor/continue.go:402-442 | Each section of a computation after its start brings the tables closer to rest. |
| Computations.FinishLowers | internal/cursor/continue.go:485-569 | So does the end of a computation. |
| Computations.DeliveryLowers | internal/cursor/continue.go:580-595 | So does each delivery. |
| Computations.LeaveLowers | internal/cursor/continue.go:312-342 | So does each call that leaves. |
| Computations.ReturnLowers | internal/cursor/continue.go:509-511 | So does the return of a starter's lease. |
| Computations.AtRest | internal/cursor/continue.go:571-595 | Where nothing is left to do, every computation is done, every call had exactly one answer and every lease went back exactly once. |
| Computations.AnswersAtRest | internal/cursor/continue.go:571-595 | At rest every cancelled call was closed silently, and every other call of a computation got exactly the text that its computation concluded with, if it concluded with one to be delivered. |
| Computations.AllInPhase | internal/cursor/continue.go:344-357 | With all computations finished, every lineage is in phase and unpinned. |
| Computations.OtherSectionsKeep | internal/cursor/registry.go:452-515 | Any registry section that leaves running computations alone keeps the protocol and every memo about to be delivered. |
| Computations.JoinedOk | internal/cursor/continue.go:133-152 | Joining adds the call to the end of its computation's queue and keeps all tables. |
| Computations.LeaveOk | internal/cursor/continue.go:312-342 | A leaving call is in its queue, leaves it and is closed once; the tables keep their balance. |
| Computations.ReleasedOk | internal/cursor/continue.go:292-303 | Detaching all calls of a computation keeps the tables in balance. |
| Computations.AnsweredOk | internal/cursor/continue.go:580-595 | Delivering or closing a detached call answers it once and returns a joiner's lease once. |
| Computations.ReturnedOk | internal/cursor/continue.go:509-511 | The starter's lease goes back once, when its computation is done. |
| Computations.FinishMatches | internal/cursor/continue.go:493-505 | Finishing a computation leaves the entries that run something in one-to-one relation with the unfinished computations. |
| Computations.BuryEndCommute | internal/cursor/continue.go:514-541 | Tombstoning before or after the end of a computation gives the same lineage. |
| Computations.BuriedTwice | internal/cursor/continue.go:344-357 | Tombstoning twice is tombstoning once, so the program's tombstoned flag changes no outcome. |
| Computations.KeptRetired | internal/cursor/continue.go:543-565 | Giving up the lineage of a finished computation leaves no lineage out of phase without a computation, publishes none and spends no credit. |
| Continue.Continuations.Continue | internal/cursor/continue.go:104-208 | Which of its outcomes a call has, and exactly what becomes of tables and view: closed, missed with the code of the lookup, served the memo, joined, refused, its lineage given up because the state cannot be cloned, or started as the only computation of its entry with the code that an overrun will have. A call that is answered at once gets exactly that text, and is closed silently if and only if it was cancelled. |
| Continue.Continuations.Attend | internal/cursor/continue.go:129-207 | The part after the lookup. |
| Continue.Continuations.Start | internal/cursor/continue.go:168-207 | A started computation runs on its entry under a new number; a refused transfer leaves registry and entry as they were. |
| Continue.Continuations.Join | internal/cursor/continue.go:133-152 | A call joins exactly a computation that may still commit and whose transfer is accepted. |
| Continue.Continuations.CancelWaiter | internal/cursor/continue.go:312-342 | An attached call leaves and is closed; the last one to leave bars the computation; the result says whether others wait; after the end nothing happens. |
| Continue.Continuations.Expire | internal/cursor/continue.go:366-377 | A computation that runs out of time is barred, and every call that waited for it is on its way to the error; a second expiry changes nothing. |
| Continue.Continuations.Arrive | internal/cursor/continue.go:402-458 | Which way the goroutine takes: discard, expiry with its code, an ending, or the preview. |
| Continue.Continuations.Preview | internal/cursor/continue.go:460-483 | The child token is derived exactly when the computation is still of use, in phase, in time and the token is unused. |
| Continue.Continuations.BarredCannotStep | internal/cursor/continue.go:312-377 | A computation that may not commit cannot install a child: its lineage has left its phase for good. |
| Continue.Continuations.Commit | internal/cursor/continue.go:430-441 | The computation replies if and only if its step could be taken and the child got the very token that the page promises; then the memo is that text and the token names the child. A refusal ends it with exactly the code of the first check that failed, and a barred computation changes nothing. |
| Continue.Continuations.StepFindsCell | internal/navigation/dynamic.go:180-199 | In every run whose outcomes use the reserved slot as continuationOutcome does, a step that uses none is refused only by what it is allowed, by its child's token or by admission, never for want of a free cell. |
| Continue.Continuations.FinishPartial | internal/cursor/continue.go:485-512 | All who wait get the memo of the entry if the computation is still of use and in phase; otherwise nobody does and the lineage is given up with its fresh child. The verdict that the computation keeps is that text, or none. |
| Continue.Continuations.FinishTerminal | internal/cursor/continue.go:514-541 | All who wait get the last result if it is still of use, which the verdict keeps, and the lineage is given up either way. |
| Continue.Continuations.FinishDiscarded | internal/cursor/continue.go:543-569 | Nobody gets a response and the lineage is given up. |
| Continue.Continuations.Deliver | internal/cursor/continue.go:580-595 | One call gets its answer: exactly the text it waits for if that is to be delivered and it was not cancelled, else silence; a joiner's lease goes back with it. |
| Continue.Continuations.ReturnWork | internal/cursor/continue.go:509-511 | The starter's lease goes back when its computation is over. |
| Continue.Continuations.ExpireOwn | internal/cursor/continue.go:402-409 | An outcome that arrives too late detaches all calls to the error and goes on to the discard. |
| Continue.Continuations.CloseRegistry | internal/cursor/registry.go:586-619 | Closing under running computations rolls their lineages back and leaves the protocol intact. |
| Continue.Continuations.KeptByOthers | internal/cursor/registry.go:452-515 | The protocol is intact after any section of the registry that keeps the running computations, whatever it publishes. |
| Continue.Continuations.NoLineageLeaks | internal/cursor/continue.go:485-569 | With all computations finished no rolled-back lineage is left in the registry. |
| Utf8.EncodeThenDecode | internal/jsonwire/string.go:14-25 | Decoding reads back every encoded scalar, wherever it stands. |
| Utf8.DecodeThenEncode | internal/jsonwire/string.go:14-25 | Whatever decodes is a scalar and its bytes are the only encoding of it. |
| JsonPending.TextIsValue | internal/jsonwire/scanner.go:124-184 | A text is JSON exactly when a value can be read after its leading space and the rest is space. |
| JsonPending.OpenContainer | internal/jsonwire/scanner.go:240-269 | Reading an opening bracket trades a value for the debt of its container. |
| JsonPending.AfterValueStep | internal/jsonwire/scanner.go:360-392 | After a value only a comma or the matching bracket leads on, and each to its own state. |
| JsonPending.KeyStep | internal/jsonwire/scanner.go:394-432 | Where a string stands in a key's place, the text completes exactly if it does after that string with a colon owed. |
| JsonPending.ValueInArray | internal/jsonwire/scanner.go:540-562 | An array element in place means a value followed by a comma or the end of the array. |
| JsonPending.ValueInObject | internal/jsonwire/scanner.go:434-512 | A member's value in place means a value followed by a comma or the end of the object. |
| JsonPending.StringUnique | internal/jsonwire/string.go:35-101 | A string starting at a position ends at one place only. |
| JsonTree.JsonHasTree | internal/jsonwire/scanner.go:124-184 | A text is JSON exactly when it has a syntax tree, whose spans spell it. |
| JsonTree.OneTree | internal/jsonwire/scanner.go:124-184 | A text has only one syntax tree. |
| JsonNumber.NumberIsReach | internal/jsonwire/scanner.go:902-962 | A number of the grammar that ends at a delimiter is exactly where the greedy scan stops. |
| JsonNumber.ReachIsNumber | internal/jsonwire/scanner.go:902-962 | Whatever the greedy scan accepts is a number of the grammar. |
| JsonNumber.NumberValue | internal/jsonwire/scanner.go:902-962 | In the place of a value, the greedy scan decides which rest of the text must complete it. |
| JsonString.DecodeHex4 | internal/jsonwire/string.go:161-174 | Four hex digits and their value, or the failure at the first byte that is none. |
| JsonString.StringResultMeets | internal/jsonwire/string.go:35-101 | What is accepted is a string of the grammar, malformed bytes are no string, and without a length limit and surrogate check nothing else is refused. |
| JsonString.MalformedIsNoChars | internal/jsonwire/string.go:35-101 | Where the scan meets malformed bytes there is no string of the grammar, however far it would end. |
| JsonString.ScanString | internal/jsonwire/string.go:35-101 | Returns exactly the decoded characters and the end, or the first failure, in one pass with or without capture. |
| JsonTree.UnitsRead | internal/jsonwire/string.go:132-159 | Every scalar that is escaped as its code units in UTF-16 reads back, strictly and leniently. |
| JsonTree.StringMeans | internal/jsonwire/string.go:35-101 | A string of the grammar scans to its text exactly if that is within the limit and, for a strict reader, no surrogate in it stands alone; otherwise the failure tells which of the two it is. |
| JsonCodec.AppendJsonString | internal/mcpstdio/encode.go:156-188 | Appends exactly the quoted form of every byte string. |
| JsonCodec.EncodeQuotedScalar | internal/present/scalar.go:21-54 | The rune-wise encoder succeeds exactly for valid UTF-8 and emits the same bytes as the byte-wise one. |
| JsonCodec.QuotedReads | internal/mcpstdio/encode.go:156-188 | For every valid UTF-8 string, the string decoder returns it from its quoted form with a span that covers the whole form, wherever it stands. |
| JsonCodec.QuotedIsString | internal/mcpstdio/encode.go:156-188 | The quoted form is a string of section 7 of RFC 8259. |
| JsonCodec.QuotedInjective | internal/mcpstdio/encode.go:156-188 | Two valid strings with the same quoted form are equal. |
| JsonFaults.ArgumentsStand | internal/jsonwire/scanner.go:434-512 | Where no key repeats, the raw arguments of a message are the value at `params.arguments`, and there are some only if there is such a value. |
| JsonTrail.KeySettles | internal/jsonwire/scanner.go:394-432 | The rest of an object is free of a fault exactly if the next key is and the rest after it. |
| JsonTrail.ValueSettles | internal/jsonwire/scanner.go:434-562 | The same for the next value of a member or element. |
| JsonTrail.ItemsBound | internal/jsonwire/scanner.go:826-849 | A tree has fewer items than bytes, so the saturating counters never saturate. |
| JsonTracking.StandingMoves | internal/jsonwire/scanner.go:594-651 | If before a token the filed errors told exactly what the part read had of faults, they do after it, whatever layers have an error already. |
| JsonTracking.NextScan | internal/jsonwire/scanner.go:653-687 | A string that is read again, leniently, after its first failure was filed ends with exactly its faults told. |
| JsonMoves.KeyJudged | internal/jsonwire/scanner.go:394-432 | Charging, reading and noting a key tell exactly its faults: a member too many, a text too long, a surrogate alone, a key that was there before. |
| JsonMoves.KeyMove | internal/jsonwire/scanner.go:394-432 | A key keeps the lockstep between scanner and tree: frames, counters, errors, method and arguments. |
| JsonMoves.OpenMove | internal/jsonwire/scanner.go:240-269 | So does a container that opens, also beyond the depth limit. |
| JsonMoves.CloseMove | internal/jsonwire/scanner.go:564-585 | So does one that closes, and the raw arguments that are recorded then are the tree's. |
| JsonSteps.ValueTracks | internal/jsonwire/scanner.go:434-512 | So does a value; the method and the arguments noted after it are the tree's. |
| JsonSteps.EndTells | internal/jsonwire/scanner.go:124-184 | At the end the errors, the item counts, the method and the raw arguments are exactly those of the whole tree. |
| JsonScanner.KeyEquals | internal/jsonwire/scanner.go:707-736 | Compares a key with a name exactly as its decoded text would. |
| JsonScanner.Scanner.ScanText | internal/jsonwire/scanner.go:653-687 | A string is read to its one end; the errors filed on the way tell exactly its faults; the text kept is its text. |
| JsonScanner.Scanner.RecordRecoverable | internal/jsonwire/scanner.go:594-637 | Which failures are filed and under which layer: malformed text never, the first of each layer stays, duplicates and lone surrogates in raw arguments are held back. |
| JsonScanner.Scanner.PushContainer | internal/jsonwire/scanner.go:240-269 | Exactly the depth limit decides whether a container is reported, opened with compact children, or opened in full. |
| JsonScanner.Scanner.NoteKey | internal/jsonwire/scanner.go:394-432 | A repeated key is reported or filed exactly when keys are checked; the object remembers every checked key. |
| JsonScanner.Scanner.ScanObjectKey | internal/jsonwire/scanner.go:394-432 | Reading a key keeps what completes the stack and keeps the scanner in step with the tree; without collection it fails only for a fault that the message has. |
| JsonScanner.Scanner.ScanObjectValue | internal/jsonwire/scanner.go:434-512 | The same for the value of a member, with the method and raw arguments that the tree has at this point. |
| JsonScanner.Scanner.ScanValue | internal/jsonwire/scanner.go:186-238 | Reading a value is exact: what must follow the value must follow the new position with the container's debt added, or there is no value; and a value that spells a tree is read as that tree's kind, to its end if it is a scalar, with exactly its own faults told. |
| JsonScanner.Scanner.StepObject | internal/jsonwire/scanner.go:360-392 | One step keeps whether the rest of the text completes the stack, fails with collected errors only on malformed text, and keeps the scanner in step with the tree. |
| JsonScanner.Scanner.StepArray | internal/jsonwire/scanner.go:514-538 | The same for arrays. |
| JsonScanner.Scanner.StepOverflow | internal/jsonwire/scanner.go:283-340 | The same beyond the depth limit, where only states are kept. |
| JsonScanner.Scanner.Conclude | internal/jsonwire/scanner.go:124-184 | Which errors the end of a JSON text adds, and of which kind: item limits, raw arguments out of place, a document that is no object; the envelope's error comes first. |
| JsonScanner.ScanDocument | internal/jsonwire/scanner.go:124-184 | For every byte string and all limits, the protocol scan blames the document exactly when the bytes are not a JSON text of RFC 8259. Of a JSON text it reports no error if and only if the envelope and the params of its syntax tree are in order: an object; no key, string or number too long, no key repeated, no surrogate alone, no nesting, no object and no number of items beyond its limit; raw arguments that are an object if a tool is called, and without fault otherwise. An error comes from the envelope if and only if that is not in order, and its kind tells a fault of its layer. Without an error the raw arguments are exactly those of a tool call. Without collection the first fault is reported, if and only if there is one. |
| JsonAcceptance.GoodIsInOrder | internal/jsonwire/scanner.go:124-184 | A message is an object with everything within the limits, no key repeated, no surrogate alone and its arguments fit, exactly if its envelope and params are in order and no fault is held back. |
| JsonAcceptance.GoodIsAccepted | internal/jsonwire/object.go:85-104 | Such a message is accepted, and the arguments handed on are the span of the value at `params.arguments` exactly when a tool is called. |
| Magnitude.AddMagnitude | internal/jsonwire/decimal.go:297-321 | Digit-wise addition yields the normalized sum of the values. |
| Magnitude.SubtractMagnitude | internal/jsonwire/decimal.go:323-342 | Digit-wise subtraction of a smaller magnitude yields the normalized difference. |
| Magnitude.CompareMagnitude | internal/jsonwire/decimal.go:287-295 | The sign of a comparison by length and digits; MagnitudeOrder says it is that of the values. |
| Magnitude.MagnitudeOrder | internal/jsonwire/decimal.go:287-295 | Comparing normalized digit strings compares their values. |
| Magnitude.MagnitudeUnique | internal/jsonwire/decimal.go:243-252 | A value has one normalized digit string. |
| Magnitude.NormalizeMagnitude | internal/jsonwire/decimal.go:243-252 | Dropping leading zeros keeps the value and yields the normalized form. |
| Magnitude.AddSignedMagnitude | internal/jsonwire/decimal.go:258-281 | Signed addition of magnitudes yields the sum of the signed values, with zero never negative. |
| Decimal.CutNumber | internal/jsonwire/decimal.go:21-100 | Cuts exactly the texts that the number scan accepts into their parts, or fails where it stops. |
| Decimal.ParseDecimal | internal/jsonwire/decimal.go:21-118 | Succeeds exactly on JSON numbers and returns the normal form with the value of the text. |
| Decimal.ParsesNumbers | internal/jsonwire/decimal.go:21-118 | The texts that parse are the numbers of section 6 of RFC 8259. |
| Decimal.NormalUnique | internal/jsonwire/decimal.go:213-237 | Equal values have equal normal forms s * 10^e with 10 not dividing s. |
| Decimal.KeyInjective | internal/jsonwire/decimal.go:213-237 | The byte encoding of a normal form is injective. |
| Decimal.KeyMeansValue | internal/jsonwire/decimal.go:213-237 | Within the digit limit two decimals share a key if and only if their values are equal. |
| Decimal.IsIntegerMeans | internal/jsonwire/decimal.go:121-125 | IsInteger says whether the value is a whole number. |
| Decimal.CompareUint64 | internal/jsonwire/decimal.go:127-193 | The sign of value minus n for every decimal, fractional, negative or with a huge exponent. |
| Decimal.ToUint64 | internal/jsonwire/decimal.go:195-211 | Returns the value if and only if it is a whole number from 0 to 2^64 - 1. |
| RequestId.RequestIdSemanticKey | internal/jsonwire/semantic_key.go:5-42 | An id is accepted exactly if it is one JSON string without lone surrogates, or one JSON number whose normal form has no more digits than a key can hold; its key is that of the value it means. |
| RequestId.KeysDecide | internal/jsonwire/semantic_key.go:5-42 | Keys tell meanings apart and nothing else. |
| RequestId.SameKeySameMeaning | internal/jsonwire/semantic_key.go:5-42 | Two spellings share a key if and only if they mean the same value. |
| OutputBuffer.Buffer.AppendString | internal/present/builder.go:252-270 | The buffer keeps what fits and remembers an overflow; what was written in all is the old text and the new. |
| OutputBuffer.Buffer.Finish | internal/present/builder.go:294-299 | Succeeds exactly if everything written fitted the limit, and returns it. |
| ReadPage.RenderReadMaterial | internal/present/read.go:299-345 | Renders exactly the text of the page, which reads back (`ReadBack.PageReadsBack`), if its cursor is valid for its status and the text fits the byte limit, else fails. |
| ReadPage.AppendReadSegment | internal/present/read.go:347-420 | Appends exactly the block of one segment, from which its units read back. |
| ReadPage.ReadSegments | internal/present/read.go:246-273 | Cuts a run of units where items end, if there are that many, and finds the position after it. |
| ReadPage.RemainingReadUnits | internal/present/read.go:234-244 | Counts the units from a position to the end. |
| ReadPage.PageGrows | internal/present/read.go:299-420 | One unit more at the end never makes a page smaller. |
| ReadPage.PageShrinks | internal/present/read.go:299-420 | One unit fewer at the start never makes a page larger. |
| ReadPlan.LongestPartial | internal/present/read.go:91-117 | The binary search finds a partial page that fits while the next longer one does not, or only the last unit is left. |
| ReadPlan.FewerFit | internal/present/read.go:91-117 | A shorter partial page fits where a longer one does. |
| ReadPlan.GreedyKeepsSplits | internal/present/read.go:60-145 | If any split into m pages exists, one exists that begins with the longest partial page. |
| ReadPlan.StuckHasNoSplit | internal/present/read.go:91-104 | Where not even one unit fits, no split exists at all. |
| ReadPlan.PlanRead | internal/present/read.go:60-145 | Succeeds if and only if some split into at most maxPages fitting pages exists, and then uses the least number of pages. |
| ReadPlan.PlanCovers | internal/present/read.go:60-145 | The pages of a plan show every unit exactly once, in order. |
| ReadPlan.AnyCursorFits | internal/present/read.go:149-180 | A page that fits with the placeholder fits with every cursor of that length. |
| ReadPlan.PlannedFits | internal/present/read.go:60-145 | Every page of a plan is within its limit, with the placeholder where it will carry a cursor. |
| ReadPlan.Render | internal/present/read.go:149-180 | A page of a plan can always be rendered, the result is valid, UTF-8 text with one line feed at its end, and what is read back from it is exactly the page's status, cursor and segments. Only a cursor that is none can make it fail. |
| ReadResult.PageIsValidResult | internal/api/result.go:71-87 | Every read page of valid items is a valid text result, so the check of the result fails no page. |
| ReadBack.PageReadsBack | internal/present/read.go:299-420 | From the bytes of a read page, cut at line feeds and separators, the view, the status, the cursor and, block by block, the items with the numbers and texts of exactly their units are recovered. |
| ReadBack.PagesDiffer | internal/present/read.go:299-420 | Two valid pages with the same text have the same view, status, cursor and entries. |
| PageFields.PlaceholderIsCursor | internal/present/types.go:86-101 | The placeholder that pages are sized with is a valid cursor. |
| BroadWarnings.NormalizeWarnings | internal/present/warnings.go:35-55 | Accepts exactly valid warnings with distinct codes, none on a partial page, and returns them in strict order of their codes. |
| BroadWarnings.RenderBroadWarning | internal/present/warnings.go:73-96 | Renders exactly the line of a valid warning: with its path if that fits the line limit, without it otherwise. |
| BroadWarnings.AppendBroadWarnings | internal/present/warnings.go:57-71 | Appends exactly the lines of the warnings; the total limit that is checked on the way is never exceeded. |
| BroadWarnings.SummaryFits | internal/present/warnings.go:57-71 | The lines of any valid summary together stay within the summary limit. |
| BroadPage.RenderLimit | internal/present/search.go:72-149 | Renders exactly the text of a project or search page if subject, cursor, rows and warnings are valid, the rows strictly in order, and the text fits, else fails (projects: internal/present/project.go:55-91). |
| BroadPage.UnitsAscend | internal/present/search.go:168-178 | The rows of a valid page ascend strictly all together, so none is shown twice. |
| BroadPage.PartialGrows | internal/present/builder.go:111-129 | One row more never makes a page smaller, and a row alone never takes more than below others. |
| BroadPage.CursorIsFree | internal/present/types.go:75-101 | The size of a partial page is the same for every valid cursor. |
| BroadPage.SummaryAlone | internal/present/builder.go:144-155 | A summary alone never takes more than below rows. |
| BroadPage.CompleteIsSmaller | internal/present/builder.go:157-170 | A complete page without warnings is no longer than the partial page of the same rows. |
| BroadPage.EmptyPageFits | internal/present/builder.go:144-155 | A page without rows fits the output limit for every subject, cursor and summary. |
| BroadPage.PageIsValidResult | internal/api/result.go:71-87 | Every page that can be rendered is a valid text result: UTF-8, ending in exactly one line feed. |
| BroadReading.PageReadsBack | internal/present/search.go:72-149 | From the bytes of a project or search page the subject, status, counts, cursor and warnings are recovered, and exactly its rows. |
| BroadReading.MatchesCount | internal/present/search.go:72-149 | The count of matches in the head of a text search is the number of matching rows. |
| BroadPage.OrdersAgree | internal/present/search.go:197-220 | The order of the traversal is the order of pages, but for the root of a project and two texts of one line and kind. |
| PageBuilder.Builder.Try | internal/present/builder.go:111-129 | A row fits exactly if it comes strictly after those on the page, and so is none of them, and the page with it fits; it overflows exactly if it fits no page at all; an empty page never asks for the next one. |
| PageBuilder.Builder.Commit | internal/present/builder.go:131-142 | Exactly the row that was just found to fit is added, and the page stays in order and within its limit; anything else spoils it. |
| PageBuilder.Builder.TrySummary | internal/present/builder.go:144-155 | With the program's output limit a valid summary always has a page; below the rows exactly if the closing page with both fits. |
| PageBuilder.Builder.Finalize | internal/present/builder.go:157-170 | Succeeds exactly if nothing that fits is uncommitted, cursor and summary are valid and the page fits; the page is its exact text and a valid result. |
| PageBuilder.Builder.PartialPageStands | internal/present/builder.go:111-170 | A partial page that holds something, or any at the program's output limit, fits with every valid cursor. |
| PageBuilder.Builder.CompletePageStands | internal/present/builder.go:111-170 | So does the complete page of the same rows. |
| PageBuilder.ClosePages | internal/navigation/dynamic.go:46-66 | At the end of a traversal a valid summary closes the page, or the page stays partial and the summary alone is the last page: neither can fail. |
| PresentedRun.RunIsPresentable | internal/navigation/dynamic.go:14-45 | The rows of a whole traversal are in the order that pages of that tool demand, if no two texts of one line and kind are found. |
| PresentedRun.ThinnedRunIsPresentable | internal/navigation/search_consumer.go:266-296 | They stay in that order if the rows of some files are lost. |
| PresentedRun.CutIsPresentable | internal/scanner/service.go:420-479 | So are the rows of each page, wherever the traversal is cut. |
| Wildcards.NewWildcard | internal/scanner/glob.go:326-383 | At a new wildcard the earlier one can be forgotten without losing a match. |
| Wildcards.Mismatch | internal/scanner/glob.go:326-383 | On a mismatch the last wildcard takes one more, and without one there is no match. |
| Wildcards.AllTaken | internal/scanner/glob.go:343-353 | When the input is used up, a match needs only wildcards in the rest of the pattern. |
| Glob.SameSimpleFoldOrbit | internal/scanner/glob.go:419-429 | Walks the finite orbit and finds the other scalar exactly if it is on it. |
| Glob.OrbitSymmetric | internal/scanner/glob.go:419-429 | Being on one orbit is symmetric. |
| Glob.MatchGlobAtom | internal/scanner/glob.go:385-408 | An atom accepts a scalar exactly as declared, with classes taken over whole orbits when case is ignored. |
| Glob.MatchGlobSegment | internal/scanner/glob.go:355-383 | Last-star backtracking accepts exactly the declarative relation within a segment. |
| Glob.MatchGlobVariant | internal/scanner/glob.go:326-353 | Last-globstar backtracking accepts exactly the declarative relation over whole segments. |
| Glob.SplitJoins | internal/scanner/glob.go:77-96 | The segments of a path put together are the path. |
| Glob.Match | internal/scanner/glob.go:77-96 | A path matches exactly if some variant matches its segments, or its last one for a pattern without a slash. |
| Admission.Coordinator.Admit | internal/runtime/admission.go:154-198 | Starts exactly when a slot is free and nobody waits, queues up to the bound, and refuses beyond it without a change. |
| Admission.Coordinator.Start | internal/runtime/admission.go:212-255 | Which outcome a start has in each state, and who holds a lease afterwards; a request that has the right to the timeout response hands it out, and no other does. |
| Admission.Coordinator.Resume | internal/runtime/admission.go:224-255 | A waiting start wakes with the outcome of the state its request reached: the timeout response exactly if the request has it, and a lease exactly if it runs. |
| Admission.Coordinator.LeaseReturned | internal/runtime/admission.go:218-230 | The first return of a worker's lease makes its slot due, and changes nothing else. |
| Admission.Coordinator.PromoteHead | internal/runtime/queue.go:17-30 | A free slot goes to the head of the queue, and to nobody else. |
| Admission.Coordinator.WorkerReturned | internal/runtime/queue.go:3-15 | The slot is given back once and passed to the head of the queue. |
| Admission.Coordinator.Cancel | internal/runtime/queue.go:32-67 | A queued request leaves, a running one without a worker gives up its slot, a worker keeps its slot and is told not to commit, and any other state is left alone. |
| Admission.Coordinator.QueueTimedOut | internal/runtime/queue.go:69-86 | Only a queued request leaves, with the right to one response. |
| Admission.SlotGivenBackOnce | internal/runtime/queue.go:3-67 | Over every run of states a slot is given back at most once, and exactly once by a request that held one and holds none. |
| Admission.Leaves | internal/runtime/queue.go:32-67 | A request that ends leaves queue and index consistent. |
| WorkLease.Lease.Transfer | internal/runtime/work_lease.go:48-65 | Ownership moves exactly while the lease may commit and is not returned. |
| WorkLease.Lease.BeginNoCommit | internal/runtime/work_lease.go:66-90 | Which owner is told or asked, and that a shared owner is asked before the lease is barred. |
| WorkLease.Lease.EndNoCommit | internal/runtime/work_lease.go:90-107 | The answer counts only if ownership did not move meanwhile; otherwise the question is asked again. |
| WorkLease.Lease.WorkerReturned | internal/runtime/work_lease.go:108-126 | The slot is released on the first return only. |
| WorkLease.RunOperations | internal/runtime/work_lease.go:48-126 | Over every sequence of operations a lease that was barred or returned stays so and never accepts an owner again, and its slot is released at most once, exactly if it is returned in the end. |
| WorkLease.MarkNoCommit | internal/runtime/work_lease.go:66-106 | However others use the lease before each answer of a shared owner, the lease is barred in the end, unless it is retained: then it has a shared owner, and one that was asked said so. |
| SubLimiter.SubLimiter.Enter | internal/runtime/sub_limiter.go:71-120 | Refused, because the call may not start work or its context or deadline ended, or started at once, or queued, each exactly when it applies. |
| SubLimiter.SubLimiter.TerminalizeWaiter | internal/runtime/sub_limiter.go:154-164 | A waiter leaves with its outcome unless it was served already. |
| SubLimiter.SubLimiter.PromoteHead | internal/runtime/sub_limiter.go:182-202 | The free slot goes to the first waiter that has not ended; ended ones before it leave with their outcome. |
| SubLimiter.SubLimiter.Release | internal/runtime/sub_limiter.go:166-180 | The unit ends and its slot passes on in order. |
| SubLimiter.FinishReserved | internal/runtime/sub_limiter.go:141-152 | A unit starts exactly if neither its context nor its deadline ended and its call may still acquire work; otherwise its slot goes back at once and its lease is returned. |
| SubLimiter.SubLease.Transfer | internal/runtime/sub_limiter.go:218-232 | The owner is replaced exactly while the lease is neither barred nor returned, and each refusal names its reason. |
| SubLimiter.SubLease.MarkNoCommit | internal/runtime/sub_limiter.go:236-252 | The first mark of a unit at work bars its lease and names the owner to be told; its call is barred as well, unless a shared owner that it still has retained it; no slot goes back, and later marks change nothing. |
| SubLimiter.SubLease.WorkerReturned | internal/runtime/sub_limiter.go:257-278 | The first return gives the slot back, to the next waiter in order, and hands out the owner; every later one changes nothing, so a slot is released once in all. |
| SubLimiter.SubLimiter.OneUnitEach | internal/runtime/sub_limiter.go:71-202 | The number of parents is the number of active units and waiters together. |
| SubLimiter.PromoteInOrder | internal/runtime/sub_limiter.go:182-202 | Promotion serves waiters in order and settles each at most once. |
| CanonicalText.FromIsCanonical | internal/textio/newlines.go:42-84 | Reading scalar by scalar with one bit of memory gives the text with CRLF and CR replaced by LF. |
| CanonicalText.ThroughLines | internal/textio/newlines.go:60-84 | Stopping at line k delivers the first k lines. |
| TextIo.BufferSink.Consume | internal/textio/lines.go:73-90 | A line is taken exactly if it is the next, of its announced length and within the byte limit; then its bytes and offset are appended. |
| TextIo.LineEmitter.Newline | internal/textio/newlines.go:143-162 | A line feed completes exactly the open line. |
| TextIo.StreamCanonical | internal/textio/newlines.go:18-100 | The sink gets exactly the lines of the selected canonical text and the digest exactly its bytes. If the text fits the byte limit, the outcome is exactly what interrupts the read: the first stop that is seen, the failure of the rest of a last delimiter, or the decoder's failure at the end; it never succeeds over an interruption. |
| TextIo.Unhalted | internal/textio/newlines.go:34-84 | A call that is not stopped fails as the decoder does exactly when the selected line does not end within the text. |
| TextIo.FirstHalt | internal/textio/newlines.go:34-84 | The first stop that is seen before the end is what a read fails with. |
| TextIo.BufferCanonical | internal/textio/lines.go:26-49 | Success returns the canonical bytes, equal to the digested bytes, with offsets that tile them line by line, and tells whether they end in a line feed; text that fits the byte limit fails exactly as the read is interrupted. |
| TextIo.LineOf | internal/textio/lines.go:51-61 | Returns line number n exactly if there is one. |
| SearchWindow.WindowIsExact | internal/navigation/search_consumer.go:115-154 | The window lists in ascending order, once each, exactly the lines within reach of a match, tagged by whether they match. |
| SearchWindow.NextMatch | internal/navigation/search_consumer.go:128-140 | A matching line brings in the lines before it that are in reach and not yet shown. |
| SearchWindow.TextSearchSink.Append | internal/navigation/search_consumer.go:178-206 | A row is added exactly if what is then retained fits the budget at the least sufficient capacity; the capacity stays while there is room, and otherwise becomes twice as much if that fits, or just enough. |
| SearchWindow.TextSearchSink.PrunePrevious | internal/navigation/search_consumer.go:156-176 | Exactly the lines within reach of the next one are kept. |
| SearchWindow.TextSearchSink.Consume | internal/navigation/search_consumer.go:115-154 | After every line the rows are the window over the lines so far, or that window does not fit the budget beside the capacity held. |
| RowOrder.RowChains | internal/scanner/key.go:8-61 | The row comparison is transitive on valid rows. |
| RowOrder.RowZero | internal/scanner/key.go:8-61 | Rows compare equal only if they are equal. |
| RowOrder.CanonicalAscends | internal/scanner/service.go:638-660 | Sorting and dropping repeats gives strictly ascending rows with the same members. |
| RowOrder.AscendingUnique | internal/scanner/service.go:638-660 | A set of rows has one strictly ascending sequence, so the order of discovery does not matter. |
| Walk.VisitOk | internal/scanner/service.go:497-552 | Visiting the first unit keeps every unit of the frontier ahead of what was entered. |
| Walk.VisitDecreases | internal/scanner/service.go:554-563 | Every visit meets a new directory identity or shrinks the frontier, so the walk ends. |
| Walk.Openings | internal/scanner/service.go:523-552 | A walk opens at most one directory per identity. |
| Walk.DirsAheadBound | internal/scanner/service.go:825-831 | No directory is counted twice, by however many paths it can be reached. |
| Walk.RunAscends | internal/scanner/service.go:420-479 | The rows of a walk are strictly increasing. |
| Walk.RunShows | internal/scanner/service.go:497-521 | Every unit on the frontier has all its rows shown. |
| Walk.RunShowsOnly | internal/scanner/service.go:497-521 | Every row shown was pending or belongs to a unit that the frontier leads to. |
| Walk.OpenedByFirstPath | internal/scanner/service.go:523-563 | A directory is opened exactly if it was not met before and the first path to it, in the order of the walk, is above the depth limit. |
| WalkDepth.LevelOfDown | internal/scanner/service.go:742-771 | Every name that is added to a path takes it one level down. |
| WalkDepth.DepthsArePaths | internal/scanner/service.go:742-771 | The depth of every unit that a walk meets is the number of names that its path adds to the start's, and at most the limit. |
| WalkDepth.RowsWithinDepth | internal/scanner/service.go:742-771 | So every row of a run lies at most as many names below the start as the depth limit allows. |
| WalkDepth.OpenedWithinDepth | internal/scanner/service.go:523-552 | A directory is opened exactly if the first path to it, in the order of the walk, is fewer names below the start than the limit. |
| WalkDepth.VisitsAre | internal/scanner/service.go:497-552 | A walk meets exactly the units of its frontier and those listed in the directories it opens. |
| Walk.PagesMakeRun | internal/scanner/service.go:420-479 | The pages of any cutting put together are the uncut run, without the rows of the visits that lost them. |
| Walk.CutsAgree | internal/scanner/service.go:420-479 | Two cuttings of one walk that lose the same visits show the same rows, and the run if they lose none. |
| Walk.RunIsVisits | internal/scanner/service.go:420-521 | The rows of a run are those of its visits, one visit after another. |
| Walk.LossShows | internal/scanner/service.go:420-521 | A walk that loses the rows of some visits shows its whole run if and only if none of them has rows. |
| Traversal.SortAndCompact | internal/scanner/service.go:638-660 | Sorting and compacting in place gives the canonical rows. |
| Traversal.State.PopFirst | internal/scanner/frontier.go:35-61 | Takes the unit with the smallest path off the frontier. |
| Traversal.State.ProcessNext | internal/scanner/service.go:497-590 | One visit of the walk, with each selected file and each new directory counted: the budget error exactly when one would be too many, otherwise the failure of what struck the visit, if it cannot go on, or the unit's rows, unless its file is skipped. |
| Traversal.State.ShowPending | internal/scanner/service.go:432-456 | Rows are shown in order up to the row limit and as far as the page takes them. |
| Traversal.State.AdvanceWorking | internal/scanner/service.go:420-479 | What a page shows and what is left make up what was to be shown, without the files skipped on the way; every page but the first makes progress; each error code has its exact kind of cause. |
| Traversal.AdvanceInitial | internal/scanner/service.go:205-259 | The first page is cut from the walk of the start directory; a call that gets no slot or has ended before it starts is refused. |
| Traversal.Advance | internal/scanner/service.go:367-387 | A later page is cut on a copy and continues the walk of the state it was given. |
| Traversal.TraverseAll | internal/scanner/service.go:205-479 | Whatever the row limits, page fits, ends of calls and orders of listings, pages that do not fail show, one after another, the one run of the walk without the files that were skipped: all of it if and only if no skipped file has rows. With sufficient budgets no page fails whose call starts, whose fit takes a first row and which is only struck where a visit can go on. How deep the rows of that run lie: `WalkDepth.RowsWithinDepth`. |
| Traversal.LossesAre | internal/navigation/search_consumer.go:266-296 | Only files that are parsed are ever skipped; with room to spare for all parsed text, exactly those that a call ended over while they were read. |
| Traversal.WholeRunShown | internal/navigation/search_consumer.go:266-296 | A traversal shows its whole run if and only if no skipped file has rows; with room to spare, if and only if no call ended while a file with symbols was read. |
| Traversal.OthersShowAll | internal/navigation/search_consumer.go:221-264 | Traversals of other families always show the whole run. |
| Traversal.SymbolIsLost | internal/navigation/search_consumer.go:288-296 | A call that ends while it reads a directory's only file fails no page, and the file's symbol is never shown. |
| Traversal.AfterStartAscends | internal/scanner/service.go:242-259 | The rows after those of the start directory are strictly increasing. |

## Left out

- JsonScanner.ScanDocument: of several faults in one layer it does not say which is reported, nor at which position; and the raw arguments that come with a message whose params have an error are not stated.
- Registry.Registry.CommitInitial: assumes that no cell is at its last generation, which takes four billion reuses of one cell.
- Registry.Registry.Materialize: makes the same assumption.
- Publication.InitialPublication.EndResponse: a panic of the writer is not modelled; it ends like a failed write.
- Registry.Registry.Close: releases storage only as far as the counters tell.
- Captured members and elements of the scanner, and invalid scan modes: bookkeeping beside the recognition of the text.
- Texts of 2^63 bytes and more, and arena generations at their last value: not reachable.
- Root leases of lineages, entropy failures and the keyed hash itself: system calls and cryptography.
- Footprints of plans, patterns and builders, and slice capacities other than that of the search sink: constants of one machine.
- Compilation of glob patterns: parsing, one branch per character class.
- Warnings of the traversal: a binary file, a symbolic link or a skipped file has no rows, and that it is counted in the summary of warnings is not modelled.
- Changed sources and resolved symbolic paths of the traversal: the file graph of the model does not change.
- Budgets of content, of directory bytes and of the frontier: a page that exceeds one fails with the code of its strike, a symbol file that exceeds the first while it is read is skipped like one that the call ended over, and what was charged is not counted.
- A traversal that starts at a single file: one visit, whose failures are reported with other codes.
- The heap and the library sort of the traversal are a linear minimum and an insertion sort with the same result.
- The intrusive waiter list of a computation and the request list of the coordinator are sequences: links between nodes are not modelled there.
- ProgressProof.Valid, cloning of states and validation of results are yes-or-no inputs of the continuation protocol.
- Timer panics, fatal signals, the frame pump and worker launching: goroutine plumbing.
- Parsers of source code, their cache, the id registry and the directory registry: foreign libraries, or easier relatives of the indexes above.
