# Forge controller: a verified model

Forge is a control plane that keeps durable state while calls interleave, reads are stale, processes
crash and messages are delivered more than once. This project models the components where that
matters and proves what they keep. Each component is a state with steps; the library underneath (SQL
constraints and row locks, Redis, Telegram, pipes) is a small explicit environment. Where the source
changes state in place, a class with methods follows its branches and loops, and its contracts tie it
to the functions the theorems are about.

| module | component |
|---|---|
| `TaskCapsules` | `save_capsule`: optimistic append with idempotent replay, any number of interleaved calls, arbitrarily stale reads |
| `TelegramDelivery`, `TelegramService` | owner actions from Telegram: persisted offset, in-memory processed ids, redelivery, crashes and failed calls at any point; the service's handler and poll loop are runs of the delivery system |
| `CallbackCodec`, `Base64` | the authenticated callback text, and base64 as in RFC 4648 |
| `Governance`, `DenialStore` | owner decisions, the denial policy, and its counters under concurrent writers |
| `SemanticGraph`, `GraphSync`, `SyncedGraph` | stale propagation over a possibly cyclic graph, the sync that rebuilds nodes and picks roots, and what a sync leaves in terms of the pages' fields |
| `WikiPages`, `KnowledgeLint` | the claim indexes of lint and sync, and their agreement |
| `TrustGateway` | taint, findings, sensitivity and trust over an unbounded derivation DAG |
| `Routing`, `ModelGateway` | selection, wake times, quota classification, and the failover loop |
| `Leases` | Redis leases under acquire, release and expiry |
| `CodexBridge` | two output pumps over one locked socket, the client's demultiplexer, and the input feed |
| `RetryPolicy` | deterministic jitter and exponential delays |
| `Common`, `Orders` | Option, Result, strict total orders and the list Python's `sorted` makes of a set |

`dafny verify dfyconfig.toml` checks everything.

## Where a promise fails, and exactly when

- `docs/20-compiled-knowledge-and-tech-radar.md:89` says that a later sync never silently clears stale
  state. The code writes every projected node back as fresh before it propagates. The model follows
  the code: `GraphSync.SyncClearsExactly` says exactly when a node is cleared,
  `GraphSync.ReviewedPageTurnsFresh` gives an example, and `GraphSync.StalenessOverManySyncs` proves
  monotonicity for what is monotone: anchors, and nodes that are not projected.
- A `save_capsule` call that reads a stale view may raise although the sequential rule accepts its
  capsule. `TaskCapsules.NeedlessRefusalIsExact` and `TaskCapsules.NeedlessConflictIsExact` say
  exactly for which views; `TaskCapsules.StaleReadsCanRefuseNeedlessly` is an example. Success is
  always exact.
- Lint and sync agree on superseded claims only while claim references do not repeat
  (`KnowledgeLint.DistinctRefsExactlyNeeded`).
- The gateway tries pairwise distinct deployments exactly as long as no answer but the last announces
  a negative delay (`ModelGateway.DistinctTriesExactly`); after one that does it tries the same
  deployment again (`ModelGateway.NegativeDelayRetriesTheSame`).
- Retry delays never shrink exactly when the base is not negative and the jitter fraction is at most
  1, or the parameters leave it no room (`RetryPolicy.NeverShrinksExactly`).
- The client's streams are complete at the normal exit frame. At a timeout's exit frame they are
  complete exactly under the condition of `CodexBridge.TimedOutIsCompleteExactly`;
  `CodexBridge.TimeoutMayDropOutput` is an example of output that is lost.

## What the environments assume

- Capsules: a read sees some earlier committed prefix of the table; an insert is atomic against the
  keys (task_id, revision) and (capsule_id, revision).
- Telegram: update ids grow, callback ids are distinct, the usable items of a batch are a prefix of
  the pending updates in some order, an authentic button is pressed only after its registration has
  been written to the file, decision keys of registered decisions are distinct, and Telegram is the
  only actor on a decision. The owner-action call is one atomic step that may be lost before or after
  it takes effect. The file is replaced atomically.
- Denials: `SELECT ... FOR UPDATE` locks an existing row until its transaction ends and cannot lock a
  missing one; (project, task, signature) is unique.
- Leases: a key past its time is invisible; EXEC aborts when the key was written since WATCH, and may
  or may not abort on a mere expiry.
- Bridge: frames arrive in the order they are written, and the lock admits one writer.
- Gateway: the clock stands still within one call. Hashes, MACs, uuid5, injection probes and the fact
  normaliser are arbitrary functions.

## Model

| member | source | states |
|---|---|---|
| TaskCapsules.EveryScheduleIsSafe | src/forge_controller/repository.py:57-136 | Under every interleaving of any number of `save_capsule` calls with arbitrarily stale reads: each task's rows are exactly revisions 1..n under one capsule id, one capsule id never serves two tasks, each stored row has exactly one `capsule.checkpointed` event, and every call that returned has exactly its capsule stored |
| TaskCapsules.RowsAndEventsSayTheirCapsule | src/forge_controller/repository.py:84-105 | In every reachable system a row's task, project, capsule id and revision are those of the capsule stored in it, and the k-th event names the project, task, capsule id and revision of the k-th row's capsule |
| TaskCapsules.StoredRowsNeverChange | src/forge_controller/repository.py:57-136 | No continuation of any run changes, removes or reorders a stored row |
| TaskCapsules.StepRefinesAtomicAppend | src/forge_controller/repository.py:57-119 | Each step of each call is either invisible in the table or one atomic compare-and-append that the sequential rule accepts at that moment; returning means accepted, raising adds nothing, a raise after a fresh re-read means the rule rejects the capsule, and a call whose capsule the rule accepts raises exactly when its views were blind to it |
| TaskCapsules.InsertIsAtomicAppend | src/forge_controller/repository.py:71-97 | For an insert planned on any stale reads, the two unique keys are free exactly when the sequential rule would append the capsule now |
| TaskCapsules.CapsuleIdOwnsOneTask | src/forge_controller/persistence.py:40-52 | In a reachable table two rows with one capsule id belong to one task, although no key of the table says so |
| TaskCapsules.OneEventPerRow | src/forge_controller/repository.py:84-105 | Rows and checkpoint events correspond one to one, field by field |
| TaskCapsules.LatestIsLast | src/forge_controller/repository.py:121-129 | The row of greatest revision is the last row of the task's history |
| TaskCapsules.RecordedIsIndexed | src/forge_controller/repository.py:131-136 | Revision r of a task is the r-th row of its history, and is absent exactly when the history is shorter |
| TaskCapsules.ReadsOfView | src/forge_controller/repository.py:121-136 | What both reads return on any earlier state, in terms of a prefix of the task's history |
| TaskCapsules.FreshPlanIsExact | src/forge_controller/repository.py:61-83 | On fresh reads the branches before the insert, together with the unique keys, accept exactly what the sequential rule accepts |
| TaskCapsules.FreshReadsRefuseExactly | src/forge_controller/repository.py:61-83 | With fresh reads and any appends between them, a refusal means that the rule rejects the capsule at the first read or at the second |
| TaskCapsules.FreshRecheckIsExact | src/forge_controller/repository.py:106-119 | After an integrity error a fresh read finds the caller's own capsule exactly when the rule accepts it as a replay |
| TaskCapsules.NeedlessRefusalIsExact | src/forge_controller/repository.py:61-83 | Exactly when stale views refuse a capsule that the rule accepts: the second read's view does not show the capsule's own revision and the first read's view does not show exactly the revisions before it |
| TaskCapsules.NeedlessConflictIsExact | src/forge_controller/repository.py:106-119 | Exactly when a stale view makes the integrity-error handler refuse such a capsule: it does not show the capsule's own revision |
| TaskCapsules.FreshRaisesAreRejections | src/forge_controller/repository.py:57-119 | In every schedule of any number of calls whose reads are all fresh, a call that raised was rejected by the sequential rule at some moment between its first read and its raise |
| TaskCapsules.CapsuleRepository.SaveCapsule | src/forge_controller/repository.py:57-119 | The call itself, with other writers in every gap and stale reads: a normal return is one accepted atomic append at its end, and a call that stores a row adds exactly the checkpoint event of its own project, task, capsule id and revision; a raise leaves exactly what the others wrote, with fresh reads the rule rejects the capsule at some moment of a call that raises, a raise although the rule accepts means that the views were blind to the capsule, and alone it succeeds exactly when the rule accepts |
| TaskCapsules.CapsuleRepository.PlanFromReads | src/forge_controller/repository.py:61-83 | Two reads with writers in between: a replay is already stored, an insert is ready in every later state, a refusal on fresh reads is right, and an acceptable capsule is refused exactly on blind views |
| TaskCapsules.CapsuleRepository.TryInsert | src/forge_controller/repository.py:84-105 | Row and event are committed together exactly when both unique keys are free, the event with the capsule's own project, task, id and revision; otherwise nothing changes |
| TaskCapsules.CapsuleRepository.InsertOrRecheck | src/forge_controller/repository.py:84-119 | The insert and its integrity-error handler together are one atomic append or a refusal that a fresh re-read makes exact |
| TaskCapsules.CapsuleRepository.RecheckAfterConflict | src/forge_controller/repository.py:106-119 | The handler accepts only a stored identical checkpoint, and each one that its view shows |
| TelegramDelivery.DeliveryIsCrashSafe | src/forge_controller/telegram_governance.py:404-531 | For every sequence of updates, registrations and prunings and every placement of crashes, failed calls, lost writes and restarts: no update below the stored offset is unhandled, every decision closed by the updates handled so far is exactly as in the crash-free run, and once all updates are consumed every decision is |
| TelegramDelivery.FaultsLeaveNoTrace | src/forge_controller/telegram_governance.py:404-531 | Two histories with the same updates end in the same decisions once both have consumed them, whatever went wrong in either |
| TelegramDelivery.OwnerPressTakesEffect | src/forge_controller/telegram_governance.py:448-526 | From every reachable state, in the middle of whatever handler: a press of the owner, in the owner's private chat, on a button registered as safe for mobile can be carried through, and then has exactly its effect after everything that arrived before it |
| TelegramDelivery.BacklogCanBeHandled | src/forge_controller/telegram_governance.py:404-416 | From every reachable state the backlog can be worked off, and then file and memory agree and every decision is as in the crash-free run: no fault leaves the service stuck |
| TelegramDelivery.OnlyTheOwnerChangesDecisions | src/forge_controller/telegram_governance.py:462-481 | Over every run a decision differs from its start only if some arrived update came from the owner, in the owner's private chat, with a text that decodes to that decision's key and an action its classification allows, and the decision was registered as safe for mobile |
| TelegramDelivery.ActsExactly | src/forge_controller/telegram_governance.py:448-507 | Over the fields of the update: the handler acts on a decision if and only if the callback has an unprocessed id, its sender is the owner, its message is in the owner's private chat, its data decodes to the key of this decision and of no other notification and to this action, the notification is safe for mobile, the decision is open, and a DEFER is allowed |
| TelegramDelivery.OtherwiseExactly | src/forge_controller/telegram_governance.py:448-461 | Exactly which updates are ignored and which are only answered again |
| TelegramDelivery.RehandlingSettles | src/forge_controller/telegram_governance.py:502-526 | Handling an old update again moves a decision to where the crash-free run has it, or leaves only updates still to be handled again responsible for the difference |
| TelegramDelivery.EffectSettles | src/forge_controller/telegram_governance.py:502-526 | Applying an update, for the first time or again, keeps everything up to it settled |
| TelegramDelivery.SettledAtFrontier | src/forge_controller/telegram_governance.py:404-416 | With nothing left to handle again the decisions are those of the crash-free run |
| TelegramDelivery.VerdictIsSound | src/forge_controller/telegram_governance.py:448-502 | What the handler concludes from its in-memory state agrees with the update's registered subject: it acts only on that decision and action, and whatever it refuses or ignores would have had no effect |
| TelegramDelivery.KnownIsOnlyMatch | src/forge_controller/telegram_governance.py:482-491 | A registered decision is the only notification with its own decision key |
| TelegramDelivery.PositionAdvances | src/forge_controller/telegram_governance.py:404-416 | Moving the offset past an update moves the pending position by exactly one update |
| TelegramDelivery.StepKeepsValid | src/forge_controller/telegram_governance.py:336-545 | Every step of Telegram, service, file and crash keeps the delivery invariant |
| TelegramDelivery.RunsStayValid | src/forge_controller/telegram_governance.py:336-545 | Every run satisfies the delivery invariant: processed ids belong to updates at or below the offset, memory is never behind the file, and handling from the pending position on settles every decision |
| TelegramDelivery.CrashForgetsUnsaved | src/forge_controller/telegram_governance.py:84-112 | A crash loses a registration or a removal exactly when its write failed, and nothing that was saved |
| TelegramDelivery.MarkRemembersLast | src/forge_controller/telegram_governance.py:528-531 | A handled callback id is remembered last, with the 255 before it |
| TelegramService.TelegramGovernanceService.HandleUpdate | src/forge_controller/telegram_governance.py:448-526 | The handler, with any of its external calls failing: it is a run of the delivery system; if it ends normally the state and the decisions are those of its verdict; if it raises the state is untouched and the owner action has happened at most once |
| TelegramService.TelegramGovernanceService.HandleDecision | src/forge_controller/telegram_governance.py:488-526 | The checks against the control plane and the owner action, with a lost request, a lost response or a failed answer |
| TelegramService.TelegramGovernanceService.CallOwnerAction | src/forge_controller/telegram_governance.py:261-276 | The endpoint changes the decision unless the request was lost; a conflict is reported exactly when it refuses |
| TelegramService.TelegramGovernanceService.FinishAction | src/forge_controller/telegram_governance.py:508-526 | The answer, the keyboard and the processed mark: nothing is marked when a call fails |
| TelegramService.TelegramGovernanceService.MarkProcessed | src/forge_controller/telegram_governance.py:528-531 | The last 256 processed ids are kept, the newest last |
| TelegramService.TelegramGovernanceService.PollOnce | src/forge_controller/telegram_governance.py:404-416 | A poll over any rearrangement of a prefix of the pending updates, with unusable items anywhere in it and any faults, is a run of the system and safe; without a fault it consumes every usable update, writes the file, and, when nothing else is pending, leaves the decisions of the crash-free run |
| TelegramService.BatchIsRestored | src/forge_controller/telegram_governance.py:407-410 | Sorting a rearranged batch by update id and skipping unusable items gives back the pending updates in order |
| TelegramService.UsableExactly | src/forge_controller/telegram_governance.py:407-410 | The poll skips exactly the items without a non-negative id |
| TelegramService.TelegramGovernanceService.AdvanceOffset | src/forge_controller/telegram_governance.py:411-414 | The offset passes exactly one update, in memory and, if the write succeeds, in the file |
| TelegramService.TelegramGovernanceService.RegisterNotification | src/forge_controller/telegram_governance.py:336-373 | A repeated registration returns the old one or is refused if it differs; a new one succeeds exactly for an open decision, and is then known in memory and in the file |
| TelegramService.TelegramGovernanceService.OpenNotificationsAndPrune | src/forge_controller/telegram_governance.py:533-545 | Exactly the notifications of open decisions remain, the file is written exactly when something was removed, and an unreadable decision ends the pass with nothing written |
| TelegramService.TelegramGovernanceService.Restart | src/forge_controller/telegram_governance.py:84-100 | A new process has exactly the state of the file |
| CallbackCodec.EncodeDecode | src/forge_controller/telegram_governance.py:129-156 | For every decision and action the callback text exists, is 33 bytes (the limit is 64), and decodes to that decision's key and that action |
| CallbackCodec.AcceptedTextsExactly | src/forge_controller/telegram_governance.py:134-156 | For every text: it is accepted for a decision and an action exactly when it is that button's own text, up to the two characters of its MAC that the decoder translates |
| CallbackCodec.EncodedText | src/forge_controller/telegram_governance.py:129-141 | The text written out: version 1, one letter for the action, sixteen characters of the first twelve bytes of the decision's digest, and twelve of the first nine bytes of the MAC over version, letter, key, chat and user |
| CallbackCodec.RefusalsExactly | src/forge_controller/telegram_governance.py:142-155 | Which texts are refused as empty or over 64 bytes, as malformed, as badly encoded, and as not authentic |
| CallbackCodec.Utf8Widths | src/forge_controller/telegram_governance.py:138-143 | The length counted is that of UTF-8: one to four bytes per character by its code point (section 3 of RFC 3629), added up |
| CallbackCodec.KeyAndMacShape | src/forge_controller/telegram_governance.py:129-141 | Keys have 16 and MACs 12 characters, none of them a separator, and MACs decode to themselves |
| CallbackCodec.SplitJoined | src/forge_controller/telegram_governance.py:145-146 | Splitting at the separator undoes joining |
| Base64.UrlRoundTrip | src/forge_controller/telegram_governance.py:703-712 | `_b64url_decode` undoes `_b64url` on every byte string (sections 5 and 3.2 of RFC 4648) |
| Base64.UrlSpellings | src/forge_controller/telegram_governance.py:707-712 | A text decodes to given whole groups of bytes exactly when, with + and / respelled, it is their own encoding |
| Base64.CharactersSpell | src/forge_controller/telegram_governance.py:703-704 | Read in the alphabet, every four characters spell in base 64 the number their three bytes spell in base 256, missing ones counted as zero (sections 4 and 5 of RFC 4648) |
| Base64.EncodeDecode | src/forge_controller/codex_bridge.py:123-141 | Padded base64 decodes to what was encoded, in both alphabets (sections 4 and 5 of RFC 4648) |
| Base64.CharactersShape | src/forge_controller/telegram_governance.py:703-704 | The length of the encoded text and the absence of separators and padding among its digits |
| Base64.GroupRoundTrip | src/forge_controller/telegram_governance.py:703-712 | One group of one to three bytes survives its two to four digits |
| Governance.FirstVerdictStands | src/forge_controller/governance.py:106-182 | Whatever actions are sent in whatever order, the first YES or NO decides an actionable open decision for good |
| Governance.OpenUntilVerdict | src/forge_controller/governance.py:106-182 | Until then it stays open and remembers the last accepted DEFER or MORE INFO |
| Governance.NothingWithoutClassification | src/forge_controller/governance_api.py:212-234 | Without a matching persisted classification no action changes the record |
| SemanticGraph.SemanticStore.PropagateStale | src/forge_controller/knowledge_graph.py:252-316 | On any graph, cycles included, exactly the nodes of the project from which a root is reachable along propagation edges turn stale, and exactly the project's anchors whose claim is among the marked references; the returned references are those |
| SemanticGraph.SemanticStore.MarkReachable | src/forge_controller/knowledge_graph.py:259-296 | The worklist loop ends and visits exactly the reverse closure of the roots |
| SemanticGraph.SemanticStore.EnqueueDependents | src/forge_controller/knowledge_graph.py:283-296 | Exactly the sources of incoming propagation edges that are not yet marked join the queue |
| SemanticGraph.ClosureIsExact | src/forge_controller/knowledge_graph.py:271-296 | A sound set that is closed backwards is the set of nodes with a dependency chain to a root |
| SemanticGraph.WorklistVisits | src/forge_controller/knowledge_graph.py:278-296 | Marking a node and queueing its dependents loses no node and admits no wrong one |
| SemanticGraph.ReachabilityIgnoresFlags | src/forge_controller/knowledge_graph.py:252-296 | Reachability of a root depends on edges and references, never on stale flags |
| SemanticGraph.NoRootsNoStaleness | src/forge_controller/knowledge_graph.py:252-254 | Without roots nothing is marked |
| GraphSync.StaleAfterSync | src/forge_controller/knowledge_graph.py:52-135 | After one sync a re-projected node is stale exactly when a root of this sync is reachable from it, any other node exactly when it was before or is now reachable, and an anchor exactly when it was before or its claim is among the marked references |
| GraphSync.StaleExactlyFromDoubt | src/forge_controller/knowledge_graph.py:52-135 | The same without the sync's own notion of a root: a re-projected node is stale exactly when a chain of the eight propagation relationships leads from it to a node whose reference is in doubt, any other node exactly when it was before or such a chain exists, an anchor exactly when it was before or its claim's reference is on such a node |
| GraphSync.RootsExactly | src/forge_controller/knowledge_graph.py:73-115 | A reference is a root of a sync if and only if, by the fields of the claims in force, it is superseded, is either side of an explicit contradiction, is an active claim of a fact whose active claims differ, or is a page under review, superseded or past its review date |
| GraphSync.EntriesAreClaims | src/forge_controller/knowledge_graph.py:74-81 | The entries are exactly the claims of the pages, each under its page's slug and its claim id |
| GraphSync.StalenessOverManySyncs | src/forge_controller/knowledge_graph.py:52-135 | Over any sequence of syncs no anchor returns to fresh, and no node that is never re-projected does |
| GraphSync.DoubtTurnsStale | src/forge_controller/knowledge_graph.py:73-117 | After a sync every node is stale that carries a superseded claim, either side of an explicit contradiction, an active claim of a disputed fact, or a page due for review |
| GraphSync.DoubtWalksUp | src/forge_controller/knowledge_graph.py:178-185 | When a claim, or a source it is derived from, depends on something in doubt, the claim and the page that contains it are stale after the sync |
| GraphSync.SyncClearsExactly | src/forge_controller/repository.py:149-165 | Exactly when a sync makes a stale node fresh again, which the documentation says never happens: when the node is re-projected and no root of that sync is reachable from it |
| GraphSync.ReviewedPageTurnsFresh | src/forge_controller/knowledge_graph.py:137-155 | A concrete page that is stale after one sync and fresh after the next, while its anchor stays stale |
| GraphSync.PutAllNodes | src/forge_controller/repository.py:149-165 | What a series of upserts leaves: projected nodes fresh and in the project, all others as they were |
| GraphSync.AllClaimsAndFacts | src/forge_controller/knowledge_graph.py:83-115 | Visiting claims and facts one by one, in any order, gathers exactly the relations, roots, contradictions and superseded claims of the page set |
| SyncedGraph.EdgesAfterSync | src/forge_controller/knowledge_graph.py:137-250 | After a sync an edge exists if and only if it did before, or links a page to its claim or a claim to its source, or is a relation stated by the claims in force whose two ends are each carried by exactly one node of the project |
| SyncedGraph.NodesAfterSync | src/forge_controller/knowledge_graph.py:137-177 | After a sync every node is, but for its flag, what the last page, claim or source that goes by its id says, or else what it was |
| SyncedGraph.RelationsAre | src/forge_controller/knowledge_graph.py:83-115 | The relations of a sync are what the claims in force supersede and contradict, and the pairs of the active claims of a contested fact, for repeated references too |
| SyncedGraph.ReportAfterSync | src/forge_controller/knowledge_graph.py:83-115 | The report's contradictions and superseded references, in terms of the claims in force |
| SyncedGraph.ClearExactly | src/forge_controller/knowledge_graph.py:199-232 | Relations can be added exactly when no source is on two nodes, and no target of a source that exists is |
| SyncedGraph.PairsExactly | src/forge_controller/knowledge_graph.py:107-108 | `combinations(sorted(refs), 2)` of any list: each two different members once, in order, and a member with itself exactly when it is repeated |
| GraphSync.Projector.SyncAll | src/forge_controller/knowledge_graph.py:52-135 | The whole sync produces the projected graph marked from the roots of its pages, and reports exactly the stale references, contradictions and superseded claims; it fails exactly when a relation end is carried by two nodes, and then the pages are projected, only relations of the pages have been added, and nothing is marked |
| GraphSync.Projector.ProjectPage | src/forge_controller/knowledge_graph.py:137-186 | One page's nodes and edges, in the order of its claims and sources |
| GraphSync.Projector.EnsureRelation | src/forge_controller/knowledge_graph.py:199-250 | An edge is added exactly when both ends exist; two rows for an end are an error |
| GraphSync.Projector.RelateClaims | src/forge_controller/knowledge_graph.py:83-95 | The claim loop adds the relations of every claim and gathers roots, superseded claims and explicit pairs |
| GraphSync.Projector.RelateFact | src/forge_controller/knowledge_graph.py:97-115 | One fact key: nothing when its active values agree, all pairs of its active references when they differ |
| GraphSync.Projector.ProjectPages | src/forge_controller/knowledge_graph.py:68-81 | The page loop projects every page, notes the pages due for review and builds both indexes |
| KnowledgeLint.Lint | src/forge_controller/knowledge_assurance.py:76-112 | The nested loops compute the report defined from all claims of all pages |
| KnowledgeLint.ReportedExactly | src/forge_controller/knowledge_assurance.py:98-103 | The report names a fact key, once, exactly when two of its unsuperseded claims normalize to different texts, and lists exactly the references of its unsuperseded claims |
| KnowledgeLint.ReportListsRelations | src/forge_controller/knowledge_assurance.py:84-112 | The report's other findings, claim by claim: pages due for review, explicit contradictions as ordered pairs, superseded claims |
| KnowledgeLint.LintAgreesWithSync | src/forge_controller/knowledge_assurance.py:84-103 | For distinct claim references lint and sync have the same superseded set and explicit pairs, flag the same fact keys, and sync's pairs of a key are exactly the two-element subsets of lint's references |
| KnowledgeLint.SupersededAgree | src/forge_controller/knowledge_graph.py:83-95 | Lint's and sync's superseded sets and explicit pairs are equal when claim references are distinct |
| KnowledgeLint.DistinctRefsExactlyNeeded | src/forge_controller/knowledge_graph.py:77-81 | Whatever the claims say, lint and sync agree on superseded claims if and only if the claim references do not repeat |
| KnowledgeLint.PairsAreTwoElementSubsets | src/forge_controller/knowledge_graph.py:107-108 | `combinations(sorted(refs), 2)` yields each unordered pair once, in order |
| TrustGateway.EnvelopesAccumulateTheirAncestry | src/forge_controller/trust_gateway.py:158-233 | For every sequence of ingests: an envelope's taint and findings are the union, its sensitivity and trust risk the maximum, of what each member of its whole ancestry contributes by itself; the ancestry lies in one project; suspicion is marked exactly when there are findings |
| TrustGateway.DerivationNeverLaunders | src/forge_controller/trust_gateway.py:158-233 | No chain of derivations loses taint or findings, or lowers sensitivity or trust risk |
| TrustGateway.TrustExactlyFromAncestry | src/forge_controller/trust_gateway.py:183-253 | For every sequence of ingests, from the kinds, requests and findings of the ancestry alone: an envelope is trusted exactly when every member is of kind owner_input, forge_internal or control_plane, asked for no riskier class and has no findings; it is untrusted or worse exactly when some member is of another kind than these and subagent_output, or asked for it, or is suspect; suspicious or worse exactly when some member has findings or asked for it; and blocked exactly when some member asked for it |
| TrustGateway.MarksExactlyFromAncestry | src/forge_controller/trust_gateway.py:186-213 | From the ancestry's own fields: external_content exactly with one of the eight external kinds, agent_generated exactly with a subagent_output, transformed_from_parent exactly with parents, prompt_injection_suspected exactly with a finding of some probe, and no other mark; the findings are exactly those of the probes |
| TrustGateway.SensitivityExactlyFromAncestry | src/forge_controller/trust_gateway.py:189-204 | Each step of the sensitivity scale is taken exactly when some member of the ancestry asked for it |
| TrustGateway.EqualRisksGoToTheFirst | src/forge_controller/trust_gateway.py:183-185 | Between classes of equal risk the source decides, then the request, then the first parent on that step |
| TrustGateway.AnswersExactly | src/forge_controller/trust_gateway.py:171-181 | Which submissions are taken, and which error each of the others gets: repeated or unknown parents, more than 2097152 bytes, no text, another project, a used id |
| TrustGateway.LedgerGrowsByTaken | src/forge_controller/trust_gateway.py:222-233 | A taken submission is stored last under its own id and project with the parents it named, its marks in string order and its findings by rule, severity and category; a refused one leaves no trace |
| Orders.PrecedesAtFirstDifference | src/forge_controller/trust_gateway.py:270-274 | Strings are ordered by code point at the first difference, a proper prefix first |
| TrustGateway.FindingsAccumulate | src/forge_controller/trust_gateway.py:205-210 | A finding is on an envelope exactly when some member of its ancestry found it |
| TrustGateway.TaintAccumulates | src/forge_controller/trust_gateway.py:186-213 | The same for every taint mark |
| TrustGateway.SensitivityIsMaximum | src/forge_controller/trust_gateway.py:189-204 | Sensitivity is the maximum over the ancestry |
| TrustGateway.RiskIsMaximum | src/forge_controller/trust_gateway.py:183-220 | Trust risk is the maximum over the ancestry of source default, requested trust, suspicion floor and external-content floor |
| TrustGateway.SuspectedIffFindings | src/forge_controller/trust_gateway.py:210-213 | `prompt_injection_suspected` is present exactly when there are findings |
| TrustGateway.AncestryInOneProject | src/forge_controller/trust_gateway.py:178-181 | Derivations never cross projects |
| TrustGateway.EffectiveTrustFloors | src/forge_controller/trust_gateway.py:183-220 | The effective class is at least as risky as every input and floor, and equals one of them |
| TrustGateway.LedgersAreGenuine | src/forge_controller/repository.py:238-253 | Every stored envelope was accepted against the envelopes stored before it, and ids do not repeat |
| TrustGateway.FindsEnvelope | src/forge_controller/repository.py:243-253 | Looking an id up finds an envelope with that id, and fails only if there is none |
| TrustGateway.Ingest | src/forge_controller/trust_gateway.py:158-233 | The loops and branches of `ingest`, with its size, encoding, project and trust-class errors in the source's order, compute the specified envelope |
| TrustGateway.Compose | src/forge_controller/trust_gateway.py:183-233 | The part behind the checks: inheritance, probes, deduplication and floors, in the order of the source, compute the specified envelope |
| TrustGateway.DeduplicateFindings | src/forge_controller/trust_gateway.py:270-274 | Each finding once, in ascending order |
| TrustGateway.WorstTrust | src/forge_controller/trust_gateway.py:262-263 | A member of the list with the greatest risk |
| TrustGateway.TrustNamesParse | src/forge_controller/trust_gateway.py:20-27 | Stored trust names parse back to their class |
| Routing.WakeTimeIsExact | src/forge_controller/placement.py:20-32 | When placement waits and deployments stay as they are, selection works at a later time exactly from the announced wake time on, and never if none was announced |
| Routing.Place | src/forge_controller/placement.py:20-32 | A candidate is placed exactly when one is eligible, and it is the best by score, then id; otherwise the wake time is the earliest future retry time |
| Routing.PlacedExactly | src/forge_controller/router.py:18-52 | Over the candidates' fields: a candidate is placed if and only if it is admissible and against every other admissible one 0.55, 0.20 and 0.15 of the differences in capability, reliability and latency plus the differences of the 0.10 free-API and 0.15 preferred-local bonuses are above 0, or 0 and its id is smaller |
| Routing.RaisingKeepsPlace | src/forge_controller/router.py:39-52 | Raising a candidate's capability, reliability or latency score never costs it its admission, its rank before another, or its place |
| Routing.SelectCandidate | src/forge_controller/router.py:18-52 | The first of the eligible candidates in (-score, id) order, or none exactly when none is eligible |
| Routing.NextRetryAt | src/forge_controller/repository.py:364-379 | The earliest future retry time among policy-compatible candidates |
| Routing.RetryableAnswerBlocks | src/forge_controller/quota.py:35-91 | After a 429, 502, 503 or 504 the deployment is usable at that instant if and only if the headers announce a negative delay: for a degraded provider a negative retry-after, otherwise a negative reset of an exhausted counter or, without one, a negative first delay given; non-negative headers never do |
| Routing.RateLimitAnswer | src/forge_controller/quota.py:39-91 | What every 429 records, whatever its error code: offline, degraded with retry-after or two minutes, an exhausted long quota without a wake time, or the believed delay (an exhausted counter's reset, requests before tokens, else the first given, else a minute), a throttle up to an hour and an exhausted quota beyond |
| Routing.StatesExactly | src/forge_controller/quota.py:35-91 | The classification read backwards: which status and error code put a deployment into which state, and until when |
| ModelGateway.DistinctTriesExactly | src/forge_controller/model_gateway.py:75-95 | For all replies: a call tries pairwise distinct deployments if and only if no answer but the last announces a negative delay, and it tries a deployment again right away exactly after such an answer |
| ModelGateway.TriesFollowRanking | src/forge_controller/model_gateway.py:75-95 | For all replies, immediate repetitions aside, the tried deployments are the first of the ranking of those eligible at the start; a next one is the same after a negative delay and new otherwise |
| ModelGateway.WaitingMeansAllTried | src/forge_controller/model_gateway.py:75-109 | For all replies, a call that waits after a positive number of allowed attempts has tried exactly the deployments eligible at its start, in ranking order; deployments not tried keep their rows |
| ModelGateway.FailoverIsOrderly | src/forge_controller/model_gateway.py:72-109 | When no answer but possibly the last announces a negative delay, the tried deployments are pairwise distinct, best first among those eligible at the start, and each ranks before every eligible one not tried |
| ModelGateway.NegativeDelayRetriesTheSame | src/forge_controller/model_gateway.py:87-95 | With attempts left after an answer that announces a negative delay, the loop makes a further attempt, and makes it at the same deployment |
| ModelGateway.DeploymentStore.Failover | src/forge_controller/model_gateway.py:74-109 | The attempt loop: each deployment it tries heads the eligible ones on the rows as they are then, every retryable answer before the last is recorded and followed by another try, and each outcome means what it says; waiting comes with the earliest retry time on record |
| ModelGateway.DeploymentStore.Forward | src/forge_controller/model_gateway.py:56-109 | An unknown alias is refused before anything is tried; a known one fails over for its capability |
| ModelGateway.AliasesExactly | src/forge_controller/model_gateway.py:11-19 | A model is an alias of a capability if and only if it is the capability's name with dashes under forge/, and the capability is one of the seven |
| ModelGateway.ForwardedRequest | src/forge_controller/model_gateway.py:68-70 | A forwarded call asks for the alias's capability at its sensitivity, and never for a paid or a preferred local deployment |
| ModelGateway.TriedArePermitted | src/forge_controller/router.py:24-36 | Every deployment a call tries is enabled, takes the sensitivity, has the capability, and is paid only if the request allows it |
| ModelGateway.RetriesExactly | src/forge_controller/model_gateway.py:87-103 | Every answer but the last was 429, 502, 503 or 504, and the call ends with the first answer that is none of these or with its attempts |
| ModelGateway.RetryRecords | src/forge_controller/quota.py:35-91 | What each of these answers writes to the deployment's row, from its headers, in microseconds |
| ModelGateway.DeploymentStore.PlaceStored | src/forge_controller/model_gateway.py:76-76 | Placement over the stored rows: the best eligible row, or none eligible and the exact wake time |
| ModelGateway.DeploymentStore.RecordAvailability | src/forge_controller/repository.py:326-362 | State and retry time of exactly one deployment change; an unknown id changes nothing |
| ModelGateway.NextInRanking | src/forge_controller/router.py:51-52 | With the first k of the ranking out, the best of the rest is the next |
| ModelGateway.UntriedKeepTheirRows | src/forge_controller/model_gateway.py:87-95 | Recording answers touches tried deployments only |
| DenialStore.EveryInterleavingCounts | src/forge_controller/governance_store.py:24-95 | Under every interleaving of denials, safe alternatives, retries and rollbacks: each scope's total counts its completed denials, its streak those since the last safe alternative, its reason and time are the last denial's, the owner is interrupted exactly by the policy, and no retry meets a second integrity error |
| DenialStore.OwnerIsInterruptedInTime | src/forge_controller/governance.py:185-223 | Over every run on one scope under one policy: at most total_before_escalate - 1 denials ever pass quietly, and never consecutive_before_escalate in a row without a safe alternative |
| DenialStore.QuietDenialsAreBounded | src/forge_controller/governance.py:205-218 | The bound on quiet denials of any log that follows the policy |
| DenialStore.StreaksInterrupt | src/forge_controller/governance.py:205-218 | A window with enough denials and no safe alternative contains an interrupt |
| DenialStore.EveryOperationCompletes | src/forge_controller/governance_store.py:24-95 | From every reachable state an arriving operation can be carried through by the steps of the lock's holder and its own, and only a denial without a proper time aborts: no lock is ever orphaned |
| DenialStore.FinishedCallsAreLoggedOnce | src/forge_controller/governance_store.py:24-95 | In every run, for every operation, as many calls finished as the log has entries of it |
| DenialStore.SelectKeeps | src/forge_controller/governance_store.py:113-129 | Locking a row, waiting for it or finding none keeps the invariant |
| DenialStore.CommitKeeps | src/forge_controller/governance_store.py:143-165 | Writing a locked row, or inserting a first one under the unique key, keeps the invariant |
| DenialStore.RollbackKeeps | src/forge_controller/governance_store.py:69-80 | A rolled-back transaction leaves the row as it was and unlocked |
| DenialStore.RollbackLeavesNoTrace | src/forge_controller/governance_store.py:69-80 | A crash at any point aborts the call, releases its lock and changes no counter |
| DenialStore.GovernanceDenialStore.RecordDenial | src/forge_controller/governance_store.py:24-56 | With rivals in the gap before the insert, the whole call is one atomic denial after them; it never fails with an integrity error |
| DenialStore.GovernanceDenialStore.RecordDenialOnce | src/forge_controller/governance_store.py:58-80 | One attempt: an integrity error only when a rival inserted the row, and then nothing of its own is written |
| DenialStore.GovernanceDenialStore.RecordSafe | src/forge_controller/governance_store.py:82-95 | The streak ends, the total stays, and a missing row is not created |
| Leases.AtMostOneLiveLease | src/forge_controller/redis_state.py:33-54 | Under every interleaving of acquire, release and expiry at most one unexpired unreleased lease exists per resource, and the visible key is exactly that lease |
| Leases.AcquireExactlyWhenFree | src/forge_controller/redis_state.py:33-34 | An acquire succeeds exactly when its ttl is positive and the resource has no live lease; the new lease is the caller's and, left alone, lives for exactly its ttl |
| Leases.ReleaseTrueEndsOwnLease | src/forge_controller/redis_state.py:36-54 | At EXEC a release returns True exactly when the key is visible and unwritten since WATCH; its value is then the caller's, and exactly that lease ends; it starts over or returns False exactly otherwise |
| Leases.ReleasesMatchLeases | src/forge_controller/redis_state.py:33-54 | In every run, for every resource and owner, as many releases by the owner returned True as leases of the owner were ended before their time: none twice, none by a stranger, none silently |
| Leases.UndisturbedRelease | src/forge_controller/redis_state.py:36-54 | Whatever went on before, a release nobody disturbs is decided by its first pass: True and the key gone exactly when the key is visibly the caller's |
| Leases.EventsExactly | src/forge_controller/redis_state.py:33-54 | What each event of another client or the clock changes in what a caller can read |
| Leases.UnwrittenKeyIsUnchanged | src/forge_controller/redis_state.py:42-51 | Between WATCH and EXEC a key whose write count did not change is the key that was read |
| Leases.RedisStateStore.AcquireLease | src/forge_controller/redis_state.py:33-34 | NX and expiry: True exactly when no visible key existed, and then the key is the caller's until its time |
| Leases.RedisStateStore.ReleaseLease | src/forge_controller/redis_state.py:36-54 | With other clients in every gap of every round: True exactly when the key holds the caller's value at the deciding moment, and then exactly that key is deleted |
| CodexBridge.EveryInterleavingRebuilds | src/forge_controller/codex_bridge.py:130-166 | For every interleaving of process, both pumps, lock and client: each client buffer is always a prefix of its own stream, and when the client has handled the normal exit frame both streams are complete and the exit code is the process's |
| CodexBridge.EverySessionCanComplete | src/forge_controller/codex_bridge.py:47-80 | From every reachable running session, whoever holds the lock and whatever is left in the pipes: the process may write any more output and exit with any code, and the session can go on until the client has both streams whole and that code |
| CodexBridge.CutShort | src/forge_controller/codex_bridge_client.py:55-75 | A running session can also end with the client reporting 124 after a timeout or 126 after a failure |
| CodexBridge.OneWriterAtATime | src/forge_controller/codex_bridge.py:130-166 | While a pump has the lock only its own data frames reach the socket; exit and failure frames are written only when nobody has it |
| CodexBridge.FedIsPrefixOfInput | src/forge_controller/codex_bridge.py:112-127 | The process is fed a prefix of the client's input, and all of it once its stdin is closed |
| CodexBridge.EveryInputCanComplete | src/forge_controller/codex_bridge.py:112-127 | While the input is open any more can be typed, and the session can go on until the process has all of it and its stdin is closed |
| CodexBridge.EveryDataFrameFits | src/forge_controller/codex_bridge.py:158-166 | Every data frame the server writes stays under the 1 MiB limit |
| CodexBridge.DataLineFits | src/forge_controller/codex_bridge.py:130-152 | The JSON line of a full chunk is under the limit and its only newline is its last character |
| CodexBridge.TimedOutIsCompleteExactly | src/forge_controller/codex_bridge.py:68-70 | After the timeout's exit frame a client's stream is complete exactly when everything produced had been sent at the timeout and nothing was produced afterwards |
| CodexBridge.StepKeepsValid | src/forge_controller/codex_bridge.py:47-80 | Every step keeps the byte accounts of both pipes, the socket and the client |
| CodexBridge.InputStepKeeps | src/forge_controller/codex_bridge_client.py:18-24 | Every step of the client's pump and the server's feed keeps the input account |
| CodexBridge.PumpOutput | src/forge_controller/codex_bridge.py:130-143 | Whatever sizes the reads return and whatever the other pump writes in between, the socket gains exactly this stream's bytes and loses none of the other's |
| CodexBridge.Demultiplex | src/forge_controller/codex_bridge_client.py:55-75 | The client's loop returns each stream's bytes up to the first final frame, and the result that frame means |
| CodexBridge.PumpStdin | src/forge_controller/codex_bridge_client.py:18-24 | The input as data frames that all fit, followed by exactly one end marker |
| CodexBridge.FeedStdin | src/forge_controller/codex_bridge.py:112-127 | Bytes are written up to the first frame that is not valid stdin data; only the end marker closes the process's stdin |
| RetryPolicy.NeverShrinksExactly | src/forge_controller/retry_policy.py:28-42 | For all hashes: delays never shrink from one attempt to the next if and only if the base is not negative and the jitter fraction is at most 1, or the base is zero, or the cap is at most twice the base |
| RetryPolicy.DelayBounds | src/forge_controller/retry_policy.py:28-42 | Every delay lies between min(cap, base * 2^(n-1)) and cap |
| RetryPolicy.DelayIs | src/forge_controller/retry_policy.py:28-42 | The delay of every attempt written out: min(cap, base * 2^(n-1)), plus hash / (2^64 - 1) of the jitter it allows, again up to the cap; no delay exactly below attempt 1 |
| RetryPolicy.CapIsReached | src/forge_controller/retry_policy.py:28-42 | With a positive base the cap is reached after finitely many attempts and kept |
| RetryPolicy.ProbeNeverBeforeReset | src/forge_controller/retry_policy.py:16-25 | A probe is never before the provider's reset, nor later than the jitter allows |
| RetryPolicy.ProbeIs | src/forge_controller/retry_policy.py:8-25 | The probe written out: the reset plus hash / (2^64 - 1) of a positive jitter bound |
| RetryPolicy.NegativeBaseShrinks | src/forge_controller/retry_policy.py:38-42 | A negative base makes some later delay shorter, for every hash |
| RetryPolicy.LargeJitterShrinks | src/forge_controller/retry_policy.py:39-42 | A jitter fraction above 1 with room under the cap lets some hash shorten the second delay |

## Left out

- FastAPI routes, credentials, argument parsing, systemd, Docker and shell files: plumbing without state worth proving.
- HTTP clients, provider adapters, LiteLLM configuration and the MCP server: foreign calls or field copying.
- Concurrent owner actions: `src/forge_controller/governance_api.py:220-234` reads and saves in separate transactions, so nothing is claimed about two simultaneous actors; the endpoint is one step.
- Timestamps, evidence references, dispositions and the transition flags of owner actions: no property here depends on them.
- The daily digest's text and date, message texts, summaries, keyboards and the digest lock: only its pruning is modelled.
- TelegramService.TelegramGovernanceService.PollOnce: a missing update id counts as -1, but an id that is not an integer at all, on which the source's sort key may raise, is not modelled.
- TelegramService.TelegramGovernanceService.Restart: the file is as it was saved; a missing one (a fresh state) and an unreadable or invalid one (the process does not start) are not modelled.
- KnowledgeLint.Lint: the base report's orphan pages, broken links and unknown source references come from another component.
- Inevitable progress of `release_lease`, `poll_once` and the bridge: their loops have no bound in the code, so completion is proved possible from every reachable state, not under every schedule.
- Leases.RedisStateStore.ReleaseLease: the unbounded retry loop runs through a given list of rounds and then one undisturbed round, and an expiry between GET and EXEC ends the call; the transition system has no such bound and also allows the abort.
- Leases.RedisStateStore.AcquireLease: the key prefix and the reply encoding of the server are not modelled.
- TaskCapsules.CapsuleRepository.SaveCapsule: other writers run whole calls in the gaps of the modelled call; `TaskCapsules.EveryScheduleIsSafe` covers arbitrary interleavings of single steps.
- DenialStore.GovernanceDenialStore.RecordDenial: rivals run whole operations in the gap; `DenialStore.EveryInterleavingCounts` covers arbitrary interleavings.
- The textual kanban id, created-at columns and JSON encoding of capsule rows, and a commit whose outcome the client never learns.
- GraphSync.Projector.SyncAll: report counters and audit events; after a failure the added relations are bounded from both sides, since their order is that of a dictionary.
- Node labels and data, edge metadata and ids: an edge is its unique (project, source, relationship, target) quadruple.
- An edge that another component stored under a different id: the insert of the sync would then violate the unique key.
- GraphSync.Projector.RelateClaims: claims and facts are visited in an arbitrary order; the source uses dictionary order.
- SemanticGraph.SemanticStore.PropagateStale: anchors are updated by one map comprehension instead of a loop over result rows, and the audit event is omitted.
- Routing.SelectCandidate: the head of the sorted list is found by a scan; the rest of the sorted list is never used by the source.
- Header names, duration texts and unparsable delays in `quota.py`: observations carry parsed delays; confidence and reason texts are omitted.
- Float rounding and overflow in scores, delays and timedeltas: scores and delays are reals, instants integers on one clock.
- The injection regular expressions, content references, integrity hashes and task ids of envelopes.
- The JSON text of bridge frames beyond the compact data line, launch and ready frames, process termination and container removal.
- CodexBridge.PumpOutput: the other pump writes whole frames before each of this pump's frames; `CodexBridge.EveryInterleavingRebuilds` covers arbitrary interleavings with the lock.
- Cryptographic strength: MACs and digests are functions of fixed output length.
- Sandbox planning, Codex command building, host preflight, secret registry, capability checks and the wake queue in Redis: single-branch checks or plain calls.
