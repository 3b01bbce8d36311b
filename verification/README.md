# MNCS Commons, verified

MNCS Commons is a local, file-backed commons of records: claims, evidence, work requests and the
events about them, each addressed by the SHA-256 of its canonical JSON. This project models the
parts of it whose correctness is an argument about every input or every run, and proves those
arguments in Dafny. `dafny verify dfyconfig.toml` checks everything.

| file | what it models |
|---|---|
| `Order`, `Rearrange` | the code-point order, stable sorting, sequences up to order |
| `Pressure`, `PressureReplay`, `PressureNative`, `PressureRules`, `PressureEvidence`, `PressureAgreement`, `PressureDivergence`, `PressureUnverified`, `PressureRegistry` | the append-only transition log of a pressure: the host replay, the compiled kernel's fold, the evidence rules, where the two readings agree and where they part, the write path |
| `Bfs`, `GraphQuery`, `Closure` | breadth-first search; the bounded undirected graph query; the directed bundle closure |
| `Cycles`, `Records`, `WorkProtocol`, `Producers`, `Semantic`, `StoreRules` | depth-first cycle detection as an admission gate; revision and work histories; producer references; open-work selection |
| `Lifecycle`, `EventAdmission` | lifecycle projections per trust domain; what the store admits |
| `Retention`, `Compaction`, `Citations`, `Staging`, `Forks`, `Commons`, `CompactionRefused` | protection, time-to-live, what compaction may remove, histories across compactions, archives and the whole store over any run of operations, and the small stores compaction cannot get past |
| `Ledger`, `LedgerRecovery`, `LedgerCommits`, `LedgerCompaction`, `Sync` | the hash-linked ledger, crash recovery of its commits, what a commit can lose, what a compaction strands, incremental reads |
| `Limiter` | the sliding-window rate limiter |
| `JsonText`, `TextBytes`, `Canonical`, `CanonicalEquivalence`, `CanonicalIdentity`, `JsonReader`, `JsonRoundTrip`, `Framing` | canonical JSON down to its bytes, content digests, a reader that follows RFC 8259 and RFC 3629, the service's frames |
| `Bundle`, `BundleSafety`, `BundleImport` | packing and checking bundles, what an accepted one guarantees, importing them |
| `DeltaWalk` | the walk along architecture deltas |

## Assumptions

- SHA-256 is injective, so equal digests mean equal content. Where this matters it is a precondition
  (`CollisionFree`, `ContentAddressed`, `Sound`, `Trusted`, `Injective`, `Unforgeable`) or the digests of different
  records are stated to be distinct.
- Event ids of pressures are truncated hashes (16 hexadecimal digits); they too are taken to be free of
  collisions, and are never empty.
- Instants are integers, monotonic-clock readings are reals, JSON numbers are integers.
- Verdicts and kinds are closed vocabularies; a value outside them is one extra constructor. The statuses of a transition
  are the texts its document carries, or their absence. `fold` is the kernel's reading of them, through upper case: any
  function that takes each status's own name for that status and the empty text for none (`Folds`). The kernel refuses
  a query in which a row holds a text that folds to nothing (`PressureNative.Projectable`).
- ZIP, tar and zstd are inverse pairs. `json.loads` is the grammar of RFC 8259 (`JsonReader.Loads`).
- An operation that the program runs under its writer lock is one atomic step, except in `Ledger`,
  where each durable write is a step of its own and a crash may come between any two.

## Findings

Where a property one would expect turned out false of the code, the code is modelled as it is, a lemma
gives the failing input, and another says exactly when the property holds.

- The host compares predecessors and statuses as they are spelled, and takes a predecessor that is no text for none; the
  compiled fold reads an empty predecessor as none, any other by its text, a missing `from` as `discovered`, and statuses
  in any case. So a document can be the
  chain's first event for one and an orphan or a stale event for the other
  (`PressureDivergence.EmptyPredecessorDiverges`, `NumberedPredecessorDiverges`, `OddFromDiverges`). A log that chains up
  for the kernel does so for the host exactly when every predecessor is plain, every `from` is spelled as the `to` before
  it and all requirements are met (`PressureAgreement.HostChainsIff`). The two statuses agree exactly when neither reading
  chains up, or the kernel's does and the host's history ends in a status called by its own name
  (`PressureAgreement.StatusesAgreeIff`). Registry writes are always plain
  (`PressureRegistry.Registry.Transition`).
- The evidence rules are keyed on the exact text of `to`. A last event that says `RESOLVED` meets no requirement of
  `resolved`, raises no diagnostic, and is shown as resolved although nothing was verified
  (`PressureUnverified.UnverifiedIsShownResolved`). A conflict-free pressure that is shown as resolved is safely resolved,
  whatever it is declared to affect, exactly when its replayed status is the text `resolved`
  (`PressureDivergence.ShownResolutionSafety`). After such an event the registry accepts no further transition
  (`PressureRegistry.OddHeadRefusesWrites`).
- The last clause of the resolution requirements, the kernel's readiness check, can never fail once the
  clauses before it hold (`PressureRules.ResolutionIffAllClosed`).
- `add_event` looks the current state up under the domain as written, while the projection strips it. An
  event with a padded domain is judged against the record's initial state
  (`EventAdmission.PaddingAdmitsAStaleEvent`, `EventAdmission.AdmittedAppliesIff`).
- Compaction re-admits the survivors one by one through the ordinary admission rules, and aborts when one is refused.
  It goes through exactly when the removal is `Staging.Stageable`: no history loses a revision from its middle, no work
  request keeps a later revision after losing an earlier one, the surviving producer references agree with the first
  surviving one of their identity, and the survivors close no cycle as they arrive (`Staging.StagedIff`,
  `Commons.Store.Compact`). Each of the four can fail alone: `CompactionRefused.HoleRefuses`, `BeheadingRefuses`,
  `ProducersRefuse`, `CycleRefuses`.
- Compaction may take the last revision of a record whose earlier revision it keeps. A finished work request is then
  selected as open work again, and a second revision with the number already used is admitted
  (`CompactionRefused.FinishedWorkReopens`). Histories stay single chains over everything ever added as long as no
  last revision is taken, and whenever one is a fork is admitted (`Forks.CompactionKeepsUnforked`,
  `Forks.LostEndForks`).
- The open-work list can show superseded requests. A listed request is superseded exactly when it is not the last
  revision of its family: with an explicit revision, when the last one is no longer a revisioned work request; without
  one, when there is any later revision at all (`Semantic.OutdatedIff`, `Semantic.KindChangeListsOutdatedWork`,
  `Semantic.UnrevisionedWorkStaysListed`).
- Bundles are imported in path order. A fresh store refuses a bundle in which a later revision has the
  smaller digest (`BundleImport.LaterRevisionFirstIsRefused`); `Semantic.GrownIff` says which orders it takes.
- Two kinds of commit return, leave nothing pending, and lose every row that was ever committed: one onto a last line
  that lacks its newline, and one whose row takes the ledger past a bound on lines, rows or bytes, which only reading
  checks (`LedgerCommits.CommitIsKeptIff`). The first needs one crash, after which recovery accepts the ledger and
  `verify` passes (`LedgerCommits.OpenIsReachable`); the second needs none: a store in which nothing crashes keeps its
  rows exactly as long as all of them together fit the bounds (`LedgerCommits.CommitsAreKeptIff`). A ledger stays readable
  exactly as long as no write leaves part of a line, goes onto a line without its newline or goes past a bound
  (`LedgerRecovery.ReadableIff`), and an acknowledged row can be read exactly as long as the ledger can
  (`LedgerRecovery.AcknowledgedIffReadable`).
- A crash after a transaction directory is made and before its journal is written, or while the directory
  is being removed after a finished commit, leaves a store that refuses every record and event and that `recover`
  cannot repair (`LedgerRecovery.StuckIsReachable`). A pending transaction can be brought back to a store that verifies
  exactly when the ledger can be read, the journal is on disk, and its row is in the ledger already or fits onto a
  line of its own (`LedgerRecovery.RecoverableIff`).
- Compaction does not look for pending transactions. One that could still be recovered before a compaction is installed
  never can be afterwards: the store is readable, and refuses every record, event and recovery
  (`LedgerCompaction.InstalledVerifiesIff`).
- Compaction conserves records, not events: an event about a record that leaves is in the archive, but `get` looks into
  archives only for records, so its digest is no longer found.

## Model

| member | source | states |
|---|---|---|
| `Pressure.CurrentVerifications` | src/mncs_commons/pressure.py:216-236 | sorting by (instant, id) and letting the last one win yields, for exactly the verified repositories, the verification no other is later than |
| `Pressure.LatestIsMaximal` | src/mncs_commons/pressure.py:216-236 | the chosen verification exists iff there is one, and none is strictly later |
| `Pressure.AllowedIff` | src/mncs_commons/mesh/mncs/commons/pressure/lifecycle.mncs:466-476 | the transition law read backwards: from where each status can be reached |
| `Pressure.ProjectOne` | src/mncs_commons/pressure.py:1371-1490 | the replay loop over the by-predecessor index computes the specified replay: chain, stopping reason, dangling events, status |
| `Pressure.BucketByPrevious` | src/mncs_commons/pressure.py:1380-1385 | each bucket holds exactly the events that claim that predecessor, in document order |
| `PressureReplay.NoRevisit` | src/mncs_commons/pressure.py:1403-1413 | an event that claims the head of a linked chain is not on the chain, so the cycle diagnostic is unreachable |
| `PressureReplay.ConflictFreeIffLinear` | src/mncs_commons/pressure.py:1371-1490 | no lifecycle diagnostic iff all transitions form one chain from the null head whose `from` values match, whose steps the policy allows and whose requirements hold; the replayed chain is that chain |
| `PressureReplay.CyclesSurfaceAsDangling` | src/mncs_commons/pressure.py:1403-1413 | events in a cycle of predecessors are never walked: they are dangling and the status is conflicted, never an event cycle |
| `PressureReplay.ProjectionIsOrderFree` | src/mncs_commons/pressure.py:1350-1386 | replay, stopping reason and status do not depend on the order of the documents |
| `PressureReplay.MergeNeedsPrefix` | src/mncs_commons/pressure.py:1386-1399 | a merge of two valid histories is conflict-free only if one is a prefix of the other |
| `PressureReplay.ForkIsConflicted` | src/mncs_commons/pressure.py:1480-1526 | any fork makes the status conflicted, and what is replayed stays within the common prefix |
| `PressureReplay.ForkIsLocated` | src/mncs_commons/pressure.py:1386-1399 | when the common part is valid, replay stops exactly at the fork and reports concurrent transitions |
| `PressureNative.NativeIffLawfulChain` | src/mncs_commons/mesh/mncs/commons/pressure/lifecycle.mncs:227-296 | the compiled fold reports no conflict iff the events, as its rows read them, form one linked lawful chain in some order, and its status is the chain's last |
| `PressureNative.NormalisedAlike` | src/mncs_commons/pressure.py:757-778 | the fold does not tell an empty predecessor from a missing one, nor a status in other letters, or a missing `from`, from the status by its own name |
| `PressureAgreement.ConflictFreeIffHostChains` | src/mncs_commons/pressure.py:1371-1490 | no lifecycle diagnostic iff the events in some order are one history as the host reads them |
| `PressureAgreement.HostChainsIff` | src/mncs_commons/pressure.py:1407-1440 | a log that chains up for the kernel does for the host iff every predecessor is absent or a nonempty text, every `from` repeats the `to` it follows letter by letter, and all requirements are met |
| `PressureAgreement.HostAgreesWithKernel` | src/mncs_commons/mesh/mncs/commons/pressure/lifecycle.mncs:271-296 | when all predecessors and statuses are plainly written the host is conflict-free iff the fold is and every requirement is met, and then both report the same status |
| `PressureDivergence.KernelConflictIsReportedByHost` | src/mncs_commons/pressure.py:1616-1632 | whenever the fold rejects a history, the host's replay raises or has one of its own structural diagnostics, unless some predecessor is no text and yet shows as one; only then is the extra native diagnostic added |
| `PressureAgreement.StatusesAgreeIff` | src/mncs_commons/pressure.py:1597-1611 | the kernel's status and the host's are the same text iff neither reading chains up, or the kernel's does and the host's history ends in a status called by its own name |
| `PressureDivergence.EmptyPredecessorDangles` | src/mncs_commons/pressure.py:1380-1399 | an event with an empty predecessor is never reached by the host, is reported as dangling and makes the status conflicted |
| `PressureDivergence.EmptyPredecessorDiverges` | src/mncs_commons/mesh/mncs/commons/pressure/lifecycle.mncs:220-258 | a concrete log on which the fold accepts what the host calls conflicted |
| `PressureDivergence.NumberedPredecessorDiverges` | src/mncs_commons/pressure.py:765-775 | a concrete log, with a predecessor that is no text, that the host accepts and the fold rejects |
| `PressureDivergence.OddFromDiverges` | src/mncs_commons/pressure.py:1415-1425 | a concrete log, with a missing `from` or one in other letters, that the fold accepts and the host calls stale |
| `PressureDivergence.ShownResolutionSafety` | src/mncs_commons/pressure.py:1262-1336 | a conflict-free pressure shown as resolved keeps the promise of resolution for every declaration of affected repositories iff its replayed status is the exact text |
| `PressureUnverified.UnverifiedIsShownResolved` | src/mncs_commons/pressure.py:1262-1336 | a concrete history without diagnostics that is shown as resolved and verified nothing |
| `PressureUnverified.FoldLettersFolds` | src/mncs_commons/pressure_runtime.py:388-410 | case folding over plain letters is such a reading of statuses |
| `PressureRules.ResolutionIffAllClosed` | src/mncs_commons/pressure.py:1288-1326 | resolution is allowed iff the references resolve, something is affected and every affected repository's latest verification is closed; the counts are then (n, n, 0, 0, n) and the readiness check cannot fail |
| `PressureRules.MetIffBacked` | src/mncs_commons/pressure.py:1262-1336 | the replay's requirement check passes iff the pressure's own documents back the event: references, reproduction, reason, implementation, relation, or for `resolved` every involved repository's last verification PASS and settled, counting what the event refers to or is dated strictly after; the write path's check is the same over everything on file |
| `PressureRules.SettledIff` | src/mncs_commons/pressure.py:216-236 | the latest verification in sight is the one no other is dated after, undated first, ties by id and then by document order |
| `PressureRules.EveryEventIsBacked` | src/mncs_commons/pressure.py:1441-1471 | in a conflict-free pressure every event is backed in that sense by what it could count on |
| `PressureEvidence.ResolutionSafety` | src/mncs_commons/pressure.py:1441-1471 | in every conflict-free history whose replayed status is `resolved` each repository that is declared, or named by an observation the last event refers to or is dated after, has a last verification among those, and it is PASS with no workaround kept |
| `PressureEvidence.RoadToResolved` | src/mncs_commons/mesh/mncs/commons/pressure/lifecycle.mncs:466-476 | every history the kernel takes for resolved ends available, verifying, resolved, and the first of these, if spelled so, carried an implementation and evidence |
| `PressureEvidence.FinalStatesAreLast` | src/mncs_commons/mesh/mncs/commons/pressure/lifecycle.mncs:466-476 | resolved, duplicate, superseded and obsolete, however spelled, can only be reached by the last event |
| `PressureEvidence.LateEvidenceChangesNothing` | src/mncs_commons/pressure.py:1435-1471 | adding any unreferenced observations, undated or dated no earlier than every transition, leaves chain, status and diagnostics unchanged |
| `PressureRegistry.AppendExtends` | src/mncs_commons/pressure.py:1435-1482 | appending at the head of a conflict-free log stays conflict-free iff the step is allowed and the event's requirements hold on what it can see; the chain grows by that event |
| `PressureRegistry.FreshId` | src/mncs_commons/pressure.py:507-509 | the content-derived id of a new head event is never already taken |
| `PressureRegistry.CaseIs` | src/mncs_commons/pressure.py:1350-1370 | a pressure is judged by exactly its own observations and the relations it is an end of |
| `PressureRegistry.HostStatusIsNative` | src/mncs_commons/pressure.py:1597-1611 | on a conflict-free log with plain predecessors the status shown from the kernel is what the replayed text means, and the same text iff that is called by its own name |
| `PressureRegistry.ValidRegistryShowsReplayed` | src/mncs_commons/pressure.py:1987-2021 | in a registry that validates the shown status is what the replayed one means, unless a predecessor is no text and yet shows as one |
| `PressureRegistry.OddHeadRefusesWrites` | src/mncs_commons/pressure.py:1199-1260 | no event that starts from a status's own name can follow a head that is spelled otherwise |
| `PressureRegistry.Registry.Transition` | src/mncs_commons/pressure.py:1199-1260 | written iff the pressure is on file, the actor known, the event dated, the expected head right, the step allowed from the shown status, that status the replayed one, every reference on file, and the event backed both by everything on file and by what it can count on; then the new chain is the old chain plus the event, plainly spelled, the status is the target and no other pressure is touched; a refusal changes nothing |
| `PressureRegistry.Registry.WriteChecked` | src/mncs_commons/pressure.py:1250-1260 | the document stays iff the registry still validates with it |
| `Bfs.BallIsReachability` | src/mncs_commons/query.py:353-367 | a node lies within k hops iff a path of at most k references leads to it from a root |
| `Bfs.SelectedDistance` | src/mncs_commons/query.py:357-367 | a node is popped for the first time at its true distance, although the queue may hold duplicates |
| `GraphQuery.BuildAdjacency` | src/mncs_commons/query.py:320-344 | two records are adjacent iff one names the other by digest or record id |
| `GraphQuery.EdgeMeans` | src/mncs_commons/query.py:320-344 | an edge joins a record to the last record that bears the name one of its relations gives |
| `Records.ByRefMeans` | src/mncs_commons/bundle.py:66-72 | the index of references finds the last record that bears a reference as its digest or record id, and nothing if none does |
| `GraphQuery.BoundedGraph` | src/mncs_commons/query.py:308-386 | everything selected, each once, is within the depth bound of a root over relations taken either way; without truncation all of it is selected; truncation happens iff the cap leaves something out, and then exactly the cap is selected, none farther than any left out |
| `Closure.Select` | src/mncs_commons/bundle.py:64-90 | selects exactly the records that at most so many relations lead to, one record after the other, from a root, each once, in digest order; a reference means the last record that bears it; no roots means all |
| `Cycles.HasCycle` | src/mncs_commons/semantic.py:50-66 | true iff some non-empty path leads from a node back to itself |
| `Cycles.CountDuplicateCycles` | src/mncs_commons/pressure.py:2024-2048 | a duplicate-cycle diagnostic is emitted iff the duplicate graph has a cycle |
| `Semantic.RelationEdges` | src/mncs_commons/semantic.py:29-47 | the edges are exactly the resolved `supersedes` and `depends_on` relations |
| `WorkProtocol.Diagnose` | src/mncs_commons/work.py:456-568 | no diagnostic iff the revision may follow: a first one is submitted from nothing, a later one keeps the request, takes allowed steps and names the previous state; each diagnostic iff its own rule is broken |
| `WorkProtocol.ImpliedEndsTogether` | src/mncs_commons/work.py:241-257 | coordination that is left to the work state ends exactly where work does and is complete exactly when work is |
| `Records.WorkFromTheStart` | src/mncs_commons/work.py:484-540 | a revision of the work protocol has only such revisions before it, all with the same request |
| `Producers.CheckReferences` | src/mncs_commons/semantic.py:100-137 | the loop over bindings reports a conflict iff a reference disagrees with the one that bound its identity first |
| `Producers.ConsistentExtends` | src/mncs_commons/semantic.py:100-137 | the store's references stay consistent iff the candidate's raise no conflict |
| `Producers.OneProducer` | src/mncs_commons/semantic.py:113-127 | one stable identity has one producer, kind and schema version throughout a store |
| `Semantic.SemanticDiagnostics` | src/mncs_commons/semantic.py:69-177 | each diagnostic appears iff its rule is broken: revision, work protocol, producer references, self-relation, self-replication, cycle; a stored record gets none |
| `Semantic.AdmissionKeepsWellGrown` | src/mncs_commons/semantic.py:69-177 | admitting a diagnostic-free record keeps every history one chain of lawful revisions, references consistent, no record about itself and the ordering relations acyclic |
| `Semantic.RunsStayWellGrown` | src/mncs_commons/semantic.py:69-177 | over every run of admissions the same holds: revision histories never fork and the relation graph stays acyclic |
| `Semantic.GrownIff` | src/mncs_commons/semantic.py:69-177 | a fresh store takes records in a given order iff histories, producer references and self-relations are in order and no stage closes a cycle |
| `Semantic.AcyclicWithSink` | src/mncs_commons/semantic.py:29-66 | a record without relations closes no cycle, although references to its id now name it |
| `Semantic.RevisionsAreUnique` | src/mncs_commons/semantic.py:78-97 | one record per logical id and revision |
| `StoreRules.AcyclicIff` | src/mncs_commons/semantic.py:29-66 | the relation graph is acyclic iff no stored records each name the next in a `supersedes` or `depends_on` relation and come back to the first |
| `StoreRules.EveryRevisionFollows` | src/mncs_commons/semantic.py:78-97 | in a grown store every record but the first with its id names, by digest and number, a revision stored before it |
| `StoreRules.NothingNamesItself` | src/mncs_commons/semantic.py:139-160 | no stored record relates to or replicates its own digest or id |
| `StoreRules.WorkWasBegun` | src/mncs_commons/work.py:484-540 | completed work was running or checkpointed before, running work was assigned, queued, checkpointed, blocked or retrying, and all of it began as submitted |
| `StoreRules.EveryStepStartsThere` | src/mncs_commons/work.py:484-540 | every later revision of a request repeats it, and its event starts from the state before |
| `StoreRules.CoordinationEnds` | src/mncs_commons/work.py:541-568 | complete, abandoned and superseded coordination stays so, and becomes complete only after having been in progress or verifying |
| `Semantic.SelectWork` | src/mncs_commons/query.py:257-276 | for each id the explicitly revisioned work request with the greatest revision, and every unrevisioned one |
| `Semantic.SelectionIsOrderFree` | src/mncs_commons/query.py:257-276 | in a grown store the selected request of an id is unique, whatever the reading order |
| `Semantic.OutdatedIff` | src/mncs_commons/query.py:257-276 | a listed request is superseded iff it is not the last revision of its family: for an explicit one, iff that last revision is no longer a revisioned work request; for one without a revision, iff the family has a second one |
| `Semantic.KindChangeListsOutdatedWork` | src/mncs_commons/query.py:257-276 | a reachable store in which the selection lists a superseded request after a change of kind |
| `Semantic.UnrevisionedWorkStaysListed` | src/mncs_commons/query.py:257-276 | a reachable store in which a request without a revision is listed beside the work request that replaced it |
| `Lifecycle.DeriveForDomain` | src/mncs_commons/lifecycle.py:125-153 | the loop computes the specified projection: state, applied events, diagnostics, repeated digests skipped |
| `Lifecycle.IrrelevantEventsDoNotMatter` | src/mncs_commons/lifecycle.py:125-153 | a domain projection depends only on the ordered events for its record and domain |
| `Lifecycle.OtherTargetsDoNotMatter` | src/mncs_commons/lifecycle.py:156-193 | dropping other records' events changes neither a domain's view nor the domain-less one |
| `Lifecycle.FinalStateSticks` | src/mncs_commons/lifecycle.py:15-34 | a state with no allowed successor is kept whatever events follow |
| `Lifecycle.AllowedIff` | src/mncs_commons/lifecycle.py:15-34 | the transition rules read backwards: from which states each can be entered |
| `Lifecycle.StateWasEntered` | src/mncs_commons/lifecycle.py:125-153 | whatever the log, a state that is not the first was entered from one it can be entered from |
| `Lifecycle.CombinedViewIs` | src/mncs_commons/lifecycle.py:156-193 | without a domain the view lists exactly each speaking domain with its own state and settles on none; with none speaking the record is proposed |
| `Lifecycle.AcceptedWasVerified` | src/mncs_commons/lifecycle.py:125-153 | nothing is accepted in a domain that was not verified there before, after being reproduced or disputed |
| `Lifecycle.StripIs` | src/mncs_commons/lifecycle.py:100-112 | stripping a domain removes exactly the white space at its ends |
| `EventAdmission.Judge` | src/mncs_commons/store.py:371-415 | an event is appended iff it is well formed, fresh and fits its target's current state; a stored digest is acknowledged |
| `EventAdmission.AdmittedAppliesIff` | src/mncs_commons/store.py:396-413 | an admitted event is applied by its domain's projection iff its domain is unpadded or that domain is still in the initial state |
| `EventAdmission.UnpaddedLogsApplyFully` | src/mncs_commons/store.py:396-413 | in every log with unpadded domains each event is applied and no projection has diagnostics |
| `EventAdmission.PaddingAdmitsAStaleEvent` | src/mncs_commons/store.py:396-413 | two admitted events of which the projection refuses the second |
| `EventAdmission.FilteredLogIsReadmitted` | src/mncs_commons/retention.py:370-399 | the events about any subset of records are accepted again, one by one, by a store holding that subset |
| `Retention.ProtectionGraph` | src/mncs_commons/retention.py:158-184 | the worklist computes the least set that holds all canonical records and is closed under references |
| `Citations.NamedIsProtected` | src/mncs_commons/retention.py:110-155 | whatever a protected record names by a digest is protected |
| `Citations.ProtectedIffCited` | src/mncs_commons/retention.py:158-184 | a stored record is protected iff a chain of stored records, each naming the next by its digest, leads to it from one that is lasting by kind, open state or label |
| `Citations.LeavesIff` | src/mncs_commons/retention.py:414-432 | compaction drops exactly the records that no such chain leads to, that are not pinned and whose days, for their kind, have passed |
| `Compaction.AllCandidates` | src/mncs_commons/retention.py:414-432 | exactly the digests of expired records that are neither pinned nor protected |
| `Compaction.ProtectionUnchanged` | src/mncs_commons/retention.py:158-184 | removing unprotected records changes nothing about what is protected |
| `Compaction.CompactingTwiceIsCompactingOnce` | src/mncs_commons/retention.py:354-376 | compacting now and again later leaves what compacting once later leaves |
| `Compaction.RecompactingFindsNothing` | src/mncs_commons/retention.py:414-432 | compacting again at the same time has no candidates |
| `Compaction.OnlyExpiredLeave` | src/mncs_commons/retention.py:414-432 | a record that leaves was unpinned, unprotected, ephemeral or diagnostic, and expired |
| `Compaction.CompactionKeepsLifecycles` | src/mncs_commons/retention.py:370-376 | for every survivor, domain and the domain-less view, the projection over the kept events is the one over all events |
| `Staging.ReadmittedIffNoHole` | src/mncs_commons/retention.py:396-397 | the survivors of a logical id pass the revision rule iff compaction leaves no gap in their history |
| `Staging.HistoryKeptIff` | src/mncs_commons/retention.py:396-397 | they pass the revision rule and the work protocol iff there is no gap and no work request has lost its beginning |
| `Staging.StagedIff` | src/mncs_commons/retention.py:396-397 | the staging store admits all survivors iff no history has a gap, no work request is beheaded, surviving producer references agree, and no stage closes a cycle |
| `CompactionRefused.HoleRefuses` | src/mncs_commons/retention.py:396-397 | a concrete store whose middle revision expires: compaction is refused |
| `CompactionRefused.CycleRefuses` | src/mncs_commons/semantic.py:168-176 | a concrete store with intact histories where an expired revision makes an id name an older one and closes a cycle: refused |
| `CompactionRefused.BeheadingRefuses` | src/mncs_commons/work.py:467-482 | a concrete work request whose first revision expires while a later one is open: refused |
| `CompactionRefused.ProducersRefuse` | src/mncs_commons/semantic.py:128-137 | a concrete store where the reference that bound an identity expires and two that disagree meet: refused |
| `CompactionRefused.FinishedWorkReopens` | src/mncs_commons/query.py:257-276 | compaction takes the closing revision of a work request; it is selected as open again and a second revision 2 is admitted |
| `Forks.UnforkedIsUnique` | src/mncs_commons/semantic.py:78-97 | then id and revision determine a record among all ever added |
| `Forks.AdmissionKeepsUnforked` | src/mncs_commons/semantic.py:78-97 | admissions keep everything ever added under an id one chain that ends in the hot store |
| `Forks.CompactionKeepsUnforked` | src/mncs_commons/retention.py:370-403 | so does a compaction that takes no last revision |
| `Forks.LostEndForks` | src/mncs_commons/retention.py:370-403 | after one that does, a record with a revision number already used is admitted |
| `Commons.CreateArchive` | src/mncs_commons/archive.py:80-133 | the archive lists and holds exactly the given records, each under its own digest |
| `Commons.CreatedArchiveIsComplete` | src/mncs_commons/archive.py:155-179 | a freshly created archive verifies |
| `Commons.CompleteIff` | src/mncs_commons/archive.py:155-172 | an archive verifies iff each record it lists is among its members |
| `Commons.ConservedIsRetrievable` | src/mncs_commons/archive.py:189-202 | a conserved record is found, unchanged, under its digest in the hot store or the first archive that has it |
| `Commons.Store.AddRecord` | src/mncs_commons/store.py:342-369 | admits iff already stored or free of diagnostics; keeps the store's invariant, in which everything ever added is still retrievable, and unforked histories unforked |
| `Commons.Store.AddEvent` | src/mncs_commons/store.py:371-415 | accepts iff stored or fitting, appends at most that event, keeps the invariant |
| `Commons.Store.Pin` | src/mncs_commons/retention.py:248-260 | pins exactly a well-formed digest, keeps the invariant |
| `Commons.Store.Unpin` | src/mncs_commons/retention.py:262-269 | removes exactly that pin, keeps the invariant |
| `Commons.Store.Compact` | src/mncs_commons/retention.py:354-412 | done iff confirmed, something expired and the removal is stageable, aborted iff it is not; when done the hot set and events are the compacted ones, everything was archived first, and nothing pinned, protected or evidence left; otherwise nothing changes; a hot record stays hot iff a chain of names from a lasting record leads to it, it is pinned, or its days have not passed |
| `Commons.FilteredLog` | src/mncs_commons/retention.py:370-399 | the kept events are a valid log for the survivors |
| `LedgerRecovery.TailIsRight` | src/mncs_commons/store.py:199-240 | however stale the remembered tail is, loading it gives the ledger's true tail |
| `LedgerRecovery.ActKeeps` | src/mncs_commons/store.py:263-331 | every durable write, torn write, crash and recovery step that leaves the ledger readable keeps it linked, its documents filed and unique, and stray files accounted for by the journal |
| `LedgerRecovery.EveryRunIsSafe` | src/mncs_commons/store.py:731-839 | from an empty store or a snapshot, after any run of commits, crashes and recoveries the store verifies iff its ledger can be read within the bounds and nothing is pending; a readable ledger is linked, numbered and lists each document once |
| `LedgerRecovery.VerifiedHoldsExactly` | src/mncs_commons/store.py:809-839 | a store that verifies has content files for exactly the records and events of its ledger, with their very texts |
| `LedgerRecovery.AcknowledgedIffReadable` | src/mncs_commons/store.py:301-316 | a row whose commit reached its cleanup can be read, at its place, through every later run iff the ledger can still be read |
| `LedgerRecovery.ReadableIff` | src/mncs_commons/store.py:170-190 | a ledger stays readable iff no write leaves part of a line, goes onto a line that lacks its newline, or takes the ledger past its bounds on lines, rows and bytes |
| `LedgerRecovery.OpenNeverGrows` | src/mncs_commons/store.py:294-299 | a ledger whose last line lacks its newline never durably commits another row |
| `LedgerCommits.CommitIsKeptIff` | src/mncs_commons/store.py:301-331 | an uninterrupted commit always returns with nothing pending; its row is last in a readable ledger iff it got a line of its own within the bounds, and otherwise no row can be read ever after |
| `LedgerCommits.CommitsAreKeptIff` | src/mncs_commons/store.py:26-28 | a store in which nothing crashes holds all documents committed to it iff their rows together fit the bounds, and none otherwise |
| `LedgerCommits.OpenIsReachable` | src/mncs_commons/store.py:675-712 | one torn append and one recovery lead to a ledger without its last newline in a store that verifies |
| `LedgerRecovery.RecoveryFinishes` | src/mncs_commons/store.py:675-712 | recovery of a transaction whose row is in the ledger or fits onto a line of its own ends with that row there exactly once and a store that verifies, wherever the crash was |
| `LedgerRecovery.RecoverableIff` | src/mncs_commons/store.py:675-726 | some continuation brings a pending transaction to a store that verifies iff the ledger can be read, the journal is on disk, and its row is in the ledger or fits onto a line of its own; with further torn writes it suffices that it fits without its newline |
| `LedgerRecovery.StuckForGood` | src/mncs_commons/store.py:165-168 | with a pending transaction and no journal, or no readable ledger, no commit and no recovery ever changes the store again |
| `LedgerRecovery.DoomedForGood` | src/mncs_commons/store.py:675-712 | with a journaled row missing from a ledger that cannot take it, no continuation ever verifies |
| `LedgerRecovery.StuckIsReachable` | src/mncs_commons/store.py:263-316 | crashes before the journal and during cleanup that lead there |
| `LedgerCompaction.InstalledVerifiesIff` | src/mncs_commons/store.py:567-590 | an installed compaction can be read; it verifies, now or ever, iff no transaction was pending, and with one pending no commit or recovery ever changes it |
| `Sync.SyncSince` | src/mncs_commons/store.py:471-522 | each cursor failure iff its condition; otherwise the page is every wanted row of a stretch that ends at the limit or at the end |
| `Sync.NothingSkipped` | src/mncs_commons/store.py:471-522 | pages chained by cursors over a growing ledger are together exactly the wanted rows, in order, once each |
| `Sync.KeptAre` | src/mncs_commons/store.py:496-512 | the rows of a stretch that are wanted are exactly those the filter takes, each once, in ledger order |
| `Sync.CursorsStayGood` | src/mncs_commons/store.py:484-499 | a cursor is accepted for as long as the ledger only grows |
| `Sync.DigestFixesPrefix` | src/mncs_commons/store.py:252-261 | two linked ledgers that agree on one entry digest agree on everything before it |
| `Sync.AcceptedIffSamePrefix` | src/mncs_commons/store.py:484-499 | a cursor is accepted against another linked ledger iff it is of the same store and that ledger begins with the rows already read |
| `Limiter.Trim` | src/mncs_commons/http_server.py:107-109 | drops exactly the leading times that are out of the window |
| `Limiter.TrimmedCounts` | src/mncs_commons/http_server.py:107-133 | the length of a trimmed queue is the number of acceptances in the window |
| `Limiter.NoWindowExceedsLimit` | src/mncs_commons/http_server.py:111-136 | in every admissible history any window, wherever it ends, holds at most the limit per source and globally |
| `Limiter.NoWindowHoldsMore` | src/mncs_commons/http_server.py:111-136 | counted as a set of accepted requests: no window of the write length holds more writes, and none of the read length more reads, than configured for a source or for all |
| `Limiter.AdmitsIff` | src/mncs_commons/http_server.py:111-136 | a write is admitted iff its own window of the write length has room for its source and for all, a read likewise by the read limits |
| `Limiter.BudgetsAreIndependent` | src/mncs_commons/http_server.py:111-130 | an accepted write never changes a decision about reads, nor the reverse |
| `Limiter.WindowLimiter.Allow` | src/mncs_commons/http_server.py:111-136 | under a non-decreasing clock allows iff the full history has room in both windows; a refusal consumes nothing |
| `TextBytes.ByteOrderIsTextOrder` | src/mncs_commons/canonical.py:26-28 | sorting items by their UTF-8 bytes is sorting them by their characters |
| `TextBytes.Utf8Injective` | src/mncs_commons/canonical.py:38-45 | different texts have different bytes |
| `JsonText.QuoteUnique` | src/mncs_commons/canonical.py:38-45 | a quoted string can be read back whatever follows it |
| `JsonText.IntTextInjective` | src/mncs_commons/canonical.py:38-45 | different integers are written differently |
| `JsonText.JoinInjective` | src/mncs_commons/canonical.py:38-45 | a comma-separated list of JSON texts can be read back in only one way |
| `Canonical.OnePass` | src/mncs_commons/canonical.py:21-51 | encoding the canonical value is a one-pass text: sorting by encoded item commutes with encoding |
| `CanonicalEquivalence.TextBalanced` | src/mncs_commons/canonical.py:38-51 | every canonical text is balanced: no bracket closes early and no comma stands outside |
| `CanonicalEquivalence.SameTextIsEquivalent` | src/mncs_commons/canonical.py:10-35 | at every path, equal canonical texts mean equal values up to key order and unordered arrays |
| `CanonicalEquivalence.EquivalentHaveSameText` | src/mncs_commons/canonical.py:10-35 | and conversely |
| `CanonicalEquivalence.SameBytesIffEquivalent` | src/mncs_commons/canonical.py:48-51 | two values have the same canonical bytes iff they are equal up to key order and reordering at the listed paths |
| `CanonicalIdentity.Idempotent` | src/mncs_commons/canonical.py:21-35 | canonicalizing a canonical value changes nothing |
| `CanonicalIdentity.CanonicalIsEquivalent` | src/mncs_commons/canonical.py:48-51 | the canonical value is equivalent to the value and has its bytes |
| `CanonicalIdentity.SameDigestIffSameContent` | src/mncs_commons/canonical.py:54-69 | two envelopes share a digest iff they are equivalent apart from the digests they carry |
| `CanonicalIdentity.StoredDigestIsIgnored` | src/mncs_commons/canonical.py:54-69 | storing any `contentDigest` in an envelope leaves its digest unchanged |
| `CanonicalIdentity.MetadataDigestIsIgnored` | src/mncs_commons/canonical.py:60-63 | likewise for the digest inside `metadata` |
| `Framing.Stream.ReadExact` | src/mncs_commons/local_service.py:251-264 | however the stream is chunked, returns exactly the next bytes and leaves the rest, or reports truncation when there are too few |
| `Framing.Stream.ReceiveFrame` | src/mncs_commons/local_service.py:267-279 | the outcome and the bytes consumed depend only on the bytes, not on the chunks |
| `Framing.Stream.SendFrame` | src/mncs_commons/local_service.py:282-286 | sends exactly the frame, or nothing when it is too long |
| `Framing.SentIsReceived` | src/mncs_commons/local_service.py:267-286 | a sent object, whatever follows it, is received through the RFC 8259 reader as its canonical value and exactly its frame is consumed |
| `Framing.FrameIs` | src/mncs_commons/local_service.py:282-286 | a frame is the length of the text in four bytes, the first of which weighs most, and the text |
| `Framing.ReceivedIs` | src/mncs_commons/local_service.py:267-279 | short of bytes is a truncation; a length under two or over the maximum is refused with nothing more read; otherwise exactly as much as announced is taken, and accepted iff it is the canonical text of an object |
| `Framing.ReceivedWasSent` | src/mncs_commons/local_service.py:267-286 | every accepted frame is byte for byte what sending the received value produces |
| `Framing.FramesAreUnambiguous` | src/mncs_commons/local_service.py:273-279 | two readers that each give back what was written accept the same frames with the same values |
| `Framing.LoadsIsOne` | src/mncs_commons/local_service.py:273-276 | the RFC 8259 reader is such a reader |
| `JsonRoundTrip.Utf8IsRead` | src/mncs_commons/canonical.py:38-45 | decoding as in section 3 of RFC 3629, with overlong forms and surrogates refused, undoes the encoding of every text |
| `JsonRoundTrip.EncodedReads` | src/mncs_commons/canonical.py:38-45 | wherever it stands, the canonical text of any value is read by the grammar and the escapes of RFC 8259 as that value, keys in the order of the text, and nothing after it is touched |
| `JsonRoundTrip.LoadsUndoes` | src/mncs_commons/local_service.py:273-276 | reading the bytes of any well-formed value gives that value with sorted keys |
| `JsonRoundTrip.TextDeterminesValue` | src/mncs_commons/local_service.py:273-276 | a JSON text determines its value up to key order |
| `Bundle.Create` | src/mncs_commons/bundle.py:93-167 | packs the directed closure of the roots with exactly the events about it, in store order, and lists the roots in order, or all digests when none were chosen |
| `Bundle.ReadMembers` | src/mncs_commons/bundle.py:170-200 | succeeds iff paths are safe and distinct and every limit holds; indexes the files by path |
| `Bundle.Verify` | src/mncs_commons/bundle.py:203-260 | accepts iff version and manifest digest match, each member is listed once, placed by kind, sized, digested and valid, and nothing is unlisted |
| `BundleSafety.AcceptedIsListed` | src/mncs_commons/bundle.py:225-258 | every file of an accepted bundle is valid, listed by its own digest, kind and size, lies in its kind's folder, and is the only one at its path |
| `BundleSafety.TamperEvident` | src/mncs_commons/bundle.py:203-260 | two accepted bundles with the same bundle digest have the same manifest and the same document at every path |
| `BundleSafety.ChangedIsRefused` | src/mncs_commons/bundle.py:245-258 | an accepted bundle with any file changed, added or taken away no longer verifies under its digest |
| `BundleSafety.AcceptedIsBounded` | src/mncs_commons/bundle.py:170-200 | an accepted bundle stays within the limits on files, members and bytes |
| `Bundle.PathIsSafe` | src/mncs_commons/bundle.py:55-57 | paths derived from digests pass the path check |
| `BundleSafety.SafeIff` | src/mncs_commons/bundle.py:55-57 | the path check refuses exactly empty and absolute paths, backslashes, and two dots between slashes or ends |
| `Bundle.PathsDiffer` | src/mncs_commons/bundle.py:117-127 | different documents get different paths |
| `BundleImport.CreatedIsAccepted` | src/mncs_commons/bundle.py:203-260 | the bundle of a sound store, within the limits, passes every check |
| `BundleImport.ImportSequence` | src/mncs_commons/bundle.py:281-293 | import order is the records by path, then the events in source order |
| `BundleImport.ImportBundle` | src/mncs_commons/bundle.py:274-307 | an unacceptable bundle touches nothing; otherwise documents are added one by one until the first refusal |
| `BundleImport.BundleRoundTrip` | src/mncs_commons/bundle.py:274-307 | the bundle a sound store creates is accepted within the limits, and a fresh store takes it iff it admits the records in path order; it then holds them and the source's events about them, and every lifecycle view equals the source's |
| `BundleImport.LaterRevisionFirstIsRefused` | src/mncs_commons/bundle.py:281-293 | two revisions whose path order is not revision order |
| `DeltaWalk.FindLast` | src/mncs_commons/architecture.py:246-253 | finds the delta for an identity that no later-listed one also leads to, or that there is none |
| `DeltaWalk.FirstArrivalIsShort` | src/mncs_commons/architecture.py:257-261 | a first arrival takes no more steps than there are deltas, so the length cutoff never rejects a reachable identity |
| `DeltaWalk.GivingUpIsRight` | src/mncs_commons/architecture.py:254-261 | when the walk gives up, the identity is unreachable |
| `DeltaWalk.Changes` | src/mncs_commons/architecture.py:228-303 | answers with a chain iff following last-listed deltas reaches the identity; the chain is contiguous end to end and made of listed deltas |

## Left out

- GraphQuery.BoundedGraph: the edge rows and the list of unresolved targets it also returns, which are comprehensions over the selection.
- Commons.CreateArchive: the ledger copy and the event members of an archive, its file names and its compression.
- Commons.ConservedIsRetrievable: events; those of a departed record are archived, and nothing looks them up there.
- WorkProtocol.Diagnose: the immutable request fields are compared together, not one diagnostic per field.
- Commons.Store.Compact: reading the store happens before the lock is taken in the program; here it is one atomic step. The swap of generations that ends it replaces the ledger, its tail and the two content directories one after the other without a journal: a crash in between leaves the new ledger over old or partly removed content files, which is read but does not verify, or, while a content directory is missing, a store that reports itself uninitialised; `recover` repairs neither.
- PressureRegistry.Registry.Transition: the field-by-field document checks of `validate` are reduced to identity, known actor, resolvable references and lifecycle validity.
- PressureNative.NativeIffLawfulChain: the kernel's array capacities and wrap-around counters, which its callers never reach, and the limit of 256 bytes on identities, beyond which a query is refused.
- Framing.Stream.ReadExact: deadlines and socket timeouts.
- JsonRoundTrip.LoadsUndoes: texts with fractions or exponents, half surrogate pairs or the words NaN and Infinity, which the program's reader takes and this one refuses; none of them is canonical text of a modelled value.
- Bundle.ReadMembers: symbolic-link modes and the size of the ZIP container itself.
- Bundle.Create: the list of external references, which is informational, and the refusals of a negative depth and of an existing output file.
- Sync.SyncSince: cursors whose sequence is not an integer.
- Canonical.OnePass: floating-point numbers and the refusal of values that are not JSON.
- Lifecycle.DeriveForDomain: Unicode white space beyond blanks, tabs and line ends in a domain.
- Record builders, compatibility tables, the field validators, the family graph and the obligation plan: single-branch checks that would only add easy members.
- HTTP routing, the MCP server, command lines, the remote client, locks and file plumbing.
- The legacy Markdown importer of pressures, which is heuristic text handling.
- `assess_scope` and the other query filters, which are conjunctions of field tests.
