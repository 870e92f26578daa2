# Verification of the governance command layer

This project models the durable governance command layer of Cygnus and the gates around it, and
proves what each of them promises over every input, every run and every interleaving.

| files | what they model |
|---|---|
| `FeedbackExecution`, `LeaseProtocol`, `FeedbackDesks`, `FeedbackOutcomes` | the lease protocol of the feedback routes: sweeps, executions, failure reports and recorded commands as atomic steps of any number of workers |
| `Feedback` | recording of feedback commands, reference resolution, replay recognition, routing policy |
| `Governance`, `GovernanceStore`, `GovernanceDecisions` | governance signals, review assignments with their event log, ticket-draft promotions |
| `Ledger` | the event log of knowledge drafts and its idempotency keys |
| `TicketRecords`, `TicketParsing`, `TicketPlans`, `TicketRefs`, `TicketImport`, `TicketClusters`, `TicketPilot` | the resolved-ticket import and the pilot report that reads it back |
| `Audience`, `AudienceBindings` | audience filters, binding keys, the conflict scan |
| `CapacityMetrics`, `CapacityLoad`, `CapacityGate`, `CapacityVerdicts`, `CapacityMeasures` | load workers, recovery evidence, percentiles, the capacity verdict, the release-gate clauses that read it |
| `Migrations`, `MigrationFindings` | the static checks on the migration chain |
| `Deliveries` | the idempotent receipt store of the delivery consumer |
| `Wrappers`, `Ordering`, `Texts` | results, stable sorting, decimal digits and truncation |

## Conventions of the model

- A transaction is one atomic step. An exception leaves the state as it was. The state is what the
  tables hold; concurrent workers are arbitrary sequences of steps.
- Every step brings its own clock reading. Nothing assumes that readings advance or agree.
- A row is identified by its unique key instead of a random UUID. A feedback route is keyed by its
  command and kind, a governance signal by its reference. The id of a signal's initial event is made
  from the UUID drawn at its insert, so no command can carry it before the signal exists (`Drawn`).
- A digest (SHA-256, HMAC, fingerprints, binding keys, references built from digests) stands for the
  value it digests, or is a function assumed not to collide.
- A lease token is any text never issued before; the set of issued tokens is kept as ghost state.
- The rows a sweep selects are a parameter: any due rows, each once, at most `limit` of them. This
  covers every order and every set that skip-locked selection can leave to a worker.
- Texts stand for their stripped values; where the code strips, only the blank text is left to
  refuse. Floats are reals, instants are integers.
- The wiki (drafts, pages, their projection to knowledge objects) and the compiled promotion proposal
  are parameters, and may differ at every step.
- Where the code overwrites rows, a class does the same and every method is proved equal to a
  function on the value of the tables; the theorems are about those functions.
- What each of those functions decides is stated a second time without it: for which rows, samples or
  tickets an operation is accepted, every column it then writes, and that nothing is written otherwise
  (the members named `...Decides`, `...Tells` and `...Iff`).

## Where the code says less than its description

- The k-th requeue waits 30 * 2^(k-1) seconds only while no lease of the route ran out before: the
  delay doubles with the attempt count, which also counts leases lost to expiry. `RequeueDelay`
  proves the exact delay for every run, and that it is the k-th doubling if and only if no lease was
  lost; `FirstRequeueAfterLostLease` is an instance where the first requeue waits sixty seconds.
- The static migration checks do not see a cycle that hangs beside the chain
  (`DetachedCyclePasses`). `LinearIffRooted` proves the chain linear if and only if every walk ends.
- The baseline revision is never after the baseline, not even where a cycle leads back to it
  (`BaselineOnCycle`); everywhere else the walk decides reachability by at least one step.
- The description of the capacity gate calls a run that exercised no fault not certified. With
  injection switched off the code can report a PASS: `IdleRunPasses` gives a run that passes without
  any evidence of recovery, and `PassWithoutInjection` says exactly which runs do. With injection
  enabled there is no such PASS (`PassExercisesEveryTarget`), and the release gate accepts a PASS
  only then (`ReleaseAcceptsIff`).
- A percentile of zero is the largest value, because rank zero counts back from the end
  (`ZerothIsLargest`); the ordinary range is proved for every q above 0 up to 100.

## Model

| member | source | states |
|---|---|---|
| Audience.NormalizeMany | cygnus/domain/audience.py:15-26 | an absent dimension is unconstrained, a blank value is refused, otherwise the first occurrence of each value is kept in order |
| Audience.MatchingFilters | cygnus/domain/audience.py:131-143 | the result holds exactly the allowed filters that admit the reader, and none without a reader |
| Audience.MatchingFiltersInOrder | cygnus/domain/audience.py:131-143 | the result keeps order and repetitions: it is built filter by filter, each kept or dropped where it stands |
| Audience.OverlapIffSharedReader | cygnus/governance/audience_bindings.py:294-312 | the syntactic overlap test holds if and only if some valid reader context matches both filters |
| AudienceBindings.CanonicalDimension | cygnus/governance/audience_bindings.py:38-45 | refuses exactly the lists with a blank value; otherwise the sorted values without repetition |
| AudienceBindings.CanonicalIffSameValues | cygnus/governance/audience_bindings.py:38-45 | two dimensions have one canonical form if and only if the same values occur in them |
| AudienceBindings.BindingKeyIffSameMeaning | cygnus/governance/audience_bindings.py:56-98 | two create commands get one binding key if and only if page, object, variant, channel and the set of readers agree |
| AudienceBindings.ScanBehind | cygnus/governance/audience_bindings.py:334-348 | the inner loop collects the bindings behind one that conflict with it, in order |
| AudienceBindings.DetectConflicts | cygnus/governance/audience_bindings.py:315-348 | the nested loops collect every conflicting pair of the sorted active bindings |
| AudienceBindings.ConflictPairsMembers | cygnus/governance/audience_bindings.py:315-348 | a pair is reported if and only if it stands at two positions of the scan and conflicts |
| AudienceBindings.ConflictingIffSharedReader | cygnus/governance/audience_bindings.py:335-347 | active bindings conflict if and only if they compete for one place with different variants and some reader is shown both |
| AudienceBindings.AmbiguityIsReported | cygnus/governance/audience_bindings.py:315-348 | any reader who is shown two variants makes the scan report a pair |
| AudienceBindings.ConflictFreeIffUnambiguous | cygnus/governance/audience_bindings.py:315-348 | the scan reports nothing if and only if every reader of every page, object and channel is shown one variant |
| AudienceBindings.DetectionIgnoresOrder | cygnus/governance/audience_bindings.py:318-333 | any arrangement of the rows gives the identical report |
| AudienceBindings.BindingStore.CreateBinding | cygnus/governance/audience_bindings.py:148-196 | one row per meaning: a known meaning is replayed unchanged; a new one is not found if and only if its page is missing, conflicts if and only if the page exists and the object is foreign, and is appended at version 1 in every other case |
| AudienceBindings.BindingStore.UpdateLifecycle | cygnus/governance/audience_bindings.py:199-227 | only the row with the key and expected version changes, by lifecycle and version plus one; replay, conflict, missing row and bad version each occur if and only if their condition holds |
| AudienceBindings.BindingStore.Detect | cygnus/governance/audience_bindings.py:315-348 | the scan of the stored table is empty if and only if the table is unambiguous, in any row order |
| Governance.Transition | cygnus/governance/review_assignments.py:325-358 | a command leads to one state and owner; it is refused exactly where the assignment already stands there, and otherwise moves exactly there, an escalation with its reason |
| Governance.CreateKeepsInv | cygnus/governance/signals.py:182-241 | creating or replaying a signal keeps rows, event logs, unique commands and frozen promotions consistent; the id of a new initial event is free |
| Governance.ResolveKeepsInv | cygnus/governance/signals.py:295-328 | resolving a signal keeps the same invariant, in particular for promoted signals |
| Governance.AssignKeepsInv | cygnus/governance/review_assignments.py:189-285 | an assignment command keeps the invariant whether it is accepted, replayed or refused, for every command id that can be named |
| Governance.PromoteKeepsInv | cygnus/governance/ticket_draft_promotions.py:124-274 | a promotion keeps the invariant and leaves its signal resolved at the recorded version plus one |
| Governance.RunKeepsInv | cygnus/governance/signals.py:182-328 | every interleaving of create, resolve, assign and promote commands keeps the invariant |
| Governance.RunExtends | cygnus/governance/signals.py:182-328 | no run takes back an event, a promotion, a signal's identity, or a row that is no longer active |
| Governance.HistoryIsGapFree | cygnus/governance/review_assignments.py:113-149 | an event log has sequence 1 to n, starts unassigned, chains its states, and no two neighbours agree in state and owner |
| Governance.RowIsFoldOfLog | cygnus/governance/review_assignments.py:254-280 | in every reachable state the assignment row is the fold of its gap-free log and its version is the log's length |
| Governance.ReplayIsTimeTravel | cygnus/governance/review_assignments.py:89-110 | after any later run, an accepted command answers the assignment it first answered and writes nothing |
| Governance.SpentCommandIdIsRefused | cygnus/governance/review_assignments.py:223-237 | any other use of a spent command id is refused and writes nothing |
| Governance.PromotionFreezesReview | cygnus/governance/ticket_draft_promotions.py:136-274 | after any run a promotion is still there, the only one of its signal and command, its signal row and assignment row unchanged |
| Governance.PromotionReplays | cygnus/governance/ticket_draft_promotions.py:165-202 | after any run a promoted signal answers the same command of the same actor with the same promotion and refuses every other command |
| GovernanceStores.GovernanceStore.InitializeReviewAssignment | cygnus/governance/review_assignments.py:113-149 | adds the unassigned row and the first event |
| GovernanceStores.GovernanceStore.CreateGovernanceSignal | cygnus/governance/signals.py:182-241 | the whole table state and the answer equal the specified creation, which `CreateDecides` tells column by column, and the invariant is kept |
| GovernanceStores.GovernanceStore.ResolveGovernanceSignal | cygnus/governance/signals.py:295-328 | the whole table state and the answer equal the specified resolution, which `ResolveDecides` tells column by column, and the invariant is kept |
| GovernanceStores.GovernanceStore.ApplyReviewAssignmentCommand | cygnus/governance/review_assignments.py:189-285 | the whole table state and the answer equal the specified command, which `AssignDecides` tells column by column for a new command id, and the invariant is kept |
| GovernanceStores.GovernanceStore.PromoteTicketCluster | cygnus/governance/ticket_draft_promotions.py:124-274 | the whole table state and the answer equal the specified promotion, which `PromoteDecides` tells column by column for a new command id, and the invariant is kept |
| GovernanceDecisions.AssignDecides | cygnus/governance/review_assignments.py:189-285 | a new command on a stored signal is accepted if and only if the signal is active, the row stands at the expected version and not yet where the command leads; it then writes the asked state and owner at the next version and one event with actor, reason and the type its action calls for; otherwise it conflicts and writes nothing |
| GovernanceDecisions.PromoteDecides | cygnus/governance/ticket_draft_promotions.py:124-300 | a new command on a stored signal is accepted if and only if the signal is active and unpromoted, its assignment stands at the expected version and every eligibility clause holds; it then stores one promotion with its draft, reason, actor, time and source version and closes the signal; otherwise nothing changes |
| GovernanceDecisions.CreateDecides | cygnus/governance/signals.py:182-241 | a free reference gets its signal, its unassigned row and one initial event, each column as given; a bound one answers its signal if and only if nothing differs |
| GovernanceDecisions.ResolveDecides | cygnus/governance/signals.py:295-328 | an active signal is closed at the next version, a resolved one answers its first resolution, a dismissed one conflicts |
| GovernanceDecisions.UnknownSignalIsMissing | cygnus/governance/review_assignments.py:217-220 | a command is answered with nothing if and only if its reference names no signal, and then writes nothing |
| Feedback.RecordKeepsDesk | cygnus/integrations/governed_feedback_tools.py:122-200 | recording keeps fingerprints faithful and the routes exactly those the policy maps |
| Feedback.RoutingFollowsPolicy | cygnus/governance/feedback_routing.py:94-158 | a new signal gets exactly the route its type is mapped to, never fails, and disturbs no other route |
| Feedback.RecordOnlyAdds | cygnus/integrations/governed_feedback_tools.py:122-200 | recording changes no stored row; a new command adds itself, its fresh route and one audit row |
| Feedback.ReplayFindsRoute | cygnus/governance/feedback_routing.py:94-158 | a replayed signal finds the one route its type is mapped to and writes nothing |
| Feedback.ReplayIffSameCommand | cygnus/governance/feedback.py:207-275 | a spent command id is replayed if and only if actor, type, audience, notes, source and draft agree and the object agrees or was left to the draft; everything else conflicts without writing |
| Feedback.RawCommandIsRecognised | cygnus/governance/feedback.py:207-275 | a command stored with resolved references is recognised from its raw form in any later state and with any wiki |
| FeedbackExecution.SweepTreats | cygnus/governance/feedback_execution.py:198-265 | a sweep claims or fails each selected row as if it were the only one |
| FeedbackExecution.SweepEffect | cygnus/governance/feedback_execution.py:165-265 | a row after a sweep: treated when it was selected and due, untouched when not |
| FeedbackExecution.SweepKeepsInv | cygnus/governance/feedback_execution.py:149-272 | a sweep keeps shapes, leases, outcomes and audit rows consistent after any number of its rows |
| FeedbackExecution.ExecuteKeepsInv | cygnus/governance/feedback_execution.py:275-338 | an execution keeps the invariant, completing a route together with its signal and audit row |
| FeedbackExecution.FailureKeepsInv | cygnus/governance/feedback_execution.py:341-375 | a failure report keeps the invariant |
| FeedbackExecution.RunKeepsInv | cygnus/governance/feedback_execution.py:149-375 | every interleaving of sweeps, executions, failure reports, recorded commands and governance commands keeps every route's shape, unshared leases, one signal per completed route, one audit row per terminal route |
| LeaseProtocol.OnlyOwnersChange | cygnus/governance/feedback_execution.py:535-620 | nothing changes a route but a sweep that selects it when due, or a report whose claim holds its lease |
| LeaseProtocol.TerminalForever | cygnus/governance/feedback_execution.py:288-296 | a terminal route never changes again in any run |
| LeaseProtocol.HolderHasNewestToken | cygnus/governance/feedback_execution.py:244-265 | a running route always carries the token of the last lease handed out for it |
| LeaseProtocol.FencedByNewestToken | cygnus/governance/feedback_execution.py:535-553 | a report changes a route only with its newest token and before the lease ends |
| LeaseProtocol.SupersededForever | cygnus/governance/feedback_execution.py:144-146 | a token that lost its route never gets it back |
| LeaseProtocol.StaleClaimIsPowerless | cygnus/governance/feedback_execution.py:275-375 | after any run a stale claim is told so, and its execution and its failure report write nothing |
| LeaseProtocol.ExactlyOnce | cygnus/governance/feedback_execution.py:322-338 | in every reachable state the route's signal exists if and only if it is completed and is then its outcome, and exactly a terminal route has its one terminal audit row |
| LeaseProtocol.ResolvesIffStands | cygnus/governance/feedback_execution.py:427-465 | the target resolves if and only if the page of the draft, or else the stored page, is eligible, is the stored page and projects to the stored object |
| LeaseProtocol.OwnedExecutionDecides | cygnus/governance/feedback_execution.py:298-338 | an owned execution completes a reachable route if and only if its target stands and blocks it if and only if it does not; its signal is never refused and the policy block never fires |
| LeaseProtocol.RecordedTargetStands | cygnus/integrations/governed_feedback_tools.py:141-179 | whatever reference resolution accepts at recording stands at execution in the same wiki if and only if it has a page |
| LeaseProtocol.ChangeDecreases | cygnus/governance/feedback_execution.py:212-265 | every change of a route lowers a bounded measure of state and attempts |
| LeaseProtocol.AtMostSixChanges | cygnus/governance/feedback_execution.py:212-265 | no schedule changes a route more than six times |
| LeaseProtocol.AtMostThreeClaims | cygnus/governance/feedback_execution.py:212-265 | the attempt count is the number of leases handed out, at most three |
| LeaseProtocol.SweepMakesProgress | cygnus/governance/feedback_execution.py:198-265 | a sweep that selects any due row strictly lowers the total measure of the table |
| LeaseProtocol.AttemptsAreAccountedFor | cygnus/governance/feedback_execution.py:604-620 | attempts are requeues plus leases that ran out plus the attempt under way |
| LeaseProtocol.RequeueDelay | cygnus/governance/feedback_execution.py:604-620 | after k earlier requeues and e lost leases the next requeue waits 30 * 2^(k+e) seconds, which is the k-th doubling if and only if e = 0 |
| LeaseProtocol.FirstRequeueAfterLostLease | cygnus/governance/feedback_execution.py:604-620 | a recorded low rating whose first lease runs out and whose second attempt fails: the first requeue already waits sixty seconds |
| LeaseProtocol.FeedbackRowsStay | cygnus/governance/feedback.py:278-333 | no later transaction touches a stored feedback row |
| LeaseProtocol.RecognisedAfterAnyRun | cygnus/integrations/governed_feedback_tools.py:122-200 | a recorded raw command is replayed with its signal after any run of any transactions |
| FeedbackDesks.FeedbackRoute.RequeueAfterFailure | cygnus/governance/feedback_execution.py:604-620 | the doubling loop reaches the closed form of the delay, and the other columns are cleared |
| FeedbackDesks.FeedbackDesk.RouteFeedbackSignal | cygnus/governance/feedback_routing.py:94-158 | the route table and the answer equal the specification |
| FeedbackDesks.FeedbackDesk.RecordFeedbackSignal | cygnus/integrations/governed_feedback_tools.py:89-249 | rows, routes, audit and answer equal the specification of recording or replaying a command, which `RecordDecides` tells column by column for a new command id |
| FeedbackDesks.FeedbackDesk.ClaimFeedbackRoutes | cygnus/governance/feedback_execution.py:149-272 | the loop over due rows yields the state, claims and terminalisations of the specified sweep; a limit below one is refused without a change |
| FeedbackDesks.FeedbackDesk.ExecuteFeedbackRoute | cygnus/governance/feedback_execution.py:275-338 | all tables and the answer equal the specified execution, signal creation included, which `CompletionTells` and `BlockTells` tell column by column |
| FeedbackDesks.FeedbackDesk.RecordFeedbackRouteFailure | cygnus/governance/feedback_execution.py:341-375 | all tables and the answer equal the specified failure report, which `FailureDecides` tells column by column |
| FeedbackOutcomes.ResolutionDecides | cygnus/integrations/governed_feedback_tools.py:141-179 | references are accepted if and only if object and draft can be seen and are about one page; invisible and disagreeing references are told apart; the answer holds that page and its object |
| FeedbackOutcomes.RecordDecides | cygnus/integrations/governed_feedback_tools.py:122-200 | a new command is recorded if and only if its references resolve, with every column as given, a fresh review route if and only if it is a low rating, a fresh refresh route if and only if it is a stale answer, and one audit row |
| FeedbackOutcomes.SweepDecides | cygnus/governance/feedback_execution.py:198-265 | a selected row with an attempt left is leased for sixty seconds under its token, one without is given up, and told whether its lease ran out or its budget was spent |
| FeedbackOutcomes.ClaimsHoldLeases | cygnus/governance/feedback_execution.py:244-265 | every claim a sweep answers names a row with its attempt count and holds its lease for exactly sixty seconds |
| FeedbackOutcomes.DueIffLeaseEnded | cygnus/governance/feedback_execution.py:165-197 | a running row can be swept if and only if no claim holds its lease any more |
| FeedbackOutcomes.CompletionTells | cygnus/governance/feedback_execution.py:298-338 | an owned execution whose target stands creates one signal: stale-answer type and stale freshness if and only if the feedback is a stale answer, low-rating type and unknown freshness if and only if it is a low rating, about the page the target stands on, for exactly the readers who carry the recorded values, seen when the feedback was given; the route ends with it and one audit row |
| FeedbackOutcomes.BlockTells | cygnus/governance/feedback_execution.py:427-465 | an owned execution whose target does not stand blocks the route for the one reason that its draft, page and object give, with one audit row, and leaves governance as it is |
| FeedbackOutcomes.FailureDecides | cygnus/governance/feedback_execution.py:341-375 | a report with the lease puts the route back for thirty seconds after its first attempt and sixty after its second and gives it up after its third; a report without the lease writes nothing |
| FeedbackOutcomes.RequeuedIsDueLater | cygnus/governance/feedback_execution.py:604-620 | a route put back can be swept again if and only if its time of waiting is over |
| Ledger.TransitionKeyInjective | cygnus/governance/ledger.py:41-48 | two transition keys agree if and only if draft, event type and round agree |
| Ledger.DraftUpdateKeyInjective | cygnus/governance/ledger.py:51-54 | two update keys agree if and only if draft and version agree |
| Ledger.UpdateKeyIsTransitionKey | cygnus/governance/ledger.py:41-54 | an update key meets a transition key exactly for the same draft, the update event and the version as round |
| Ledger.LedgerStore.AppendDraftEvent | cygnus/governance/ledger.py:148-252 | the log and the answer equal the specified append, and the chain invariant is kept |
| Ledger.LedgerStore.RecordDraftUpdate | cygnus/governance/ledger.py:57-106 | the log and the answer equal the specified versioned update, and the chain invariant is kept |
| Ledger.LatestIsLast | cygnus/governance/ledger.py:134-145 | in a chained log the event with the highest sequence is the last one of its draft |
| Ledger.RunKeepsInv | cygnus/governance/ledger.py:165-252 | after any sequence of appends every draft's events are numbered 1 to n, start from no state, chain their states, and no key is used twice |
| Ledger.AcceptedAppendIsFinal | cygnus/governance/ledger.py:182-213 | after any later appends the same key answers the original event if and only if the transition is identical, and never writes |
| Ledger.VersionIsRecordedOnce | cygnus/governance/ledger.py:57-106 | a recorded draft version is answered again if and only if the draft row, content included, is the same |
| Ledger.AppendDecides | cygnus/governance/ledger.py:148-252 | under a fresh key an event is appended if and only if nothing about it is blank and it starts where its draft stands; it then is the next of its draft; blank values and a wrong state are told apart |
| Ledger.UpdateDecides | cygnus/governance/ledger.py:57-106 | a new version is recorded if and only if it follows its predecessor, names its action, overrides no trace field and starts where the draft stands; the trace then holds each field as given |
| TicketParsing.DiagnosticCollector.Add | cygnus/governance/ticket_import.py:131-153 | every diagnostic is counted, the first twenty are kept in order |
| TicketParsing.ParseResolvedTicketExport | cygnus/governance/ticket_import.py:371-405 | the record loop yields the records, or the first twenty diagnostics and their total number |
| TicketParsing.AcceptedIff | cygnus/governance/ticket_import.py:371-405 | an export is accepted if and only if it holds 1 to 5000 rows, all valid, with distinct ticket ids; the result is then the records in file order |
| TicketParsing.ComplaintsIff | cygnus/governance/ticket_import.py:371-405 | a diagnostic is reported if and only if it was there before, one of the first five thousand rows was rejected for it or repeats the ticket id of an earlier line, a row is too many, or there is no row at all |
| TicketPlans.GroupRecords | cygnus/governance/ticket_import.py:440-442 | the dictionary lists the records of every key in order, the keys in order of first appearance |
| TicketPlans.BuildTicketImportPlan | cygnus/governance/ticket_import.py:408-461 | the plan, or the refusal, equals the specification, which `PlanCountsIssues`, `CandidatesInOrder` and `PlanDecides` tell ticket by ticket |
| TicketPlans.DigestIffSameRecords | cygnus/governance/ticket_import.py:424-435 | two imports have one digest if and only if they hold the same records |
| TicketPlans.PlanForgetsOrder | cygnus/governance/ticket_import.py:408-461 | any permutation of records with distinct ids gives the identical plan: digest, candidate order, representatives, evidence, windows |
| TicketPlans.CandidateWindow | cygnus/governance/ticket_import.py:832-883 | the window spans all tickets of the cluster and is attained, and title, feature and audience are those of the earliest ticket |
| TicketPlans.CandidateEvidence | cygnus/governance/ticket_import.py:851-854 | there is one evidence reference for each of the hundred tickets that arrived first, in order of arrival, no ticket twice |
| TicketPlans.PlanPartitionsRecords | cygnus/governance/ticket_import.py:440-461 | the candidates are one per distinct key, in key order, each speaks for exactly its records, and the member counts sum to the record count |
| TicketClusters.ClusterKeyIffSameIssue | cygnus/governance/ticket_import.py:176-187 | two tickets have one cluster key if and only if signature, object type and the six optional dimensions agree, an absent one read as nothing |
| TicketClusters.PlanCountsIssues | cygnus/governance/ticket_import.py:408-461 | every ticket is described, in signature, object type, feature and audience, by exactly one candidate, which counts exactly the tickets of the same issue and describes no others |
| TicketClusters.OneCandidateIffOneIssue | cygnus/governance/ticket_import.py:440-461 | two tickets are described by one candidate if and only if they report one issue |
| TicketClusters.CandidatesInOrder | cygnus/governance/ticket_import.py:444-453 | candidates stand in the order of signature, dimensions and object type |
| TicketClusters.EveryCandidateHasTicket | cygnus/governance/ticket_import.py:440-461 | every candidate describes some ticket of the export |
| TicketClusters.PlanDecides | cygnus/governance/ticket_import.py:408-424 | a plan is refused for a bad source name, a threshold outside 2 to 100 or no records, in this order, or for a ticket reference over a thousand characters; otherwise it counts and digests exactly the records |
| TicketRefs.UnquoteInvertsQuote | cygnus/governance/ticket_import.py:895-895 | percent-encoding can be undone for every text |
| TicketRefs.SourceReadsBack | cygnus/governance/ticket_pilot.py:228-246 | the reader recovers the source the importer wrote for every source text, even one containing the marker; only an empty source or ticket id is refused |
| TicketRefs.TicketSourceRefInjective | cygnus/governance/ticket_import.py:886-901 | source and ticket id can be read off the reference |
| TicketRefs.SourceRefFromEvidence | cygnus/governance/ticket_pilot.py:228-246 | the loop answers the one source that all references name, and nothing otherwise |
| TicketRefs.FilterNeverMisses | cygnus/governance/ticket_pilot.py:261-303 | whatever the exact check accepts, the prefix filter has let through |
| TicketRefs.FilterFalseMatches | cygnus/governance/ticket_pilot.py:278-303 | the filter lets a foreign import through if and only if its source begins with the asked one and the marker |
| TicketRefs.ReportFindsExactlyItsImports | cygnus/governance/ticket_pilot.py:228-303 | for references written by an import, the prefix filter and the exact source check together accept exactly the source they were written for |
| TicketImport.ImportResolvedTicketExport | cygnus/governance/ticket_import.py:478-511 | state and answer equal the specified all-or-nothing import |
| TicketImport.ImportsIff | cygnus/governance/ticket_import.py:497-511 | an import goes through if and only if none of its signals is bound to anything else; refused, it leaves no trace; accepted, every signal is stored as the plan says |
| TicketClusters.ImportStoresIssue | cygnus/governance/ticket_import.py:229-263 | an accepted import has the signal of an issue if and only if at least the minimum of its tickets report it or the signal was there before; the signal then carries the count, words, audience, digest, earliest title, latest time and first hundred tickets of that issue |
| TicketImport.ImportIsRun | cygnus/governance/ticket_import.py:478-511 | every import is a run of signal creations, so what holds after all runs holds after it |
| TicketImport.ReimportReplays | cygnus/governance/ticket_import.py:478-511 | importing the same records again, in any order and after any run of later transactions, adds nothing and answers the same signals |
| TicketImport.OneKeyOneImport | cygnus/governance/signals.py:452-491 | a signal matches two imports of its cluster only if records, threshold and source row are the same |
| TicketImport.SharedClusterIffSameImport | cygnus/governance/ticket_import.py:229-263 | after an import and any run of later transactions, an import that shares a qualifying cluster with it under its source reference goes through if and only if it is the same import, and in either case changes nothing |
| TicketPilot.PilotFindsImport | cygnus/governance/ticket_pilot.py:249-303 | after an import and any run of later transactions, the signal of a qualifying cluster is selected and validated, with the digest of its import, for its own source reference and for no other, as soon as its proposal passes |
| TicketPilot.BuildReport | cygnus/governance/ticket_pilot.py:384-446 | the loop over the selected signals: validated ones become items in order, every other one is counted as excluded, the digests are those of the items, and the report is partial if and only if one was excluded |
| TicketPilot.ValidatedIsSelected | cygnus/governance/ticket_pilot.py:261-303 | a signal that passes the exact check has been selected by the query |
| TicketPilot.ValidatedIff | cygnus/governance/ticket_pilot.py:228-275 | a signal is validated for a digest if and only if all its evidence is of the asked source, exactly one trigger names an import and names that digest, and every clause on type, page, evidence, audience and proposal holds |
| TicketPilot.ReportIsExact | cygnus/governance/ticket_pilot.py:384-456 | a report over the selected signals of a store has exactly one item for a signal if the store holds it and it passes the exact check, and none otherwise; the item shows the signal as stored |
| TicketPilot.ReportNamesImport | cygnus/governance/ticket_pilot.py:384-456 | after an import and any run of later transactions, the report names a qualifying cluster if and only if it is asked for the source of its import and the proposal passes, and then with the digest of that import |
| TicketImport.ImportedClusterIsEligible | cygnus/governance/ticket_draft_promotions.py:277-300 | every qualifying imported cluster passes the promotion checks as soon as its proposal does |
| Migrations.FindHeads | scripts/migration_gate.py:184-187 | the children dictionary yields exactly the revisions that nobody steps down to |
| Migrations.IsAfterBaseline | scripts/migration_gate.py:197-209 | the walk with its seen set ends on every graph, cyclic or not, and decides exactly reachability of the baseline by at least one step, the baseline itself excepted |
| Migrations.CheckReversibility | scripts/migration_gate.py:212-225 | reports missing upgrades, and missing or empty downgrades of the revisions after the baseline |
| Migrations.StaticChecks | scripts/migration_gate.py:146-227 | the failures equal the specified list, and there are none if and only if the chain keeps every promise |
| Migrations.NoFailuresIff | scripts/migration_gate.py:146-227 | no failure if and only if ids are given and unique, steps resolve, one head exists, and every revision upgrades and, after the baseline, downgrades |
| MigrationFindings.FailuresIff | scripts/migration_gate.py:146-227 | each finding is reported if and only if it is due: file by file for unparsable files, missing, repeated and unresolved ids, upgrades and downgrades, and once for a number of heads other than one |
| Migrations.CycleRepeats | scripts/migration_gate.py:202-208 | a walk that is back where it was finds nothing new, however far it goes |
| Migrations.LinearIffRooted | scripts/migration_gate.py:178-193 | with resolved steps and one head, the walk from the head meets every revision exactly once if and only if every walk ends |
| Migrations.PassingChainIsLinear | scripts/migration_gate.py:146-227 | a chain that passes the checks and whose walks all end is linear |
| Migrations.DetachedCyclePasses | scripts/migration_gate.py:184-192 | a cycle beside the chain passes all checks |
| Migrations.BaselineOnCycle | scripts/migration_gate.py:200-201 | on a cycle through the baseline the baseline reaches itself and is still not after itself |
| Deliveries.ReadBoundedBody | cygnus/integrations/delivery_consumer.py:120-144 | the loop over chunks yields the body or the status of the first problem |
| Deliveries.ReadIff | cygnus/integrations/delivery_consumer.py:134-144 | a body is read whole if and only if every read succeeds and it stays within the limit, however it is cut |
| Deliveries.DeliveryIdInjective | cygnus/integrations/delivery_consumer.py:233-235 | delivery ids agree if and only if publication and surface agree |
| Deliveries.UuidInGroups | cygnus/integrations/delivery_consumer.py:211-226 | a publication id is five groups of hexadecimal digits with hyphens between them |
| Deliveries.DecodeIff | cygnus/integrations/delivery_consumer.py:176-288 | a receipt is read off if and only if headers and canonical body name it in agreement, within their bounds |
| Deliveries.DeliveryConsumer.PersistReceipt | cygnus/integrations/delivery_consumer.py:304-344 | one row per delivery id: insert, exact replay, or conflict |
| Deliveries.DeliveryConsumer.AcceptPropagationDelivery | cygnus/integrations/delivery_consumer.py:397-436 | table and response equal the specified handling, refusals in their order |
| Deliveries.AcknowledgedIffFirstBody | cygnus/integrations/delivery_consumer.py:291-344 | in every run a well-formed delivery is acknowledged if and only if no delivery with its id was accepted before or the first accepted one had the same body, and then with that receipt; otherwise it conflicts |
| Deliveries.AcksAreStable | cygnus/integrations/delivery_consumer.py:347-356 | all acknowledgments of one delivery id in a run are identical |
| Deliveries.AcceptDecides | cygnus/integrations/delivery_consumer.py:397-436 | a request is acknowledged if and only if it is authentic, names a receipt, the table can be reached and has no other receipt under its id; it then stands in the table; every other request leaves the table as it is |
| Deliveries.RefusalTells | cygnus/integrations/delivery_consumer.py:397-436 | an arrived request is answered 401 if and only if unsigned, 400 if and only if it names nothing, 503 if and only if the table cannot be reached, 409 if and only if another receipt holds its id |
| CapacityMetrics.PercentileIff | cygnus/capacity/metrics.py:91-97 | for 0 < q <= 100 the result is the one sample value that at least q percent of the values do not exceed and fewer than q percent fall below |
| CapacityMetrics.PercentileForgetsOrder | cygnus/capacity/metrics.py:91-97 | the order of the samples does not matter |
| CapacityMetrics.PercentileMonotone | cygnus/capacity/metrics.py:91-97 | a higher percentile is not smaller |
| CapacityMetrics.ZerothIsLargest | cygnus/capacity/metrics.py:96-97 | rank zero counts back from the end, to a sample value that no other exceeds |
| CapacityMetrics.SummaryIsConsistent | cygnus/capacity/metrics.py:160-201 | the three rates and the share of successes sum to one, each lies between zero and one, and p50 <= p95 <= p99 |
| CapacityLoad.LoadPhase.CheckDeadline | cygnus/capacity/load.py:132-135 | one turn at the clock equals the specified step |
| CapacityLoad.LoadPhase.Admit | cygnus/capacity/load.py:136-140 | one turn at the lock equals the specified step |
| CapacityLoad.LoadPhase.Record | cygnus/capacity/load.py:141-179 | the bookkeeping after one answer, exceptions included, equals the specified step |
| CapacityLoad.JoinedPhase | cygnus/capacity/load.py:112-179 | however the workers interleave, at join the samples equal the request counter, never exceed the maximum, and every counter equals the fold over the samples in recording order |
| CapacityLoad.RecoveredIff | cygnus/capacity/load.py:200-230 | recovered if and only if some request failed inside the window, some succeeded after it, and none recorded after such a success failed |
| CapacityLoad.RecoveredInTimeIff | cygnus/capacity/load.py:200-230 | the evidence shows recovery within a time if and only if the samples show a failure in the window, a first success that started within that time after it, and no failure recorded after that |
| CapacityLoad.RunRoutePhase | cygnus/capacity/load.py:103-237 | the phase equals the one the schedule determines, evidence included, with at most the allowed number of samples |
| CapacityMeasures.TurnDecides | cygnus/capacity/load.py:130-179 | a worker leaves at the deadline or when the maximum is reached, is counted when admitted, and records one sample for each answer as it was, an exception as an error timed by the clock |
| CapacityGate.BuildRouteResult | cygnus/capacity/gate.py:70-131 | the loop over the metrics yields checks, measured flag and status of the specification, which `RouteDecides` tells by the samples |
| CapacityMeasures.MetricPasses | cygnus/capacity/gate.py:89-124 | a check is met if and only if the samples keep to its limit: nearest-rank sample times, requests by second, counts of errors, denials and retries, means of queue age and busy pool, each as a ceiling or, where so configured or by default for throughput, as a floor |
| CapacityMeasures.RouteDecides | cygnus/capacity/gate.py:70-131 | a route passes if and only if it was sampled and its samples keep to all limits, and is not certified if and only if it was not sampled or no sample told a queue age or a pool |
| CapacityGate.TextTellsKind | cygnus/capacity/gate.py:387-401 | the prefix tests on the text of a reason tell its kind |
| CapacityGate.RunLoadGate | cygnus/capacity/gate.py:216-418 | missing inputs are not certified; otherwise the report equals the specification |
| CapacityGate.DriveRoutes | cygnus/capacity/gate.py:310-361 | the loop over the routes yields wiring reasons, results and the first evidence per target |
| CapacityGate.StatusIsVerdict | cygnus/capacity/gate.py:385-401 | the status read off the sorted reason texts equals the verdict judged on the run itself |
| CapacityGate.PassesIff | cygnus/capacity/gate.py:310-401 | PASS if and only if every route is measured with all checks met, no wiring failed, every exercised target's first evidence recovered in time and, with injection enabled, it was confirmed and every target was exercised |
| CapacityMeasures.ReplayPassesIff | cygnus/capacity/gate.py:310-401 | a replayed run passes if and only if the samples recorded for every route keep to all its limits and the recovery evidence is in order |
| CapacityMeasures.LiveRunPassesIff | cygnus/capacity/gate.py:310-401 | a live run with injection enabled passes if and only if it was confirmed, every fault was wired, the samples of every route keep to all its limits, and the samples of the first route of every target show a failed or denied request during the fault, a first success in time after it, and no failed or denied one recorded later |
| CapacityMeasures.ReportGivesReasons | cygnus/capacity/gate.py:362-385 | a report spells exactly the reasons that hold, each text once and in order |
| CapacityMeasures.InjectionReportTells | cygnus/capacity/gate.py:403-418 | the report names the wanted and the exercised targets in order, and says all recovered if and only if they are the same, at least one, and each in time |
| CapacityGate.EvidenceIsFirst | cygnus/capacity/gate.py:352-353 | the evidence kept for a target is the first one recorded in route order |
| CapacityGate.ValidateCapacity | scripts/release_gate.py:233-293 | no failure if and only if suite, environment and release identity fit, the report passed, and its routes and fault injection satisfy their clauses; without a release identity nothing further is looked at |
| CapacityGate.ReleaseAcceptsIff | scripts/release_gate.py:233-293 | a report of the capacity gate on this very release is accepted if and only if it passed with injection enabled |
| CapacityGate.PassWithoutInjection | cygnus/capacity/gate.py:310-401 | with injection disabled PASS needs only measured routes, met thresholds and no failed recovery on record |
| CapacityVerdicts.IdleRunPasses | cygnus/capacity/gate.py:310-401 | valid thresholds with injection disabled and one quick success on every route give a PASS without any evidence of recovery |
| CapacityVerdicts.PassExercisesEveryTarget | cygnus/capacity/gate.py:310-401 | a PASS with injection enabled was confirmed, and every target has evidence of recovery in time |
| CapacityVerdicts.ObservationFits | cygnus/capacity/thresholds.py:264-275 | thresholds whose sections are valid are valid if and only if, with injection enabled, every faulted route leaves the whole observation time between the end of its fault and its deadline, whenever it starts |
| CapacityVerdicts.LivePassIff | cygnus/capacity/gate.py:310-401 | a live run with injection enabled passes if and only if it was confirmed, every fault was wired, every route met its limits, and for every target the samples of the first route that was to exercise it show the fault, a first success in time and no failure recorded after that |
| CapacityVerdicts.EveryTargetHasFirstRoute | cygnus/capacity/thresholds.py:148-170 | with injection enabled every target has a first route that is to exercise it |

## Left out

- Hashing, signatures, JSON encoding, tokens and UUIDs as such: digests stand for what they digest, fresh values are fresh by hypothesis, and nothing cryptographic is claimed.
- SQL, advisory locks and skip-locked row selection: steps are atomic, and a sweep may select any due rows.
- Deletion of pages, sources and feedback rows by foreign keys: the modelled tables only grow or change in place.
- Unicode normalisation: stripping and case folding are taken as done, except for the ASCII whitespace that truncation and header checks look at.
- Field validation of ticket rows, the CSV and JSONL readers, timestamps with time zones: a parameter of the record loop, which only needs that a rejected row has a diagnostic and an accepted one a ticket id.
- Export format, dict projections, display texts and observability: they carry no property beyond those proved.
- Compilation of promotion proposals, creation of the draft itself, projection of wiki pages: parameters of the steps that use them.
- Request fields not read by the receipt store (trace headers, health and readiness probes): easy members.
- Drill, live-report and production-input clauses of the release gate: equalities between report fields, easy members.
- Drafts, review times and publications shown beside a pilot item: columns joined to its promotion, easy members.
- Alert rule names, fingerprints and budgets in the capacity configuration beyond their validation: not read by the verdict.
- Truncation error of floats: percentiles, rates and clock arithmetic are over reals.
- LoadPhase.RunWorkers: the turns of the workers are given as a schedule, so fairness of the event loop is not modelled; the results hold for every schedule.
- ImportResolvedTicketExport: works on the value of the store and not on a shared object, because the transaction is rolled back as a whole.
- `feedback_operations.py`, `audit.py`, `tool_command_receipts.py`, `drift_signals.py`, `lifecycle.py`, `freshness.py`: their claims repeat those above or are easy.
