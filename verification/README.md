# Verified model of the INEC election-results backend

The backend keeps election results, their evidence and the people and devices around them in database
rows that many request handlers and background workers change at once. This project models its
protocols and algorithms in Dafny and proves what they guarantee, over every input, every run and every
interleaving.

- A table is a map or a sequence, a unique index an insert that is refused, a transaction one atomic step;
  a `FOR UPDATE` lock makes a whole handler one step. Where the code reads first and writes later without a lock,
  the two are separate steps and any other step may come in between.
- Each protocol has a machine (`Next`, `Run`) and a class whose methods are the handler's code; every method
  is proved to do one step of the machine, or a run of steps. Crashes, failing services, stale reads and failed
  writes are parameters of the steps.
- SHA-256 is an arbitrary function to 32 bytes. Binding properties assume that no two of the strings which
  were really hashed collide; nothing is assumed about any other string.
- Floats are reals and the square root is a parameter with its defining equation.

| file | about |
|---|---|
| EditDistance, NameMatching | the edit distance behind sanctions screening, the name score |
| Hashing, Merkle, MerkleShapes, EvidenceChain, EvidenceFormat | hashing, the two Merkle builders, the per-result hash chain |
| ElectionLifecycle, ElectionCourse, Declaration, DeclarationRules, CanonicalDeclaration | the election state machine, the declaration rules engine, and the same on the canonical collation |
| ResultHistory, ResultCourse | submission, correction and dispute of results |
| Collation, CanonicalResults, Rollup, RollupFigures | canonical results, totals over tiers, stored rollups |
| DeviceGateway, GatewayAnswers, Accreditation | signed device events, single-use biometric verifications |
| Outbox, OutboxRounds, FabricAnchor, AnchorOutcomes | delivery to external sinks, the anchor queue |
| FingerprintMatch, MatchSymmetry, FingerprintGeometry, OfflineSync, EnrolmentOutcomes | minutiae matching, offline enrolment |
| Retention | archive, purge and legal hold |
| Options, Results (Results.dfy), Filtering, Sets, Text, Arithmetic | shared vocabulary |

## What turned out not to hold

Each comes with a lemma that gives a concrete input or run, or the exact condition under which the property fails.

- When Redis is required, as in production, no device event is ever accepted: the Redis clients
  (`inec-go-backend/mw_redis.go`, lines 97-99 and 171-173) report a missing key as an error, and the gateway takes every
  error of the look-up for a failure (`DeviceGateway.StrictNeverCommits`).
- The completeness gate adds per-status counts, so a polling unit under two statuses can hide a missing one
  (`Declaration.GateCanPassWithMissingUnit`). The closing guard counts them once, but ignores the errors of its counts
  (`Declaration.GuardIsFooled`, exact in `Declaration.GuardFinalizeIsSoundIff`).
- With one scored party the margin rule is skipped (`Declaration.SinglePartySkipsMargin`), with more it is void when the
  query for the affected voters or for the children fails (`Declaration.UnreadVotersHideRisk`,
  `CanonicalDeclaration.UnsafeWinner`, exact in `CanonicalDeclaration.DeclaresOnlySafeIff`), the spread is void when the
  states cannot be counted (`Declaration.UnreadStatesHideSpread`), and the state
  machine's own declare event accepts an election without any score (`Declaration.FsmCanDeclareWithoutWinner`).
- Voting can be skipped through a suspension (`ElectionLifecycle.VotingCanBeSkipped`).
- An event with a negative policy or artifact id is recorded but never verifies (`EvidenceChain.NewEventAccepted`).
- Finalized results of two children for one polling unit are both counted (`Collation.TwoChildrenCountTwice`).
- A worker that dies between claim and finalize, or cannot finalize, strands its row (`Outbox.CrashOrphansRow`,
  `Outbox.FailedFinalizeOrphansRow`), an unreadable row blocks the queue (`Outbox.UnreadableRowBlocks`), and with
  several workers attempt numbers go stale (`Outbox.StaleAttemptNumber`; `Outbox.CompleteIffFresh` says when not).
- A failed verification leaves the device's nonce taken (`DeviceGateway.FailedVerificationBlocksRetry`), and a voter who
  is accredited at a second polling unit is answered as a replay (`DeviceGateway.SecondUnitIsReplayed`).
- A rollup refresh whose look-up of the LGA or state fails reports success and leaves rollups behind
  (`Rollup.FailedLookupLeavesStaleRow`, exact in `Rollup.RefreshRestoresIff`).
- The untagged Merkle root alone fixes nothing (`Merkle.PlainRootNeedsCount`), a legal hold that cannot be read does
  not hold (`Retention.HoldFailsOpen`), and a queue row that loses both its profile access and its status update is
  enrolled by a later sync (`OfflineSync.LostMarkCanApplyLater`, exact in `OfflineSync.SecondSyncChangesIff`).
- The fingerprint score depends on the direction of the comparison (`FingerprintMatch.ScoreIsNotSymmetric`);
  `MatchSymmetry.FreeIffOrderly` says exactly for which templates it depends on neither direction nor order, for every
  selection of their minutiae.

## Model

| member | source | states |
|---|---|---|
| EditDistance.LevenshteinDistance | inec-go-backend/compliance_engine.go:462-490 | the matrix program returns the least number of single-byte inserts, deletes and substitutions that turns one string into the other, early returns included |
| EditDistance.FillMatrix | inec-go-backend/compliance_engine.go:469-489 | the in-place filling of the matrix leaves the recurrence's value in its last cell |
| EditDistance.LevIsLeast | inec-go-backend/compliance_engine.go:462-490 | the recurrence is exactly the length of a shortest edit script: a script of that length exists and none is shorter |
| EditDistance.LevIsMetric | inec-go-backend/compliance_engine.go:462-490 | the distance is zero only on equal strings, symmetric, obeys the triangle inequality, and lies between the length difference and the longer length |
| EditDistance.NoShorterScript | inec-go-backend/compliance_engine.go:476-486 | no edit script is shorter than the distance |
| EditDistance.ScriptOfLength | inec-go-backend/compliance_engine.go:476-486 | every matrix cell has an edit script of exactly its length between the two prefixes |
| EditDistance.FuzzyNameMatch | inec-go-backend/compliance_engine.go:446-460 | the name score lies in [0,1], counts the query parts with an equal or near (distance at most 2) candidate part over the longer part list, and is 1 exactly when all query parts are near and the candidate has no more parts |
| NameMatching.NearMeans | inec-go-backend/compliance_engine.go:452 | two name parts are near exactly if at most two edits turn one into the other |
| NameMatching.NearCountMeans | inec-go-backend/compliance_engine.go:449-458 | the count behind the score is the number of query parts with a near candidate part |
| Hashing.Sha256HexBinding | inec-go-backend/evidence_integrity.go:383-386 | equal hex digests come from equal inputs, unless two of the named strings collide |
| Merkle.BundleRootBinding | inec-go-backend/evidence_integrity.go:352-381 | two child lists have the same bundle root if and only if they hold the same multiset of non-empty event hashes, whatever their order and size, unless two of the strings hashed for them collide |
| Merkle.MerkleRootEventHashes | inec-go-backend/evidence_integrity.go:352-381 | the level-by-level builder (skip empty, sort, tag, pair, promote an odd node) returns the root of that tree, and the empty string for no hashes |
| Merkle.TaggedHashBinding | inec-go-backend/evidence_integrity.go:363-379 | because of the leaf and node tags a digest fixes the whole tree, shape included, or two hashed strings collide |
| Merkle.BuildTree | inec-go-backend/blockchain_production.go:148-179 | the untagged builder returns the root of the tree over the leaves, their count, and the ceiling of the base-two logarithm of the count as depth |
| Merkle.PlainRootBinding | inec-go-backend/blockchain_production.go:148-179 | equal root and equal leaf count give equal leaf lists, in order, unless two hashed strings collide |
| Merkle.PlainRootNeedsCount | inec-go-backend/blockchain_production.go:157-171 | without the count the root is not binding: for every hash function a two-leaf list and a one-leaf list share a root |
| Merkle.DepthIsCeilLog2 | inec-go-backend/blockchain_production.go:159-178 | the number of levels is the ceiling of the base-two logarithm of the leaf count |
| MerkleShapes.TaggedRootsOfFew | inec-go-backend/evidence_integrity.go:363-380 | the tagged roots of one, two and three leaves, written out |
| MerkleShapes.PlainRootsOfFew | inec-go-backend/blockchain_production.go:148-171 | the untagged ones |
| MerkleShapes.BundleRootMeans | inec-go-backend/evidence_integrity.go:352-362 | the bundle root is taken over the sorted hashes, and is empty for none |
| MerkleShapes.EventHashesMean | inec-go-backend/evidence_integrity.go:353-358 | the hashes are those of the children that have one |
| MerkleShapes.OrderMeans | inec-go-backend/evidence_integrity.go:362 | the order is byte by byte, a prefix first |
| EvidenceChain.CanonicalInjective | inec-go-backend/evidence_integrity.go:399-402 | the bar-joined encoding is uniquely decodable, also when the event type contains bars |
| EvidenceChain.VerifyEvidenceChain | inec-go-backend/evidence_integrity.go:862-917 | the verifier's loop accepts exactly the chains whose positions, prior hashes and recomputed hashes all agree |
| EvidenceChain.EvidenceTable.RecordIntegrityEvent | inec-go-backend/evidence_integrity.go:545-639 | one call appends exactly one event, hashed over the previous one, or changes nothing (missing input, unknown result or visibility, failing service, hash already taken) |
| EvidenceChain.RunsAreAccepted | inec-go-backend/evidence_integrity.go:545-639 | every chain built by any run of recorder calls with non-negative ids passes the verifier |
| EvidenceChain.NewEventAccepted | inec-go-backend/evidence_integrity.go:581-619 | an appended event passes the verifier exactly when neither id is negative: a negative id is hashed as given and stored as NULL |
| EvidenceChain.LastHashBinding | inec-go-backend/evidence_integrity.go:862-917 | two accepted chains of one result with the same last hash are the same events, position by position, unless two of the hashed strings collide |
| EvidenceFormat.AcceptedMeans | inec-go-backend/evidence_integrity.go:862-917 | an accepted chain is numbered from 1, each event names the hash before it, and each hash is that of the event's own text |
| EvidenceFormat.RecordMeans | inec-go-backend/evidence_integrity.go:545-639 | when a call adds an event and which one, field by field |
| EvidenceFormat.PayloadBinding | inec-go-backend/evidence_integrity.go:388-397 | two events with one payload hash have one private payload, unless the two collide |
| EvidenceFormat.EncodingMeans | inec-go-backend/evidence_integrity.go:399-402 | the hashed text is the seven fields in this order with bars between them |
| EvidenceFormat.DecimalMeans | inec-go-backend/evidence_integrity.go:399-402 | decimal texts read back as their numbers, without leading zeros |
| EvidenceFormat.HexMeans | inec-go-backend/evidence_integrity.go:383-386 | each byte is two lower-case hexadecimal digits |
| ElectionLifecycle.Election.TransitionElection | inec-go-backend/election_fsm.go:224-279 | the table search applies the first matching, unblocked transition with its log row, or changes nothing |
| ElectionLifecycle.Election.HandleDeclareResult | inec-go-backend/election_lifecycle.go:279-378 | the endpoint declares from collating, closed or disputed only, once, with its log row |
| ElectionLifecycle.EdgeShape | inec-go-backend/election_fsm.go:73-107 | what every edge of both writers obeys: terminal states have none, an opened election stays opened, the opened part is entered by activation and the counted part by collation |
| ElectionLifecycle.LogIsPath | inec-go-backend/election_fsm.go:224-279 | in every run of both writers the state log is a connected path of allowed edges from the initial to the current status |
| ElectionLifecycle.TerminalIsAbsorbing | inec-go-backend/election_fsm.go:73-107 | declared and cancelled elections never change again |
| ElectionLifecycle.OneDeclaration | inec-go-backend/election_fsm.go:73-107 | a log holds at most one declaration, as its last entry |
| ElectionLifecycle.OpenedStaysOpened | inec-go-backend/election_fsm.go:73-107 | an election once active never returns to draft, scheduled, postponed or cancelled |
| ElectionLifecycle.DeclaredWasCollated | inec-go-backend/election_lifecycle.go:279-378 | every run from draft, scheduled or postponed to declared passed active and then collating |
| ElectionLifecycle.CountedWasVoted | inec-go-backend/election_fsm.go:94-99 | it passed voting too, unless collation was resumed out of a suspension from active |
| ElectionLifecycle.UnvotedWasResumed | inec-go-backend/election_fsm.go:94-99 | in other words, a counted election that never voted was resumed into collation out of a suspension from active |
| ElectionLifecycle.VotingCanBeSkipped | inec-go-backend/election_fsm.go:94-99 | a run that is declared without ever voting, through suspend and resume into collation |
| ElectionLifecycle.DeclaredAtMeansEndpoint | inec-go-backend/election_lifecycle.go:364-375 | the declaration time is set exactly in the runs in which the endpoint, not the state machine, made the declaration |
| ElectionCourse.StepMeans | inec-go-backend/election_fsm.go:73-107 | where each event leads from which status, which events are guarded, and that nothing else is possible |
| ElectionCourse.EndpointMeans | inec-go-backend/election_lifecycle.go:288-378 | the endpoint declares from collating, closed or disputed, once, if the rules pass |
| ElectionCourse.GuardsHoldBack | inec-go-backend/election_fsm.go:73-107 | while no guard passes an election is only cancelled, postponed, suspended, resumed, or its dispute resolved |
| ElectionCourse.OrdinaryCourse | inec-go-backend/election_fsm.go:73-107 | the ordinary course from draft to declared, with its log |
| Declaration.CompletenessGate | inec-go-backend/election_lifecycle.go:112-139 | the gate passes exactly when no more polling units are missing than were counted under two statuses; it never blocks a complete election and is exact without double counts |
| Declaration.GateCanPassWithMissingUnit | inec-go-backend/election_lifecycle.go:131-139 | a concrete election passes the gate although a polling unit has no result |
| DeclarationRules.GateMeans | inec-go-backend/election_lifecycle.go:112-139 | the gate lets every election pass whose units all have a finalized, disputed or voided result, and, where no unit stands under two of these, no other |
| DeclarationRules.AffectedIsExact | inec-go-backend/election_lifecycle.go:182-187 | the affected voters are exact where no unit has two voided or disputed results |
| DeclarationRules.OneResultMore | inec-go-backend/election_lifecycle.go:182-187 | a voided or disputed result adds the registered voters of its unit, any other adds nothing |
| DeclarationRules.SpreadMeans | inec-go-backend/election_lifecycle.go:206-245 | two thirds of the states, rounded up, the FCT among them or else one state more |
| DeclarationRules.DeclaredIff | inec-go-backend/election_lifecycle.go:295-344 | a winner is declared exactly if the gate is passed, no dispute is open, some party leads every other by no less than the affected voters, and a presidential one meets the spread; it is that party |
| DeclarationRules.OutcomesMean | inec-go-backend/election_lifecycle.go:305-344 | when each other outcome is given |
| Declaration.GuardFinalizeIsExact | inec-go-backend/election_fsm.go:164-185 | what the closing guard tests, whichever of its three counts fail; when none does it passes if and only if no dispute is open and every polling unit is accounted for |
| Declaration.GuardFinalizeIsSoundIff | inec-go-backend/election_fsm.go:168-178 | passing the guard means no open dispute and no missing unit exactly when its unit count and its dispute count succeed |
| Declaration.GuardIsFooled | inec-go-backend/election_fsm.go:168-178 | for each of these failures an election that is closed with a unit missing or a dispute open |
| Declaration.GuardDeclareIff | inec-go-backend/election_fsm.go:189-204 | the state machine's guard and the endpoint agree except when no party has a score |
| Declaration.FsmCanDeclareWithoutWinner | inec-go-backend/election_fsm.go:189-204 | such an election exists: the guard lets it be declared, the endpoint refuses it |
| Declaration.ExchangeSort | inec-go-backend/election_lifecycle.go:163-169 | the in-place exchange sort leaves the same entries in descending order of votes |
| Declaration.TopTwo | inec-go-backend/election_lifecycle.go:155-177 | for every order in which the totals were read, the first two of the ranking are the true top two |
| Declaration.CheckSpread | inec-go-backend/election_lifecycle.go:200-250 | the spread loop returns exactly the constitutional rule over the by-state scores |
| Declaration.AssessDeclaration | inec-go-backend/election_lifecycle.go:88-250 | the assessment's gate, winner, runner-up, margin, tie, affected voters, spread and inconclusive flag, each from what its queries find, failed counts of voters and states included |
| Declaration.SafeIffWithinLead | inec-go-backend/election_lifecycle.go:179-195 | a winner cannot be overtaken by some number of extra votes exactly when they do not exceed the lead over the strongest rival |
| Declaration.SafeIffWithinMargin | inec-go-backend/election_lifecycle.go:179-195 | against the parties that have scores the margin is the exact bound |
| Declaration.DeclaredWinnerIsSafe | inec-go-backend/election_lifecycle.go:326-344 | with two scored parties, no way of adding votes up to the registered voters of the voided and disputed polling units that the queries listed puts another party above a declared winner; if the query for them failed, exactly when they are within the margin |
| CanonicalDeclaration.ContestWinnerIsSafe | inec-go-backend/election_lifecycle.go:88-195 | the same over the whole contest, live children included, when the children and the affected voters were read, and then no dispute of it is open; in every case safety holds exactly when the voters at risk are within the margin |
| CanonicalDeclaration.DeclaresOnlySafeIff | inec-go-backend/domain_inec.go:451-467 | whatever is declared is safe exactly when the query for the children and the query for the affected voters succeed |
| CanonicalDeclaration.UnsafeWinner | inec-go-backend/domain_inec.go:451-457 | for each failure an election with a voided rerun whose winner could be overtaken, its open dispute missed when the children are unread |
| Declaration.UnreadVotersHideRisk | inec-go-backend/election_lifecycle.go:182-192 | when that query fails its error is dropped: a winner is declared who could be overtaken |
| Declaration.SinglePartySkipsMargin | inec-go-backend/election_lifecycle.go:189-195 | with one scored party the margin rule is skipped: a winner is declared who could be overtaken |
| Declaration.DeclaredPresidentHasSpread | inec-go-backend/election_lifecycle.go:200-250 | if the states were counted, a declared presidential winner qualifies in at least two thirds of them, the FCT among them or one state more; otherwise in at least one |
| Declaration.UnreadSpreadIff | inec-go-backend/election_lifecycle.go:204-207 | when the count of the states fails, its error is dropped and the spread is met exactly if some state qualifies |
| Declaration.UnreadStatesHideSpread | inec-go-backend/election_lifecycle.go:204-207 | a president declared with one state of four |
| CanonicalDeclaration.DeclaredPresidentCarriesStates | inec-go-backend/election_lifecycle.go:200-250 | if the states were counted, a declared president carries two thirds of all states in the canonical collation, the FCT among them or one state more |
| CanonicalDeclaration.DeclaredWinnerLeads | inec-go-backend/election_lifecycle.go:147-177 | a declared winner has more votes in the canonical collation than every other party |
| CanonicalDeclaration.NationalIsSumOverStates | inec-go-backend/election_lifecycle.go:200-224 | each party's national total, on which the winner is found, is the sum of the by-state figures on which the spread is judged |
| CanonicalDeclaration.StateVotes | inec-go-backend/election_lifecycle.go:205-231 | the votes of a state, added up per party row, are all the votes of its canonical results |
| CanonicalDeclaration.SpreadIsCanonical | inec-go-backend/election_lifecycle.go:232-244 | the states that count for the spread are exactly those where the party has a quarter of all canonical votes, some being cast |
| CanonicalDeclaration.StateQueryExists | inec-go-backend/election_lifecycle.go:208-216 | the by-state query has an answer on every snapshot |
| CanonicalDeclaration.NoOpenDispute | inec-go-backend/election_lifecycle.go:141-146 | which open disputes hold a declaration up |
| CanonicalDeclaration.RegisteredOfArea | inec-go-backend/domain_inec.go:622-634 | the registered voters in a stored rollup are those of the units of its area |
| Declaration.AffectedCoversVotersAtRisk | inec-go-backend/election_lifecycle.go:182-187 | the affected-voters query never falls below the registered voters of the voided and disputed polling units |
| ResultHistory.ResultStore.ApplyResult | inec-go-backend/ingestion.go:650-690 | a capture is applied exactly when no result is live for the election and polling unit; otherwise nothing changes and the answer is duplicate or conflict by the live result's figures |
| ResultHistory.ResultStore.LookUpForm | inec-go-backend/domain_inec.go:199-219 | the look of an EC8A form succeeds exactly when the unit has no result of any status |
| ResultHistory.ResultStore.SubmitForm | inec-go-backend/domain_inec.go:221-229 | the later insert succeeds exactly when it is accepted and no result is live by then |
| ResultHistory.ResultStore.MoveResult | inec-go-backend/security.go:97-118 | a status change succeeds exactly along the transition table, and otherwise leaves the row as it was |
| ResultHistory.ResultStore.CorrectResult | inec-go-backend/election_lifecycle.go:474-593 | a correction supersedes the live result and inserts its linked successor, or reports failure and changes nothing |
| ResultHistory.ResultStore.ResolveDispute | inec-go-backend/dispute_resolution.go:255-432 | a dispute step and its remediation of the result; every refused case is reported and changes nothing |
| ResultHistory.StepKeepsInv | inec-go-backend/db.go:114 | every writer keeps: one live result per election and polling unit, supersedes links to superseded results of the same unit, injective links, a successor for every superseded result |
| ResultHistory.RunsKeepInv | inec-go-backend/db.go:114 | the same over all runs of submit, validate, finalize, dispute, correct, annul and dismiss |
| ResultHistory.RunsKeepHistory | inec-go-backend/election_lifecycle.go:474-593 | superseded and voided results never change again, the hash of a captured form is never overwritten and no row is removed |
| ResultHistory.SuccessorIsUnique | inec-go-backend/election_lifecycle.go:538-560 | in every run a superseded result has exactly one successor, for the same election and polling unit |
| ResultHistory.LineageIsHistory | inec-go-backend/election_lifecycle.go:538-560 | following supersedes links ends, stays in one election and polling unit and meets only superseded results below the head |
| ResultHistory.LineagesAreDisjoint | inec-go-backend/election_lifecycle.go:538-560 | no row lies on the lineage of two heads |
| ResultHistory.DismissUndoesDispute | inec-go-backend/dispute_resolution.go:354-376 | dismissing a dispute puts the result back into the status it was disputed from, in every reachable state |
| ResultHistory.ClosedDisputesStayClosed | inec-go-backend/dispute_resolution.go:318-330 | a resolved or dismissed dispute never acts again |
| ResultCourse.AtMostOneCurrent | inec-go-backend/db.go:114 | in every run, of two results of one election and unit one is superseded or voided |
| ResultCourse.CaptureMeans | inec-go-backend/ingestion.go:620-690 | when a capture adds a result, and in which status |
| ResultCourse.FormMeans | inec-go-backend/domain_inec.go:199-229 | what an EC8A form is looked up and inserted against |
| ResultCourse.MoveMeans | inec-go-backend/security.go:97-118 | the status changes that are possible |
| ResultCourse.FinalResults | inec-go-backend/security.go:97-118 | a result becomes final only out of validated, and a final one changes only by an accepted correction or a dispute that annuls it |
| ResultCourse.CorrectionMeans | inec-go-backend/election_lifecycle.go:474-593 | in every reachable state an accepted correction supersedes a result that is not gone and adds its pending successor |
| ResultCourse.ReviewAndEscalation | inec-go-backend/dispute_resolution.go:299-322 | which disputes can be reviewed and escalated |
| ResultCourse.ResolutionMeans | inec-go-backend/dispute_resolution.go:354-396 | what each outcome does to the disputed result |
| ResultCourse.DismissalMeans | inec-go-backend/dispute_resolution.go:323-350 | what dismissing takes, and what is refused |
| ResultCourse.AnnulmentFreesUnit | inec-go-backend/dispute_resolution.go:374-385 | in every reachable state an annulment or rerun order frees the polling unit for the next capture |
| Collation.OneCanonicalIffOneChild | inec-go-backend/domain_inec.go:318-353 | the canonical set holds at most one result per polling unit exactly when no unit has finalized results of two live children |
| Collation.TwoChildrenCountTwice | inec-go-backend/domain_inec.go:337-352 | a snapshot in which two children report one unit and both results are counted |
| CanonicalResults.CanonicalMeans | inec-go-backend/domain_inec.go:318-353 | the canonical results of an area: finalized results only, those of active children in their scope and the election's own where no such child has one |
| CanonicalResults.CanonicalInOrder | inec-go-backend/domain_inec.go:318-353 | each of them once, in table order |
| CanonicalResults.UnfinalizedMovesNothing | inec-go-backend/domain_inec.go:345 | nothing about a result that is not finalized moves any canonical result or total, unless it becomes finalized |
| CanonicalResults.UnfinalizedCountsNothing | inec-go-backend/domain_inec.go:345 | without a finalized result there are no totals |
| CanonicalResults.OneResultCounts | inec-go-backend/domain_inec.go:379-388 | one result counts each party's votes as they stand |
| CanonicalResults.ListedParties | inec-go-backend/domain_inec.go:379-388 | a party is listed exactly if a canonical result has a score of it, with its total |
| Collation.CollectPartyTotals | inec-go-backend/evidence_integrity.go:1466-1528 | the bundle builder's summing loop gives the canonical party totals of the area and lists its canonical results in order |
| Collation.Conservation | inec-go-backend/domain_inec.go:373-411 | each party's total over an area is the sum over any division of the area |
| Collation.TiersArePartitions | inec-go-backend/domain_inec.go:355-368 | wards, LGAs and states each divide the country, wards divide an LGA, LGAs divide a state |
| Collation.TiersAgree | inec-go-backend/domain_inec.go:373-411 | each party's national total is the sum over the states, over the LGAs and over the wards |
| Rollup.RollupTable.PersistCollationRollup | inec-go-backend/domain_inec.go:597-683 | one area's stored rollup becomes what a full computation gives, or nothing changes |
| Rollup.RollupTable.ChainAreas | inec-go-backend/domain_inec.go:698-738 | the areas of a refresh: ward, the LGA and state that were found, and nation |
| Rollup.RollupTable.RollupCollationHierarchy | inec-go-backend/domain_inec.go:694-745 | the refresh writes these areas in order, all of them or those before the one that cannot be written |
| Rollup.OtherAreasKeepResults | inec-go-backend/domain_inec.go:318-353 | a change of results in one ward, of the election or of its children, leaves the canonical and the own results of every other area as they were |
| Rollup.RefreshRestoresAll | inec-go-backend/domain_inec.go:694-745 | if all stored rollups were right and then only results of one ward changed, refreshing that ward's whole chain makes every stored rollup right again and touches no other election |
| Rollup.RefreshRestoresIff | inec-go-backend/domain_inec.go:698-711 | a refresh of some of the areas does so exactly if every stored area of the chain that it leaves out has not moved |
| Rollup.FailedLookupLeavesStaleRow | inec-go-backend/domain_inec.go:701-709 | the errors of the look-ups are dropped: with the one of the LGA failed, a successful refresh leaves the LGA's rollup behind |
| RollupFigures.OneResultRow | inec-go-backend/domain_inec.go:606-620 | an area with one canonical result shows its figures, each in its column |
| RollupFigures.RowsAdd | inec-go-backend/domain_inec.go:606-620 | the columns add up over any division of the results |
| RollupFigures.DisputedMeans | inec-go-backend/domain_inec.go:551-557 | an area is disputed exactly if a unit of it shows a disputed result |
| RollupFigures.CompletedMeans | inec-go-backend/domain_inec.go:551-554 | where no unit shows two statuses, an area is completed exactly if it has units and each is finalized or voided |
| RollupFigures.ChainMeans | inec-go-backend/domain_inec.go:698-738 | the areas of a refresh, in order |
| Outbox.ParseRequiredSinks | inec-go-backend/external_integration_delivery.go:88-107 | the distinct non-empty trimmed lower-case sink names, in order of first appearance |
| Outbox.BackoffIsMonotone | inec-go-backend/external_integration_delivery.go:258-267 | the retry delay never shrinks and stays between 1 and 256 seconds |
| Outbox.OutboxWorker.ClaimEvent | inec-go-backend/external_integration_delivery.go:109-144 | the first due row is claimed by a read step and a compare-and-set step; an unreadable one or one without sinks fails the claim, and without a due row nothing happens |
| Outbox.OutboxWorker.DeliverToSinks | inec-go-backend/external_integration_delivery.go:291-306 | the sink loop is one delivery step for each required sink in order, and remembers whether all accepted |
| Outbox.OutboxWorker.FinalizeEvent | inec-go-backend/external_integration_delivery.go:269-277 | finalizing is the finalize step of the machine: delivered only if every sink accepted, else failed with its retry time |
| Outbox.OutboxWorker.DeliverOutbox | inec-go-backend/external_integration_delivery.go:279-312 | a pass is full rounds of machine steps, each on the first row due at that time, and ends only at the limit, when no row is due, or at the first failure |
| Outbox.FirstExists | inec-go-backend/external_integration_delivery.go:110-113 | if any row is due the ordered query returns one |
| Outbox.StepKeepsInv | inec-go-backend/external_integration_delivery.go:109-144 | every step of any worker, crash or retry keeps: one holder per row, holders know their row, delivered rows were accepted by all |
| Outbox.DeliveredMeansAccepted | inec-go-backend/external_integration_delivery.go:269-312 | in every interleaving a row has at most one holder, and a delivered row was accepted by every distinct required sink within one single claim |
| Outbox.DeliveredIsFinal | inec-go-backend/external_integration_delivery.go:337-348 | delivered is final |
| Outbox.CompleteIffFresh | inec-go-backend/external_integration_delivery.go:110-158 | for any number of workers: if records are written and every claim finds the attempt count that its worker read, each required sink has exactly one record per finished attempt and no other sink has any; and once a row is not being delivered, complete records imply that every claim was fresh |
| Outbox.AttemptRecordsComplete | inec-go-backend/external_integration_delivery.go:61-80 | with the one worker that is started every claim is fresh, so the records are complete |
| Outbox.StaleAttemptNumber | inec-go-backend/external_integration_delivery.go:110-142 | with two workers this fails: a run whose second attempt finishes without a record, filed under a stale number |
| Outbox.OrphansAreStranded | inec-go-backend/external_integration_delivery.go:109-144 | a row whose worker crashed or could not finalize is never claimed, delivered or retried again |
| Outbox.CrashOrphansRow | inec-go-backend/external_integration_delivery.go:133-144 | a run in which a crash leaves such a row |
| Outbox.FailedFinalizeOrphansRow | inec-go-backend/external_integration_delivery.go:307-309 | a run in which a failed finalize does, although every sink accepted |
| Outbox.PoisonBlocksQueue | inec-go-backend/external_integration_delivery.go:117-131 | a due row that is unreadable or names no sink keeps every row behind it unclaimed |
| Outbox.UnreadableRowBlocks | inec-go-backend/external_integration_delivery.go:125-131 | a run that reaches this, with a good row waiting behind |
| OutboxRounds.RoundOutcome | inec-go-backend/external_integration_delivery.go:279-312 | a whole round on the row that is next up (pending or failed, due, least id, readable, with sinks): one attempt more, delivered if every sink accepted or else failed until the retry delay is over, each answer recorded as it was, every other row and record as before |
| OutboxRounds.FailedRowIsTakenAgain | inec-go-backend/external_integration_delivery.go:109-144 | a row that failed is held again once its delay is over and no row with a lesser id is due |
| OutboxRounds.OtherRowsAreLeft | inec-go-backend/external_integration_delivery.go:110-135 | a row that is delivering, delivered or quarantined is neither selected nor claimed |
| OutboxRounds.RetryMakesDue | inec-go-backend/external_integration_delivery.go:337-348 | a manual retry makes a failed or quarantined row pending and due at once, and touches no other row |
| OutboxRounds.EnqueueMeans | inec-go-backend/device_gateway.go:588-592 | a new row is pending, without attempts and due at once |
| OutboxRounds.BackoffDoubles | inec-go-backend/external_integration_delivery.go:258-267 | one second after the first attempt, doubled by each further one, 256 seconds from the ninth on |
| OutboxRounds.NormalizedMeans | inec-go-backend/external_integration_delivery.go:95-104 | a sink name loses its white space at both ends and no more, and its capitals |
| OutboxRounds.SinksInOrder | inec-go-backend/external_integration_delivery.go:93-106 | the required sinks stand in the order in which their names appear first |
| FabricAnchor.AnchorQueue.QueueAnchor | inec-go-backend/fabric_anchor.go:406-467 | queueing is idempotent on the anchor id |
| FabricAnchor.AnchorQueue.RecordOutcome | inec-go-backend/fabric_anchor.go:527-576 | the outcome transaction updates the request and appends the attempt, or rolls back, and keeps the queue usable |
| FabricAnchor.StaleWritersCollide | inec-go-backend/fabric_anchor.go:527-576 | a recording goes through exactly when the request is as the submitter saw it; a stale one finds its attempt number taken and leaves nothing |
| FabricAnchor.StepKeepsInv | inec-go-backend/fabric_anchor.go:504-576 | every step of any submitter keeps the invariant of the queue |
| FabricAnchor.AttemptsAreExact | inec-go-backend/fabric_anchor.go:504-576 | in every interleaving the attempt rows of a request are exactly 1 to its attempt count, and a committed receipt names the queued anchor id |
| FabricAnchor.CommittedIsFinal | inec-go-backend/fabric_anchor.go:527-576 | a committed request and its attempts never change again |
| AnchorOutcomes.QueueingMeans | inec-go-backend/fabric_anchor.go:406-467 | which anchors are queued, and as what |
| AnchorOutcomes.LoadingMeans | inec-go-backend/fabric_anchor.go:504-512 | any uncommitted request is taken up |
| AnchorOutcomes.RecordingMeans | inec-go-backend/fabric_anchor.go:513-576 | what each answer of the gateway leaves in the request and its attempts |
| AnchorOutcomes.UncommittedCanCommit | inec-go-backend/fabric_anchor.go:504-576 | in every reachable state an uncommitted request is committed by the right receipt |
| DeviceGateway.ApplyAccreditation | inec-go-backend/device_gateway.go:617-643 | the tables hold each voter's first accreditation; a repeat at the same polling unit is a duplicate, one elsewhere is refused |
| DeviceGateway.ApplyResultCapture | inec-go-backend/device_gateway.go:645-669 | the tables hold the first capture of each polling unit; later ones are duplicates or conflicts and overwrite nothing |
| DeviceGateway.Gateway.LookUpNonce | inec-go-backend/device_gateway.go:451-462 | the look-up half of nonce acquisition: a nonce passes only in the lenient mode, when its key is missing or Redis fails, because a missing key is an error too |
| DeviceGateway.Gateway.RecordNonce | inec-go-backend/device_gateway.go:463-469 | the recording half, a separate step |
| DeviceGateway.Gateway.PersistEnvelope | inec-go-backend/device_gateway.go:538-615 | the transaction refines one step on the log of committed envelopes: one inbox row, one outbox row and one outcome, or the tables exactly as before; its answer follows from the log and the stage of a fault |
| DeviceGateway.Gateway.ReleaseNonce | inec-go-backend/device_gateway.go:671-681 | the release frees the nonce unless Redis fails |
| DeviceGateway.Gateway.HandleEvent | inec-go-backend/device_gateway.go:763-801 | the exact steps of a request (look-up, recording, verification, persistence and, after a hard failure only, release) and its answer, for every combination of service failures |
| DeviceGateway.CapturedAtIsFirst | inec-go-backend/device_gateway.go:645-669 | the canonical figures of a polling unit are those of the capture that no other capture precedes in commit order |
| DeviceGateway.FirstCaptureIsFinal | inec-go-backend/device_gateway.go:538-615 | in every interleaving of sends, retries, crashes and lost Redis keys the log only grows and a canonical result is never overwritten |
| DeviceGateway.GatewayNeverCommitsReplays | inec-go-backend/device_gateway.go:102-123 | in every such interleaving no two committed envelopes share a device sequence number, a device nonce or a hash, and no voter is accredited at two polling units of an election |
| DeviceGateway.CommitsAloneIff | inec-go-backend/device_gateway.go:763-801 | a send that runs alone commits exactly when Redis is not required, its nonce is not in Redis and the database does not refuse it |
| DeviceGateway.StrictNeverCommits | inec-go-backend/device_gateway.go:456-462 | when Redis is required nothing is committed in any interleaving of any sends, and every request is answered as rejected |
| DeviceGateway.SecondUnitIsReplayed | inec-go-backend/device_gateway.go:780-786 | in the lenient mode, an accredited voter at a second polling unit: the envelope repeats nothing, is answered as a replay and keeps its nonce |
| DeviceGateway.HardFailureCanBeRetried | inec-go-backend/device_gateway.go:780-792 | a hard failure leaves the database as it was and frees the nonce, and a retry commits exactly when Redis is not required and the database does not refuse the envelope |
| DeviceGateway.FailedVerificationLocksNonce | inec-go-backend/device_gateway.go:763-779 | a failed verification keeps the nonce: no retry with it commits while Redis keeps the key |
| DeviceGateway.FailedVerificationBlocksRetry | inec-go-backend/device_gateway.go:763-779 | in the lenient mode, a lone send whose verification fails stores nothing, and sending it again is refused |
| DeviceGateway.ReleaseCanFreeCommittedNonce | inec-go-backend/device_gateway.go:780-792 | two racing sends can free the nonce of a committed event; the database still refuses the replay |
| GatewayAnswers.CapturedAtMeans | inec-go-backend/device_gateway.go:647-669 | the canonical figures of a polling unit, in terms of election, unit and figures of the committed captures |
| GatewayAnswers.CaptureOutcome | inec-go-backend/ingestion.go:670-686 | a capture is applied if its unit has none, a duplicate if the first one has the same figures, a conflict if it has different ones |
| GatewayAnswers.AccreditationOutcome | inec-go-backend/device_gateway.go:632-642 | an accreditation is applied if the voter has none in the election, and else a duplicate |
| GatewayAnswers.RefusedMeans | inec-go-backend/device_gateway.go:120-122 | what the database refuses: a sequence number or nonce of the device again, a hash again, a voter accredited at another polling unit |
| GatewayAnswers.AnswerMeans | inec-go-backend/device_gateway.go:780-801 | what each answer says about the log, and which verified sends are accepted |
| GatewayAnswers.SendUnderOutage | inec-go-backend/device_gateway.go:451-469 | a lone send in the lenient mode whichever Redis calls fail: when it commits and what becomes of its nonce |
| GatewayAnswers.CommittedOnce | inec-go-backend/device_gateway.go:120-122 | in every interleaving sequence numbers, nonces and hashes are committed once, and a voter's accreditations are at one polling unit |
| Accreditation.AccreditationDesk.CheckVerification | inec-go-backend/bvas.go:379-463 | the verification read and its refusals |
| Accreditation.AccreditationDesk.CheckDuplicate | inec-go-backend/bvas.go:465-478 | the election-wide duplicate check |
| Accreditation.AccreditationDesk.ConsumeAndAccredit | inec-go-backend/bvas.go:479-516 | consuming the verification and inserting the accreditation happen together, or every verification and accreditation is as before |
| Accreditation.RunsKeepInv | inec-go-backend/bvas.go:379-516 | in every interleaving a verification is consumed if and only if an accreditation was committed with it, backs one only and fits it, and a voter has one accreditation per election |
| Accreditation.AccreditationsRestOnMatches | inec-go-backend/bvas.go:401-424 | in every interleaving each accreditation rests on a verification that was a match, is consumed, backs no other, and names the same election and unit where it names any |
| Accreditation.ConsumedMeansUsed | inec-go-backend/bvas.go:479-516 | and a verification is consumed only by an accreditation |
| Accreditation.StepKeepsInv | inec-go-backend/migrations/000045_bvas_accreditation_dedupe.up.sql:14-15 | every step of any request keeps that invariant |
| Accreditation.LostVerificationStaysUsable | inec-go-backend/bvas.go:499-511 | a voter whose insert failed can retry with the same verification: the retry succeeds exactly when the verification was unused and the voter is not accredited |
| Accreditation.RaceHasOneWinner | inec-go-backend/bvas.go:479-512 | of two checked requests with one verification or one voter, the second loses and its own verification stays as it was |
| Accreditation.AloneSucceedsIff | inec-go-backend/bvas.go:379-516 | a request that runs alone succeeds exactly when its verification is an unused match bound to this election and unit, the other checks hold and the voter is not yet accredited |
| Accreditation.CommitsAreFinal | inec-go-backend/bvas.go:481-512 | a consumed verification stays consumed and accreditations are never changed or lost |
| FingerprintMatch.MatchFingerprints | inec-go-backend/biometric_engine.go:400-452 | the nested loops compute the greedy matching and its score, 0 for an empty template |
| FingerprintMatch.GreedyIsUnique | inec-go-backend/biometric_engine.go:408-433 | the greedy rule (cheapest free partner, first on a tie, cost below the tolerance) determines the matching |
| FingerprintMatch.PicksAreInjective | inec-go-backend/biometric_engine.go:406-433 | no minutia of the second template is used twice |
| FingerprintMatch.ScoreIsProbability | inec-go-backend/biometric_engine.go:434-451 | the score lies in [0,1], and without the pattern bonus it is 1 exactly when the smaller template is matched completely |
| FingerprintMatch.SelfMatchIsPerfect | inec-go-backend/biometric_engine.go:400-452 | a non-empty template with angles in [0,360) scores exactly 1 against itself, repeated minutiae included |
| FingerprintMatch.GreedyIsHalfOptimal | inec-go-backend/biometric_engine.go:408-433 | no one-to-one pairing of compatible minutiae is more than twice as large as the greedy one |
| FingerprintMatch.ScoreIsNotSymmetric | inec-go-backend/biometric_engine.go:408-433 | two templates that score 0.5 one way round and 1 the other |
| FingerprintGeometry.GapIsCircular | inec-go-backend/biometric_engine.go:418-421 | the angle gap is the least difference of the two angles over all whole turns, lies in [0,180] and is symmetric |
| FingerprintGeometry.CompatibleMeans | inec-go-backend/biometric_engine.go:415-432 | two minutiae can be paired exactly if their distance plus a tenth of their circular gap is below 15 and the gap below 30 |
| FingerprintGeometry.MotionKeepsMatching | inec-go-backend/biometric_engine.go:408-433 | shifting and turning both templates together leaves every pick as it was |
| FingerprintGeometry.MotionKeepsScore | inec-go-backend/biometric_engine.go:434-451 | and the score |
| FingerprintGeometry.AcrossZeroIsPaired | inec-go-backend/biometric_engine.go:418-421 | two minutiae at 359 and 1 degrees at one place are paired at cost 0.2 |
| FingerprintGeometry.ScoreMeans | inec-go-backend/biometric_engine.go:434-451 | the score is the matched share of the smaller template, raised by 0.05 for one pattern, and at most 1 |
| MatchSymmetry.DirectionsWithinFactorTwo | inec-go-backend/biometric_engine.go:408-433 | the two directions never differ by more than a factor of two in pairs |
| MatchSymmetry.AlwaysMaximumIffOrderly | inec-go-backend/biometric_engine.go:408-433 | greedy finds the largest possible pairing, for every selection and listing order of the minutiae, exactly when the templates are orderly: a minutia that competes for a partner is closer to the other partner that only it can use |
| MatchSymmetry.FreeIffOrderly | inec-go-backend/biometric_engine.go:408-433 | the number of pairs depends neither on the direction nor on the listing order, for any selection of minutiae, exactly when the templates are orderly towards each other |
| MatchSymmetry.OrderlyScoresAgree | inec-go-backend/biometric_engine.go:434-451 | two such templates score the same both ways round |
| MatchSymmetry.UniquePartnersAreOrderly | inec-go-backend/biometric_engine.go:408-433 | templates whose minutiae have at most one compatible partner are orderly |
| OfflineSync.EnrolmentStore.ApplyOfflineEnrollment | inec-go-backend/biometric_advanced.go:828-875 | one row's outcome and the profiles after it |
| OfflineSync.EnrolmentStore.TriggerSync | inec-go-backend/biometric_advanced.go:778-826 | synced, failed and conflicts are the numbers of pending rows with these outcomes, and every queue row and profile afterwards |
| OfflineSync.CountsAddUp | inec-go-backend/biometric_advanced.go:799-825 | the three counts add up to the pending rows read |
| OfflineSync.FirstValidHashWins | inec-go-backend/biometric_advanced.go:778-875 | after a sync each voter and slot holds what it held, or else the first valid queued hash in id order |
| OfflineSync.WriteOnce | inec-go-backend/biometric_advanced.go:864-874 | no stored template of any profile is replaced and no profile is removed |
| OfflineSync.SecondSyncChangesNothing | inec-go-backend/biometric_advanced.go:778-826 | a second sync right after the first, whatever fails in it, changes no profile, provided no row lost both its profile access and its status update |
| OfflineSync.SecondSyncChangesIff | inec-go-backend/biometric_advanced.go:778-826 | a second sync without failures changes a profile exactly when there is a row that lost both and still has something to enrol |
| OfflineSync.LostMarkCanApplyLater | inec-go-backend/biometric_advanced.go:803-820 | such a row: it is enrolled by the second sync |
| EnrolmentOutcomes.SlotMeans | inec-go-backend/biometric_advanced.go:833-842 | which slot a modality fills, in any case of its letters |
| EnrolmentOutcomes.OutcomeMeans | inec-go-backend/biometric_advanced.go:843-875 | when a row is an error, applied, a duplicate or a conflict |
| EnrolmentOutcomes.MarkMeans | inec-go-backend/biometric_advanced.go:803-822 | what each outcome leaves in the row |
| EnrolmentOutcomes.NewProfileMeans | inec-go-backend/biometric_advanced.go:853-860 | a voter without a profile gets one with this slot only |
| Retention.RetentionWorker.LegalHoldActive | inec-go-backend/data_retention.go:154-167 | held exactly when the policy says so or a hold is on record and could be read |
| Retention.RetentionWorker.ArchiveExpiredRows | inec-go-backend/data_retention.go:172-250 | a completed export holds exactly the expired rows in id order; a failed one counts for nothing |
| Retention.RetentionWorker.PurgeExpiredRows | inec-go-backend/data_retention.go:254-272 | the batched purge ends and, unless a batch fails, exactly the rows older than the cutoff are gone |
| Retention.RetentionWorker.ApplyPolicy | inec-go-backend/data_retention.go:279-341 | rows go only in a real run, without a hold, and out of an archive-first table only after their export; with no fault exactly the expired rows go |
| Retention.RetentionWorker.RunDataRetention | inec-go-backend/data_retention.go:275-341 | a sweep is one action per policy, and in a real run a table loses exactly the rows that are due under its unheld policies, whatever fails for other tables |
| Retention.AllExpiredGone | inec-go-backend/data_retention.go:254-272 | when no expired row is left, the removed ids are exactly the expired ones |
| Retention.LostRowsWereDue | inec-go-backend/data_retention.go:275-341 | over any sequence of sweeps a lost row was older than the cutoff of a real run that saw no hold, and in an archive-first table it is in an archive |
| Retention.HeldTablesLoseNothing | inec-go-backend/data_retention.go:325-331 | a statically held table loses no row over any sequence of sweeps |
| Retention.ReadableHoldsProtect | inec-go-backend/data_retention.go:154-167 | a hold on record protects its table as long as every reading of it succeeds |
| Retention.HoldFailsOpen | inec-go-backend/data_retention.go:158-166 | a recorded hold protects expired rows exactly when it can be read |
| Retention.ExpiredMeans | inec-go-backend/data_retention.go:172-175 | expired is what lies before the cutoff, the rest is kept, both in table order |
| Retention.DueMeans | inec-go-backend/data_retention.go:280-331 | which rows a sweep is to delete, by table, holds and age |

## Left out

- HTTP, JSON, roles, logging, audit rows, message brokers, signing services and the geofence: only their success or
  failure enters, as a parameter of a step.
- SQL text: a query is the relation it computes; differences between SQLite and PostgreSQL are not modelled.
- Contents of the EC8A form and its validation rules: the writers take an `accepted` flag.
- Guards of the state machine other than closing and declaring: `TransitionElection` takes their answer as a parameter.
- Creation of rerun elections and their scopes: a snapshot may hold any children and scopes.
- Area names and form types of a rollup row.
- Rollup.RollupTable.PersistCollationRollup: does not state `polling_units_reported`, which is the unit count of whichever party row the database returns last, nor the fallback for registered voters when their query fails.
- A refresh without a ward code, which rewrites every area.
- Other writers of the results table (seeding, the internal election service, the ingestion service in
  `inec-go-backend/internal/ingestion/service.go`, and `handleOfflineConflictResolve` in
  `inec-go-backend/platform_enhancements.go`, which rewrites the vote columns of a pending result and leaves the hash of
  its form alone) and of the accreditation table, and
  the third writer of an election's status, the transition in `inec-go-backend/internal/election/service.go`, which
  has a transition table and a log table of its own.
- Text of the anchor id (`calculateFabricAnchorID`): the queue takes it as given.
- DeviceGateway.Gateway.PersistEnvelope: the rows that one envelope inserts never clash with each other; a capture that names a party twice breaks the unique index on party scores and is answered as a replay, which is not modelled.
- A statement that fails inside a transaction aborts it, as in PostgreSQL; `handleResolveDispute` goes on after a failed update of the result, which only a database that keeps the transaction open would commit.
- Clocks: a due time is compared with a `now` that each step brings.
- The biometric vault, iris and face matching, score fusion, deduplication, error-rate sweeps.
- GPS scoring, chi-square tests, dashboards, exports and other handlers without state of their own.
- Names are split into parts outside the model; `FuzzyNameMatch` takes the parts.
- Declaration.DeclaredWinnerIsSafe: says nothing about parties without a score when the runner-up's total is negative.
- Declaration.GuardFinalizeIsExact: takes the guard's own result set, which unlike the assessment's includes cancelled children.
- OfflineSync.SecondSyncChangesNothing: excludes rows that lost both writes; `SecondSyncChangesIff` has the exact condition.
- Outbox.CompleteIffFresh: a failed write of an attempt record is only logged, so completeness is promised for runs in which they succeed.
- Outbox.OutboxWorker.DeliverOutbox: the other workers stand still during the pass; the machine theorems cover the interleavings.
- DeviceGateway.Gateway.HandleEvent: the other requests stand still; the machine theorems cover the interleavings. Envelope validation and enrolment checks before the nonce are not modelled.
- DeviceGateway.ApplyResultCapture: figures are compared by the hash of the captured form, as the code does; corrections of results are in ResultHistory.
- Retention.RetentionWorker.ApplyPolicy: no rows are written while one policy is applied; between policies anything may be inserted.
