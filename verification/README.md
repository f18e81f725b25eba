# Verified model of the Midnight referendum services

A Dafny model of the parts of the system whose correctness is hard to see from one function:

* **The walletless relay** (`RelayTypes`, `RelayTable`, `RelayProtocol`, `RelayJobs`, `RelaySafety`, `RelayTheorems`):
  `V2ActionService` as a transition system with one step per await point of `accept`, `reconcile`, `start` and
  `runWalletStage`, failing store calls, timers, clients, an arbitrary wallet and indexer, and a crash that wipes
  everything volatile. The theorems are about every run. `RelayOutcomes` says which answers of wallet, node and indexer
  lead to which end, and what every error, receipt and job has behind it; `RelayReplay` when a capability counts as
  replayed, `RelayLimits` and `RelayProgress` where the relay stops and exactly when it can go on. `RelayRuns` and
  `RelayWitness` build the runs that show it. `RelayStore` is the in-memory adapter as the object it is,
  `RelayPostgres` the PostgreSQL adapter as atomic table operations, `RelayAdapters` the comparison.
* **The canonical printer** (`JsText`, `Canonical`, `CanonicalText`): `stableJson` over UTF-16 text, with a reader that
  shows that the printed text decides the meaning, and the text itself spelled out.
* **The credential service** (`RootPublisher`, `DurableStores`, `Issuance`, `IssuanceAnswers`, `EpochFreeze`): the
  batching publisher, the durable stores, the serial issuer with crashes, and the coordinator that freezes an epoch
  against enrollment.
* **Self-contained pieces** (`MrzDates`, `Mrz`, `ActionLock`, `Manifest`, `ForbiddenKeys`): check digits and TD3 lines
  of a passport, the promise-chain lock with vote de-duplication, the evidence checks of the deployment manifest, and
  the worklist scan for private keys.

Hashes and HMACs are symbolic: a digest is a constructor applied to what was hashed. What the outside world decides
(randomness, clocks, wallet, indexer, network, other processes' timing) is a parameter of an event or of a call.

Places where the code does less than its comments or a reader might expect, each with a lemma:

* An exact retry is meant to be idempotent (relayer/src/v2-service.ts:190-193), but an accept can refuse the job it has
  just created (`RelayWitness.CapabilityReplayedIsReachable`); `RelayReplay.RefusedIffOvertaken` says exactly when, and
  `RelayReplay.NoOverlapNoReplay` under which use it never does.
* A job refused the DUST lease is rescheduled but never moves again (`RelayLimits.RefusedLeaseIsFinal`, reached by
  `RelayWitness.RefusedLeaseIsReachable`); `RelayLimits.LeasedIffFreeAtRequest` says exactly which jobs are leased.
* A submission that is left without a transaction id stops all wallet work for good, by a crash or without one
  (`RelayWitness.LostSubmissionIsReachable`, `RelayWitness.LostSubmissionWithoutCrash`); `RelayProgress.WalletGoesOnIff`
  says that nothing else does.
* The two store adapters answer an `accept` differently in one case, characterised exactly by
  `RelayPostgres.VerdictsAgreeIff` and reached by `RelayWitness.SplitIsReachable`.
* The status field `publishesNoLaterThanMs` is documented as the bound of the wait
  (cico-service/src/credential-root-publisher.ts:126-131). It holds, whatever is enrolled meanwhile, if and only if the
  batch is one short of the minimum (`RootPublisher.PromiseKeptIffOneShort`); `RootPublisher.WaitCanOutlastPromise` is a
  run that breaks it, and the bound that always holds is `RootPublisher.BoundedWait`.
* After a restart the publisher counts every credential as new, so an undersized batch can go out unflagged
  (`RootPublisher.RestartPublishesUnflagged`); `RootPublisher.FlagHonestAcrossRestarts` says exactly when.
* A crash between `addCredential` and the journal makes one enrollment be added twice
  (`Issuance.LostResultIsAddedTwice`); in any state of any run an added enrollment can be added again if and only if it
  is not in the journal (`Issuance.AddedAgainIffNotJournaled`).
* "A birth date is always in the past" (ui/src/integration/mrz.ts:112) fails exactly as `MrzDates.BirthInFuture` says,
  and "every field carries a check digit" (ui/src/integration/mrz.ts:9) fails exactly as `Mrz.MisreadsThatPass` says.
* The manifest looks only at the first publish step of a root (`Manifest.RootAcceptedIff`, `Manifest.EarlierStepHidesProvenance`).

## Model

| member | source | states |
|---|---|---|
| `Canonical.HexRoundTrip` | relayer/src/v2-hash.ts:6-14 | the four hexadecimal digits of an escaped code unit read back as that unit |
| `Canonical.ReadQuoted` | relayer/src/v2-hash.ts:6-14 | reading a quoted string yields the string and leaves exactly the text after it, for every following text |
| `Canonical.QuoteReadable` | relayer/src/v2-hash.ts:6-14 | quoted strings are self-delimiting: equal quoted texts with any continuations have equal strings and equal continuations |
| `Canonical.SortSorts` | relayer/src/v2-hash.ts:10-13 | the printed member list is strictly ascending by key and has exactly the members of the object |
| `Canonical.AscendingUnique` | relayer/src/v2-hash.ts:10-13 | two strictly ascending member lists with the same members are the same list |
| `Canonical.Readable` | relayer/src/v2-hash.ts:6-14 | a printed value followed by any text determines the value's meaning and the text |
| `Canonical.SameMeaningSamePrint` | relayer/src/v2-hash.ts:6-14 | values that differ only in the order of object members, at any depth, print alike |
| `Canonical.PrintDecidesMeaning` | relayer/src/v2-hash.ts:6-14 | two JSON values print alike if and only if they mean the same |
| `CanonicalText.LeavesSpelled` | relayer/src/v2-hash.ts:7 | the literals null, true and false and the numerals are printed as JSON writes them |
| `CanonicalText.StringSpelled` | relayer/src/v2-hash.ts:7 | a string is written unit by unit: short escapes, four lower-case hexadecimal digits for other controls and lone surrogates, surrogate pairs as they are |
| `CanonicalText.ArraySpelled` | relayer/src/v2-hash.ts:8 | an array is its items in order between brackets with commas and nothing else between |
| `CanonicalText.AscendingSpelled` | relayer/src/v2-hash.ts:9-13 | an object with ascending keys is its members as they stand, each a quoted key, a colon and the value, between braces with commas |
| `CanonicalText.RequestSpelled` | relayer/src/v2-hash.ts:16-33 | the hashed text of a request, literally: action, circuit, contractAddress, network, tx and version 1 in this order under these names |
| `RelayTypes.RequestTextIsFaithful` | relayer/src/v2-hash.ts:16-33 | two requests have the same hash preimage if and only if every hashed field is equal |
| `RelayTypes.CapabilityBindsOneAction` | relayer/src/v2-capability.ts:23-55 | two requests accepted under one capability digest have the same action id, key and transaction |
| `RelayTypes.AcceptedCapability` | relayer/src/v2-capability.ts:23-55 | a token is accepted if and only if its signature is authentic, it has not expired, and each of its claims is the request's own |
| `RelayTypes.ResolvedReceiptIsTrue` | relayer/src/v2-indexer.ts:53-108 | a receipt comes only from a successful indexed transaction with the queried id that touched the queried contract, repeats the query, and survives sanitising |
| `RelayTypes.AnswersDecide` | relayer/src/v2-indexer.ts:53-108 | both ways, on the answer's fields: which answers give a receipt, which reject the transaction and as what, and which leave it open |
| `RelayTypes.ReceiptRepeatsTransaction` | relayer/src/v2-indexer.ts:90-108 | the receipt repeats the query and the indexed hash and block, with the time in milliseconds |
| `RelayTable.StartPassIsIdempotent` | relayer/src/v2-service.ts:89-103 | the restart pass applied twice is the pass applied once, and leaves no job in a status before submission |
| `RelayStore.InMemoryV2ActionStore.constructor` | relayer/src/v2-store.ts:32-36 | a new store is empty |
| `RelayStore.InMemoryV2ActionStore.CreateOrGet` | relayer/src/v2-store.ts:37-69 | inserts one fresh job if nothing matches; otherwise changes nothing and answers from the row under the id, or from the earliest matching row |
| `RelayStore.InMemoryV2ActionStore.GetByIdempotencyKey` | relayer/src/v2-store.ts:78-83 | finds a job with the key if and only if there is one |
| `RelayStore.InMemoryV2ActionStore.ConsumeCapability` | relayer/src/v2-store.ts:85-92 | true exactly for the first use of a digest; the table afterwards |
| `RelayStore.InMemoryV2ActionStore.TransitionJob` | relayer/src/v2-store.ts:94-119 | compare-and-set on the status with the journal appended; misses and bad receipts change nothing |
| `RelayStore.InMemoryV2ActionStore.ReserveDustLease` | relayer/src/v2-store.ts:121-143 | leases a validated job exactly when no other job holds the lease |
| `RelayStore.InMemoryV2ActionStore.ListRecoverable` | relayer/src/v2-store.ts:145-151 | lists exactly the jobs in non-terminal status, each once |
| `RelayStore.InMemoryV2ActionStore.Start` | relayer/src/v2-service.ts:89-103 | the loop over the store yields exactly the recovered table and schedules exactly the reconcilable jobs |
| `RelayPostgres.TransitionsAgree` | relayer/src/v2-postgres.ts:170-210 | PostgreSQL `transition` gives the outcome and table of the in-memory one for every call of the service |
| `RelayPostgres.ReservationsAgree` | relayer/src/v2-postgres.ts:212-231 | the guarded update without self-exclusion leases in the same cases, with the same table |
| `RelayPostgres.ConsumesAgree` | relayer/src/v2-postgres.ts:146-168 | insert-or-nothing consumes in the same cases |
| `RelayPostgres.AdaptersAgree` | relayer/src/v2-postgres.ts:146-231 | from equal tables, any sequence of calls draws equal replies and leaves equal tables |
| `RelayPostgres.BothAdaptersAdmit` | relayer/src/v2-postgres.ts:81-121 | both `createOrGet`s insert one fresh job or change nothing, touch no stored job, and keep ids, keys and hashes unique |
| `RelayPostgres.VerdictsAgreeUnlessSplit` | relayer/src/v2-postgres.ts:81-121 | unless the id belongs to one job and the hash to another under a new key, `accept` reaches the same verdict on both adapters |
| `RelayPostgres.VerdictsDifferWhenSplit` | relayer/src/v2-postgres.ts:81-121 | in that case memory refuses and PostgreSQL can go on |
| `RelayPostgres.VerdictsAgreeIff` | relayer/src/v2-postgres.ts:81-121 | the verdicts agree for all outcomes if and only if that case is absent |
| `RelayAdapters.CausedCallsAreTidy` | relayer/src/v2-service.ts:281-359 | no run hands the store an empty transaction id or an unsanitised receipt |
| `RelayAdapters.RunsAgreeOnAdapters` | relayer/src/v2-postgres.ts:146-231 | in every run, exactly the transition, lease request or consumption that a step asks for has the same outcome and next tables on both adapters, hit or miss; a step that asks for none leaves the tables |
| `RelayAdapters.AdmissionsAgree` | relayer/src/v2-service.ts:143-151 | in every run `createOrGet` inserts the one fresh job or leaves the tables |
| `RelayJobs.RanksRise` | relayer/src/v2-service.ts:281-359 | along a lawful journal the rank of the status strictly rises |
| `RelayJobs.JournalIsShort` | relayer/src/v2-service.ts:281-359 | a lawful journal has at most seven entries |
| `RelayJobs.PatchKeepsLawful` | relayer/src/v2-service.ts:286-357 | every transition the service makes extends a lawful job to a lawful job |
| `RelayJobs.MoveKeepsJobs` | relayer/src/v2-store.ts:94-119 | every transition keeps identities unique, the lease single and all journals lawful |
| `RelayJobs.ReserveKeepsJobs` | relayer/src/v2-store.ts:121-143 | reserving keeps the lease single |
| `RelayJobs.AdmitKeepsJobs` | relayer/src/v2-store.ts:37-69 | admission keeps ids, keys and request hashes unique |
| `RelayJobs.CapabilityDigestsDiffer` | relayer/src/v2-service.ts:111-196 | two jobs never share a capability digest |
| `RelaySafety.SameHashSameBytes` | relayer/src/v2-service.ts:197-203 | a retry that hashes like a job carries the job's own transaction |
| `RelaySafety.StepKeepsInv` | relayer/src/v2-service.ts:89-377 | every step of every actor, crashes included, keeps the global invariant |
| `RelayTheorems.InvAlways` | relayer/src/v2-service.ts:89-377 | the invariant holds in every reachable state |
| `RelayTheorems.StepChange` | relayer/src/v2-service.ts:89-377 | each step makes the one table change that its event asks for, hit or miss, from its own place in the code, and logs at most one wallet call |
| `RelayTheorems.HistoryOnlyGrows` | relayer/src/v2-store.ts:94-119 | journals are only extended, transaction ids, receipts and lease ids are written once, terminal jobs are frozen, consumed capabilities stay |
| `RelayTheorems.AtMostOnceSubmission` | relayer/src/v2-service.ts:281-359 | over every run `submit` is called at most once per job, per idempotency key and per request hash |
| `RelayTheorems.JournaledBytesOnly` | relayer/src/v2-service.ts:284-345 | bytes handed to the wallet digest to the journaled digest, once per job; a submission follows its journaled intent and submits what the wallet finalized for that job |
| `RelayTheorems.SingleLease` | relayer/src/v2-store.ts:121-143 | in every reachable state at most one job is between lease and confirmation |
| `RelayTheorems.WalletServesOneJob` | relayer/src/v2-service.ts:290-325 | whenever the wallet is called, to balance or to submit, no job but its own is leased, so coins are never balanced for two jobs in flight |
| `RelayTheorems.ReceiptTruth` | relayer/src/v2-service.ts:233-268 | a job has a receipt exactly when it is confirmed, and the receipt repeats the job's transaction id, network, contract, circuit and action |
| `RelayTheorems.IdentityDiscipline` | relayer/src/v2-service.ts:111-196 | ids, keys, hashes and capability digests stay pairwise unique, and every consumed capability has its durable job |
| `RelayTheorems.JournalLaw` | relayer/src/v2-service.ts:181-357 | every journal starts at authorized, follows lifecycle edges, ends at the status and has at most seven entries; error code and lease id are present exactly where they should be |
| `RelayOutcomes.SettlementEnds` | relayer/src/v2-service.ts:320-357 | in every run, where a submission ends for each pair of derived id and node answer: a lost answer keeps a derived id, nothing known ends as unknown, a different id as a mismatch |
| `RelayOutcomes.ErrorsMeanWhatTheySay` | relayer/src/v2-service.ts:181-357 | in every reachable state each error code tells how the job ended: an unknown submission has no transaction id and a mismatched or indexer-rejected one has |
| `RelayOutcomes.BalanceFailureEnds` | relayer/src/v2-service.ts:296-306 | a failed balancing ends its job as rejected and frees the lease, unless something else ended it |
| `RelayOutcomes.DerivedIdIsJournaled` | relayer/src/v2-service.ts:307-312 | a finished balancing journals the job as finalized with the id that the wallet derived |
| `RelayOutcomes.IntentGoesOn` | relayer/src/v2-service.ts:313-322 | a finalized job has its intent journaled and is then submitted; any other is left alone |
| `RelayOutcomes.RejectionHasEvidence` | relayer/src/v2-service.ts:239-265 | in every run a job rejected by the indexer has an earlier lookup that found its own transaction, unsuccessful, or successful without its contract |
| `RelayOutcomes.ConfirmationHasEvidence` | relayer/src/v2-service.ts:239-254 | in every run a confirmed job has an earlier lookup that found its own transaction, successful, on its contract, and the receipt repeats it |
| `RelayOutcomes.ShapeDecides` | relayer/src/v2-service.ts:380-440 | a request is well shaped exactly if every field is filled, its transaction is an even number of hexadecimal digits and its action the one of its circuit |
| `RelayOutcomes.JobsAreAuthorized` | relayer/src/v2-service.ts:111-151 | in every run each job was created by an accept whose token was authentic, unexpired and bound to the job's own fields |
| `RelayOutcomes.ConsumedAreAuthorized` | relayer/src/v2-service.ts:111-196 | in every run each consumed capability was presented by an accept that found it authentic and unexpired |
| `RelayOutcomes.KeyCheckDecides` | relayer/src/v2-service.ts:154-161 | an accept goes on exactly when every job under its key has its hash and its capability |
| `RelayOutcomes.AttachDecides` | relayer/src/v2-service.ts:197-203 | an accept queues its job exactly when it saw it authorized and no stage of it is running, and keeps the bytes when it created it or saw it authorized |
| `RelayOutcomes.ReconcileDecides` | relayer/src/v2-service.ts:233-238 | exactly the stored jobs with a transaction id that are neither confirmed nor failed are looked up |
| `RelayOutcomes.LookupDecides` | relayer/src/v2-service.ts:239-265 | a lookup leads to a verdict exactly for an indexed transaction with the job's id that failed, missed the contract or makes a receipt |
| `RelayOutcomes.StartPassEndsInterrupted` | relayer/src/v2-service.ts:89-103 | in every run, a start pass that gets to its end has ended every job that was interrupted before submission when it listed the table, whatever went on meanwhile |
| `RelayOutcomes.LeaveDecides` | relayer/src/v2-service.ts:274-279 | a job leaves the wallet stage exactly once it is neither queued nor at work |
| `RelayOutcomes.StageEndsFor` | relayer/src/v2-service.ts:281-359 | in every run no wallet stage ends silently: for which reasons it can end, on the stored job; a job refused the lease is scheduled again |
| `RelayOutcomes.TimersAndQueue` | relayer/src/v2-service.ts:270-283 | a timer runs its job again unless it is running; stages are served one at a time in the order of the queue |
| `RelayOutcomes.BytesAreDropped` | relayer/src/v2-service.ts:299-352 | no transaction bytes are kept past a failed balancing or an answered submission, and a crash keeps only the store |
| `RelayOutcomes.StartPassDecides` | relayer/src/v2-service.ts:89-103 | the start pass leaves a submitted job with an id to the indexer, ends an interrupted one, and touches no other |
| `RelayTheorems.RestartNeverResubmits` | relayer/src/v2-service.ts:89-103 | after a crash no job with journaled intent is submitted again, whatever follows |
| `RelayLimits.RefusedLeaseIsFinal` | relayer/src/v2-service.ts:285-292 | a job refused the lease stays validated, or is ended by a restart; the scheduled retry never moves it |
| `RelayLimits.LeaseRequest` | relayer/src/v2-service.ts:290-294 | a request for the lease is won exactly by a validated job while no other job is leased, and lost without a change otherwise |
| `RelayLimits.AsksOnce` | relayer/src/v2-service.ts:281-294 | in a run a job asks for the lease at most once |
| `RelayLimits.LeasedIffFreeAtRequest` | relayer/src/v2-service.ts:281-294 | a job has been leased exactly when, at its one request, it was validated and no other job was leased |
| `RelayLimits.StrandedJobWedgesRelay` | relayer/src/v2-service.ts:91-101 | from any state of a run with a submitted job that has no transaction id and no stage working on it, the lease stays taken and the wallet is never called again |
| `RelayLimits.CrashStrands` | relayer/src/v2-service.ts:91-101 | a crash strands every submitted job without a transaction id |
| `RelayProgress.GoesOn` | relayer/src/v2-service.ts:233-359 | from any state of a run without a stranded job some continuation calls the wallet again, if need be for a new well-shaped request to any given contract and circuit |
| `RelayProgress.FreeLease` | relayer/src/v2-service.ts:89-103 | after a crash that strands nothing, the start pass or an indexer rejection can free the lease |
| `RelayProgress.WalletGoesOnIff` | relayer/src/v2-service.ts:89-359 | in every state of every run, the relay can call its wallet again if and only if no submission is stranded |
| `RelayProgress.ConfirmationIsReachable` | relayer/src/v2-service.ts:233-262 | in every state of every run, a submitted job with a transaction id can be confirmed, after any restart, by each indexed transaction that fits it |
| `RelayProgress.RetryResumes` | relayer/src/v2-service.ts:197-203 | an authorized job whose bytes a crash lost is validated after an exact retry |
| `RelayReplay.RefusedIffOvertaken` | relayer/src/v2-service.ts:175-189 | an accept that created its job refuses it if and only if another accept of the same token consumed the capability between its insert and its own consume |
| `RelayReplay.ReplayedMeansOvertaken` | relayer/src/v2-service.ts:175-189 | every job that carries `capability_replayed` was overtaken in that way |
| `RelayReplay.NoOverlapNoReplay` | relayer/src/v2-service.ts:190-196 | if no two accepts of one token overlap while one of them is between insert and consume, an exact retry is idempotent: no job ever carries `capability_replayed` |
| `RelayWitness.CapabilityReplayedIsReachable` | relayer/src/v2-service.ts:179-196 | for every presentable request, two concurrent identical accepts can end with `capability_replayed` |
| `RelayWitness.LostSubmissionIsReachable` | relayer/src/v2-service.ts:308-331 | for every presentable request a run with one crash ends with its job stranded |
| `RelayWitness.LostSubmissionWithoutCrash` | relayer/src/v2-service.ts:317-338 | so does a run without a crash, in which the node's answer and then the store's is lost |
| `RelayWitness.RefusedLeaseIsReachable` | relayer/src/v2-service.ts:290-294 | for any two presentable requests apart, the second is refused the lease while the first waits for the indexer |
| `RelayWitness.SplitIsReachable` | relayer/src/v2-postgres.ts:81-121 | for any two presentable requests apart, a new key with the first one's id and the second one's transaction reaches the case in which memory refuses and PostgreSQL may go on |
| `RootPublisher.CredentialRootPublisher.constructor` | cico-service/src/credential-root-publisher.ts:177-194 | a new publisher has published nothing |
| `RootPublisher.CredentialRootPublisher.IsEnrollmentDeadlineImminent` | cico-service/src/credential-root-publisher.ts:382-399 | true exactly when some open referendum closes enrollment within the waiting time |
| `RootPublisher.CredentialRootPublisher.PublishToReferenda` | cico-service/src/credential-root-publisher.ts:336-350 | one publication per reachable target in order; a failing target is recorded and passed over |
| `RootPublisher.CredentialRootPublisher.AttestAndPublish` | cico-service/src/credential-root-publisher.ts:324-379 | attest, then deliver, then move the bookkeeping; a failed attestation moves nothing |
| `RootPublisher.CredentialRootPublisher.PublishOnce` | cico-service/src/credential-root-publisher.ts:285-379 | one cycle of the object is the cycle specified on values, with the same contract calls |
| `RootPublisher.AttestBeforePublish` | cico-service/src/credential-root-publisher.ts:326-350 | every publication follows a successful attestation of the same root in the same cycle |
| `RootPublisher.HonestGating` | cico-service/src/credential-root-publisher.ts:308-379 | read off one cycle: a published batch is new and non-empty, met the minimum, the wait or the deadline rule, and is flagged undersized exactly when it is |
| `RootPublisher.PublishesIff` | cico-service/src/credential-root-publisher.ts:285-363 | over all configurations and histories, a cycle publishes if and only if there is a new batch that reaches the minimum, has waited its time or faces a closing enrollment, and the registry is joined and attests; it then publishes what it read |
| `RootPublisher.SkipsIff` | cico-service/src/credential-root-publisher.ts:285-340 | each other answer, and exactly when it is given |
| `RootPublisher.StatusAfterWaiting` | cico-service/src/credential-root-publisher.ts:298-304 | after a waiting cycle the status shows the root read, since when it waits, and the credentials beyond the published ones |
| `RootPublisher.StatusOtherwise` | cico-service/src/credential-root-publisher.ts:285-363 | what every other cycle leaves in the status |
| `RootPublisher.DeliveryIsComplete` | cico-service/src/credential-root-publisher.ts:336-356 | every reachable target gets one publication of the root whatever happened to the others, and is reported delivered exactly when its own succeeded |
| `RootPublisher.JoinedIffCalled` | cico-service/src/credential-root-publisher.ts:401-421 | over all histories a contract counts as joined exactly after the first call to it, whether or not that succeeded |
| `RootPublisher.CallsOfCycle` | cico-service/src/credential-root-publisher.ts:326-356 | the contract calls of a cycle: one attestation of the root read, and after a successful one the delivery |
| `RootPublisher.CredentialsConserved` | cico-service/src/credential-root-publisher.ts:352-363 | after any cycles the published batch sizes add up to the published count |
| `RootPublisher.PublicationsMoveBookkeeping` | cico-service/src/credential-root-publisher.ts:293-363 | read off one cycle: a publication raises the count and changes the root to what was read; any other cycle leaves both |
| `RootPublisher.ConsecutiveRootsDiffer` | cico-service/src/credential-root-publisher.ts:293-306 | consecutive published roots differ and their counts rise |
| `RootPublisher.FewRootsBelowMinimum` | cico-service/src/credential-root-publisher.ts:308-322 | between publications at most minBatchSize - 1 distinct roots are answered below-minimum |
| `RootPublisher.BoundedWait` | cico-service/src/credential-root-publisher.ts:293-322 | the answers below-minimum for one batch span less than (minBatchSize - 1) times (maxWaitMs + gap) |
| `RootPublisher.SameRootWithinMaxWait` | cico-service/src/credential-root-publisher.ts:298-322 | while the root stays, the wait is below maxWaitMs |
| `RootPublisher.PromiseMovesWithRoot` | cico-service/src/credential-root-publisher.ts:298-301 | while a batch waits, the stored start of the wait stands as long as the root does, and every new root moves it to a later time |
| `RootPublisher.PromiseKeptIffOneShort` | cico-service/src/credential-root-publisher.ts:126-131 | after any history of an append-only registry and at any pace of the cycles, the promise given with a below-minimum answer is kept in every steady continuation if and only if the batch is one short of the minimum |
| `RootPublisher.RoomBreaksPromise` | cico-service/src/credential-root-publisher.ts:293-322 | with room for one more enrollment, some continuation still waits when the promised time has come |
| `RootPublisher.WaitCanOutlastPromise` | cico-service/src/credential-root-publisher.ts:126-131 | a concrete run in which a batch waits beyond the promised time |
| `RootPublisher.FlagHonestAcrossRestarts` | cico-service/src/credential-root-publisher.ts:183-185 | over any number of process lives, the undersized flag is honest exactly when this life has published before or the registry does not hold the minimum with fewer than the minimum new |
| `RootPublisher.RestartPublishesUnflagged` | cico-service/src/credential-root-publisher.ts:293-324 | after any earlier lives, a restarted publisher publishes a registry that holds the minimum at once and unflagged, and fewer than the minimum are new exactly when the registry has not grown by the minimum since |
| `DurableStores.FileEvidenceAuthorizationStore.constructor` | cico-service/src/durable-stores.ts:73-78 | a new store holds no claim |
| `DurableStores.FileEvidenceAuthorizationStore.Claim` | cico-service/src/durable-stores.ts:86-122 | granted exactly when unclaimed or claimed by the same enrollment with compatible material; the records afterwards |
| `DurableStores.ClaimIsExclusive` | cico-service/src/durable-stores.ts:80-122 | once granted, after any further claims, an authorization is granted exactly to the same enrollment with the same material |
| `DurableStores.ClaimDecides` | cico-service/src/durable-stores.ts:86-122 | exactly when a claim is granted, and every record afterwards |
| `DurableStores.HexRoundTrip` | cico-service/src/durable-stores.ts:439-445 | decoding undoes encoding for every byte sequence |
| `DurableStores.HexTextRoundTrip` | cico-service/src/durable-stores.ts:439-445 | encoding undoes decoding for every lower-case hexadecimal text of even length |
| `DurableStores.IssuanceRoundTrip` | cico-service/src/durable-stores.ts:391-437 | a serialised result decodes to itself and parses; every record that parses is the encoding of what it decodes to |
| `DurableStores.PutThenGet` | cico-service/src/durable-stores.ts:183-216 | what was put is found again unchanged, and other enrollments find what they found before |
| `DurableStores.PutDecides` | cico-service/src/durable-stores.ts:190-216 | which puts store, keep, conflict or are refused, against what a lookup finds |
| `DurableStores.FileCredentialIssuanceStore.constructor` | cico-service/src/durable-stores.ts:176-181 | a new journal is empty |
| `DurableStores.FileCredentialIssuanceStore.Get` | cico-service/src/durable-stores.ts:183-188 | the decoded record of the enrollment, if any; an empty id is refused |
| `DurableStores.FileCredentialIssuanceStore.Put` | cico-service/src/durable-stores.ts:190-216 | stores a new record, accepts an identical one, refuses any other; no record is ever overwritten |
| `Issuance.NextKeepsInv` | cico-service/src/credential-issuer-service.ts:74-181 | every step of the issuer, crashes and half-failed writes included, keeps the invariant |
| `Issuance.OneEnrollmentPerAuthorization` | cico-service/src/credential-issuer-service.ts:124-139 | over every run with restarts, one evidence authorization reaches `addCredential` for one enrollment and one material |
| `Issuance.JournaledIsNeverAddedAgain` | cico-service/src/credential-issuer-service.ts:104-115 | once an enrollment is journaled no continuation adds it again |
| `Issuance.AnswersNeverChange` | cico-service/src/credential-issuer-service.ts:74-171 | an issued answer agrees with every later answer and journal for its enrollment, across restarts |
| `Issuance.ReplaysAnswerFromJournal` | cico-service/src/credential-issuer-service.ts:104-115 | from any state in which an enrollment is journaled, across crashes, every later answer for it is the journaled result, for the journaled material only, or a conflict; an error only after a failure of the service |
| `IssuanceAnswers.ReplayIsAnswered` | cico-service/src/credential-issuer-service.ts:74-115 | from any state in which an enrollment is journaled, a request after a restart is answered with the journaled credential exactly if its material is the journaled one, and with a conflict otherwise, without claiming, adding or storing anything |
| `IssuanceAnswers.OwnReplaysAreIssued` | cico-service/src/credential-issuer-service.ts:74-115 | across any crashes, while no other material is presented and the service does not fail, every answer to a journaled request is its journaled credential |
| `IssuanceAnswers.OthersAreNeverIssued` | cico-service/src/credential-issuer-service.ts:74-115 | across any continuation, other material is never issued a journaled enrollment |
| `IssuanceAnswers.FirstIssueIsAnswered` | cico-service/src/credential-issuer-service.ts:74-171 | from any state, after a restart, a request that may be added and is authorized is answered with its credential, and that is what is journaled |
| `IssuanceAnswers.OnlyAuthorizedAreAdded` | cico-service/src/credential-issuer-service.ts:116-139 | over every run each credential added had its evidence validated in an earlier step and carries the full-length blind drawn then |
| `IssuanceAnswers.OnlyGenuineAreJournaled` | cico-service/src/credential-issuer-service.ts:140-169 | over every run whatever is journaled is a confirmed addCredential on the configured registry |
| `IssuanceAnswers.IssueDecides` | cico-service/src/credential-issuer-service.ts:74-89 | a request joins the operation in flight for the same material, is refused for other material, or queues one operation |
| `IssuanceAnswers.DeliveryDecides` | cico-service/src/credential-issuer-service.ts:90-97 | a caller gets its operation's outcome; anything but an issued one is forgotten by its starter |
| `IssuanceAnswers.ClaimDecides` | cico-service/src/credential-issuer-service.ts:124-136 | exactly when a running issuance gets its authorization |
| `Issuance.CredentialsAccounted` | cico-service/src/credential-issuer-service.ts:137-170 | every `addCredential` call was journaled, was lost to a failure or crash, or is in flight; without losses an enrollment is added at most once |
| `Issuance.LostResultIsAddedTwice` | cico-service/src/credential-issuer-service.ts:138-168 | from any state, a crash after `addCredential` lets every claimable request be added a second time, with any blind |
| `Issuance.AddedAgainIffNotJournaled` | cico-service/src/credential-issuer-service.ts:104-168 | in any state of any run, some continuation adds an added enrollment again if and only if it is not journaled |
| `EpochFreeze.ReconcileFrozen` | cico-service/src/credential-epoch-coordinator.ts:154-176 | at most the configured reads; the first frozen or failing read decides, and success pins root and count |
| `EpochFreeze.DriveIsReconciled` | cico-service/src/credential-epoch-coordinator.ts:141-152 | the interleaved reads of a close return exactly what the loop returns |
| `EpochFreeze.NextKeepsInv` | cico-service/src/credential-epoch-coordinator.ts:114-202 | every step of the coordinator keeps the invariant |
| `EpochFreeze.FreezeEndsEnrollment` | cico-service/src/credential-epoch-coordinator.ts:114-152 | over any crashes and restarts, if reads never go back, no enrollment mutation runs after `closeAndFreeze` has returned, nor since the snapshot it was coordinated on |
| `EpochFreeze.ReferencePinsCoordinatedRoot` | cico-service/src/credential-epoch-coordinator.ts:124-169 | a returned reference is a frozen read of the configured registry with the root and count of a snapshot that was the latest when `freeze` was called for its root, earlier in the history |
| `EpochFreeze.EmptyEpochNeverFrozen` | cico-service/src/credential-epoch-coordinator.ts:136-141 | `freeze` is only called for the root just read from an open epoch with a credential |
| `EpochFreeze.EnrollmentDecides` | cico-service/src/credential-epoch-coordinator.ts:114-122 | an enrollment is let through exactly on a read of the configured, open epoch |
| `EpochFreeze.CloseDecides` | cico-service/src/credential-epoch-coordinator.ts:124-141 | which reads make a close return at once, go on to freeze, or end |
| `EpochFreeze.ReceiptDecides` | cico-service/src/credential-epoch-coordinator.ts:141-143 | a freeze is followed up exactly on a confirmed freeze receipt of this registry |
| `EpochFreeze.TurnsPass` | cico-service/src/credential-epoch-coordinator.ts:114-152 | a turn ends with its mutation or any failure, without a call, and passes to the next operation in the queue |
| `EpochFreeze.ReconciledIff` | cico-service/src/credential-epoch-coordinator.ts:154-176 | reconciliation succeeds with a snapshot if and only if it is the first frozen read within the attempts, all reads before it answered, and it pins root and count |
| `EpochFreeze.CloseReturns` | cico-service/src/credential-epoch-coordinator.ts:124-152 | from any such state, a close on an open epoch with credentials freezes it and returns |
| `EpochFreeze.ReadsAreBounded` | cico-service/src/credential-epoch-coordinator.ts:114-176 | an enrollment reads once, a close at most once plus the configured attempts |
| `MrzDates.BirthdaysCounted` | ui/src/integration/mrz.ts:128-134 | at least n years have passed exactly when the n-th birthday has come |
| `MrzDates.YearIsInferred` | ui/src/integration/mrz.ts:110-120 | a birth year is the latest not after the current one with those digits; an expiry year the earliest of this century or later at most 50 years past |
| `MrzDates.ExpansionIsCalendar` | ui/src/integration/mrz.ts:99-126 | six digits expand exactly when they name a calendar day of the inferred year, and to that day |
| `MrzDates.MonthLengths` | ui/src/integration/mrz.ts:122-124 | the calendar is the Gregorian one |
| `MrzDates.TwoIsDecimal` | ui/src/integration/mrz.ts:105-107 | two characters are read as the decimal number they write, and only digits are |
| `MrzDates.BirthInFuture` | ui/src/integration/mrz.ts:110-120 | an expanded birth date lies ahead exactly when it is of the current year with month and day still to come, or its inferred year is below 100 |
| `MrzDates.BirthInFutureHappens` | ui/src/integration/mrz.ts:110-126 | a concrete such date |
| `Mrz.ComputeCheckDigit` | ui/src/integration/mrz.ts:57-69 | the loop computes the 7-3-1 weighted sum modulo 10, or nothing if a character has no value |
| `Mrz.SubstitutionDetected` | ui/src/integration/mrz.ts:57-69 | in a field of any length one substitution keeps the digit exactly when the values agree modulo 10 |
| `Mrz.TranspositionDetected` | ui/src/integration/mrz.ts:57-69 | a swap of neighbours keeps the digit exactly when their values agree modulo 5 |
| `Mrz.MisreadsThatPass` | ui/src/integration/mrz.ts:149-204 | on normalised lines, exactly which one-character misreads of an accepted document are still accepted, on both lines |
| `Mrz.MisreadIsReported` | ui/src/integration/mrz.ts:149-204 | every other one-character misread is refused, and with which reason |
| `Mrz.SwapsThatPass` | ui/src/integration/mrz.ts:149-204 | for every pair of neighbours of both lines, across field boundaries and check digits too, exactly when their swap in an accepted document is still accepted |
| `Mrz.SpecimenAccepted` | ui/src/integration/mrz.ts:149-204 | a concrete second line is accepted under every passport first line |
| `Mrz.PrintedIsReadBack` | ui/src/integration/mrz.ts:149-216 | whatever document is printed with its check digits is read back field by field |
| `Mrz.AcceptedIsPrinted` | ui/src/integration/mrz.ts:149-216 | every accepted pair of lines with left-justified fields is the print of the document it is read as |
| `Mrz.AcceptedHasEligibility` | ui/src/integration/mrz.ts:218-231 | an accepted document has an eligibility: its nationality as the country, adult from the adultAge-th birthday on, expired after the first instant of the expiry day |
| `ActionLock.StepKeepsInv` | api/src/passport-v2/midnight-civic-action-adapter.ts:107-136 | every cast, start, finish and settlement keeps the lock invariant |
| `ActionLock.LockIsFairAndExclusive` | api/src/passport-v2/midnight-civic-action-adapter.ts:320-338 | per private state one action runs at a time, in arrival order, and the tail map holds the key exactly while an action is unfinished |
| `ActionLock.WaitersMakeProgress` | api/src/passport-v2/midnight-civic-action-adapter.ts:320-338 | while an action waits, one on its key runs or is free to start, whatever earlier actions did |
| `ActionLock.ConcurrentVotesRunOnce` | api/src/passport-v2/midnight-civic-action-adapter.ts:107-136 | while a vote is unfinished no second action is started for it: the same vote joins, another conflicts |
| `ActionLock.PendingIffUnsettled` | api/src/passport-v2/midnight-civic-action-adapter.ts:107-136 | over every run a vote is pending from the cast that started it until its own settlement, and no longer |
| `ActionLock.CastDecides` | api/src/passport-v2/midnight-civic-action-adapter.ts:107-136 | the whole effect of a cast: one new waiting action with its own choice, or, with an unsettled vote, none and a join or a conflict |
| `ActionLock.WhatCanHappen` | api/src/passport-v2/midnight-civic-action-adapter.ts:320-338 | in every reachable state an action can begin exactly when all earlier ones on its private state are done |
| `Manifest.AcceptedRootsHaveProvenance` | api/src/passport-v2/deployment-manifest.ts:650-722 | every accepted root beyond the initial one has a publish step on the referendum and a separate attest step for it on the registry |
| `Manifest.RootAcceptedIff` | api/src/passport-v2/deployment-manifest.ts:683-720 | a root is accepted exactly when the first step that published it has that provenance |
| `Manifest.ProvenanceInFields` | api/src/passport-v2/deployment-manifest.ts:650-722 | the provenance check, both ways, in the recorded fields: addresses, steps, status, contract, root and transactions |
| `Manifest.EarlierStepHidesProvenance` | api/src/passport-v2/deployment-manifest.ts:683-705 | a root with provenance is refused as soon as an earlier publish step for it names no attestation |
| `Manifest.CollectReceipts` | api/src/passport-v2/deployment-manifest.ts:776-810 | succeeds exactly when each of the four lifecycle steps carries its genuine confirmed receipt |
| `Manifest.ReceiptsInFields` | api/src/passport-v2/deployment-manifest.ts:776-810 | what counts as the receipt of each milestone: the first step of its name, confirmed, a vote by that circuit on this contract and network |
| `Manifest.SameContractIff` | api/src/passport-v2/deployment-manifest.ts:1061-1063 | addresses are compared but for a leading 0x and the case of letters |
| `Manifest.HexDigits` | api/src/passport-v2/deployment-manifest.ts:1051-1055 | an address is 64 hexadecimal digits of either case, with or without a prefix |
| `Manifest.TransactionsDistinct` | api/src/passport-v2/deployment-manifest.ts:811-817 | passes exactly when the transactions are pairwise different |
| `Manifest.CheckObservations` | api/src/passport-v2/deployment-manifest.ts:831-843 | passes exactly when no available observation is blank and no two are of one transaction |
| `Manifest.CheckBinding` | api/src/passport-v2/deployment-manifest.ts:844-860 | passes exactly when one available observation of the stage exists and it is bound to the receipt and the indexer |
| `Manifest.CheckLifecycle` | api/src/passport-v2/deployment-manifest.ts:776-860 | the five loops together accept exactly the proven lifecycles |
| `Manifest.MilestonesHaveOwnEvidence` | api/src/passport-v2/deployment-manifest.ts:765-860 | each milestone has its own transaction, one step, and exactly one available observation of it in the whole transcript |
| `ForbiddenKeys.NoForbiddenKeys` | relayer/src/v2-service.ts:478-494 | the scan passes exactly when no path into the value, at any depth, ends at a forbidden key |
| `ForbiddenKeys.ScanFields` | relayer/src/v2-service.ts:486-492 | the inner loop passes exactly when no member has a forbidden key, and keeps every child that could hold one |

## Left out

- The relay service, the issuer, the epoch coordinator and the vote lock are transition systems on values, not classes: their awaits interleave, and promise queues (`enqueueWallet`, `mutate`, `exclusive`, `enqueue`) are modelled as the order they produce.
- The relay runs as one process at a time over its store, and the publisher as one process whose cycles do not overlap, as `exclusive` orders them.
- Receipts and hexadecimal codecs appear once per package, on that package's own text type, as in the sources.
- Issuance: one issuer process at a time; two processes over one journal could both add before either journals.
- Timestamps of jobs and steps, explorer links and the ISO text of block times.
- HTTP routes, headers, CORS and fetch clients; of request parsing only the shape of the fields is modelled (`RelayProtocol.WellShaped`), not the allow-lists, the transaction validator and the length limits, so there is always a request that is new to the table.
- SHA-256, HMAC and base64: digests are symbolic and collision-free; a capability token is its decoded payload with its wire text.
- Numbers in JSON stand for the numerals JavaScript prints; number printing itself is not modelled.
- File locks, stale-lock recovery and atomic file replacement: each store update is one step, and the file-backed relay store is not modelled separately from the in-memory one.
- The UNIQUE constraint of PostgreSQL on the reservation id: reservation ids are fresh identifiers.
- RelayPostgres.BothAdaptersAdmit: which of several matching rows PostgreSQL selects is left open, as in the code.
- Liveness: that timers fire, that the wallet or the indexer answers, that refused jobs are retried with success, and that a root reaches every target.
- `start` may be called at any time in the model, which includes every use the server makes of it.
- EpochFreeze.FreezeEndsEnrollment: rests on reads that never go back, also across restarts, an assumption about the indexer; a mutation is counted when it is let through, so one that a crashed process had already sent is not followed further; the derivation of the registry binding from the address is taken to succeed.
- Negative clock years in MRZ date expansion.
- Normalisation and splitting of MRZ input, names and document code on line 1, and the manual form.
- The other checks of a complete manifest (services, hashes, relay evidence, digest, endpoints, DUST) and of an incomplete one.
- ForbiddenKeys.NoForbiddenKeys: which keys are forbidden is a parameter, so case folding of keys is not modelled.
- Wallet SDK, proof providers, generated contracts and ledger readers: arbitrary behaviour within their signatures.
- User interface, camera, liveness detection, configuration and readiness summaries.
