/** How a relayed action ends, and on what evidence: each end of a job is traced back, in every run, to the client,
    wallet or indexer event that the code demands for it (relayer/src/v2-service.ts:105-268, 281-359). */
module RelayOutcomes {
  import opened Wrappers
  import opened JsText
  import opened RelayTypes
  import opened RelayTable
  import opened RelayJobs
  import opened RelayProtocol
  import opened RelaySafety
  import opened RelayTheorems

  // ----------------------------------------------------- how stages come about

  /** The stage carries what the wallet returned from balancing. */
  predicate Carries(w: Stage) { w.Finalizing? || w.Intending? || w.Intended? || w.Submitting? || w.Settling? }

  function Derived(w: Stage): Option<Text>
    requires Carries(w)
  {
    match w
    case Finalizing(_, _, d) => d
    case Intending(_, _, d) => d
    case Intended(_, _, d) => d
    case Submitting(_, _, d) => d
    case Settling(_, d, _) => d
  }

  /** A stage that carries the wallet's answer has it from the stage before or from the answer itself. */
  predicate StageFollows(s: State, e: Event, s': State)
  {
    s'.stage.Some? && s'.stage != s.stage ==>
      var w := s'.stage.value;
      && (Carries(w) && !w.Finalizing? ==> s.stage.Some? && Carries(s.stage.value) && s.stage.value.id == w.id && Derived(s.stage.value) == Derived(w))
      && (w.Finalizing? ==> && s.stage.Some? && s.stage.value.Balancing? && s.stage.value.id == w.id && e.BalanceReturns? && e.outcome.Some?
                            && e.outcome.value.0 == w.finalized && w.derivedId == if e.outcome.value.1 == Some([]) then None else e.outcome.value.1)
      && (w.Settling? ==> && s.stage.value.Submitting? && e.SubmitReturns? && w.settlement == SettlementOf(w.derivedId, e.response))
      && (w.BalanceFailed? ==> s.stage.Some? && s.stage.value.Balancing? && s.stage.value.id == w.id && e == BalanceReturns(None))
  }

  lemma WalletStageFollows(s: State, e: Event, s': State)
    requires IsWalletEvent(e) && WalletStep(s, e, s')
    ensures StageFollows(s, e, s')
  {
  }

  lemma OthersKeepStage(s: State, e: Event, s': State)
    requires (IsTaskEvent(e) && TaskStep(s, e, s')) || (IsBackgroundEvent(e) && BackgroundStep(s, e, s'))
    ensures s'.stage == s.stage
  {
  }

  lemma ControlStageFollows(s: State, e: Event, s': State)
    requires IsControlEvent(e) && ControlStep(s, e, s')
    ensures StageFollows(s, e, s')
  {
  }

  lemma StageFollowsAt(h: History, k: nat)
    requires IsRun(h) && k < |h.events|
    ensures StageFollows(h.states[k], h.events[k], h.states[k + 1])
  {
    var s, e, s' := h.states[k], h.events[k], h.states[k + 1];
    assert Step(s, e, s');
    if IsTaskEvent(e) || IsBackgroundEvent(e) { OthersKeepStage(s, e, s'); }
    else if IsControlEvent(e) { ControlStageFollows(s, e, s'); }
    else { WalletStageFollows(s, e, s'); }
  }

  /** Step b is the wallet's answer to the balancing of this job. */
  predicate BalancedAt(h: History, b: nat, id: Text, derivedId: Option<Text>)
  {
    && b < |h.events| && b < |h.states| && h.events[b].BalanceReturns? && h.events[b].outcome.Some?
    && h.states[b].stage.Some? && h.states[b].stage.value.Balancing? && h.states[b].stage.value.id == id
    && derivedId == (if h.events[b].outcome.value.1 == Some([]) then None else h.events[b].outcome.value.1)
  }

  /** Step m is the node's answer, or its loss, to the submission of this job. */
  predicate AnsweredAt(h: History, m: nat, id: Text, derivedId: Option<Text>, answer: Option<Text>)
  {
    && m < |h.events| && m < |h.states| && h.events[m] == SubmitReturns(answer)
    && h.states[m].stage.Some? && h.states[m].stage.value.Submitting? && h.states[m].stage.value.id == id && h.states[m].stage.value.derivedId == derivedId
  }

  lemma {:induction false} CarriedSince(h: History, k: nat) returns (b: nat)
    requires IsRun(h) && k < |h.states| && h.states[k].stage.Some? && Carries(h.states[k].stage.value)
    ensures b < k && BalancedAt(h, b, h.states[k].stage.value.id, Derived(h.states[k].stage.value))
    decreases k
  {
    assert Init(h.states[0]);
    StageFollowsAt(h, k - 1);
    if h.states[k - 1].stage == h.states[k].stage || !h.states[k].stage.value.Finalizing? {
      b := CarriedSince(h, k - 1);
    } else {
      b := k - 1;
    }
  }

  lemma {:induction false} SettlingSince(h: History, k: nat) returns (m: nat, answer: Option<Text>)
    requires IsRun(h) && k < |h.states| && h.states[k].stage.Some? && h.states[k].stage.value.Settling?
    ensures var w := h.states[k].stage.value;
            m < k && AnsweredAt(h, m, w.id, w.derivedId, answer) && w.settlement == SettlementOf(w.derivedId, answer)
    ensures forall j | m < j <= k :: h.states[j].stage == h.states[k].stage
    decreases k
  {
    assert Init(h.states[0]);
    StageFollowsAt(h, k - 1);
    if h.states[k - 1].stage == h.states[k].stage {
      m, answer := SettlingSince(h, k - 1);
    } else {
      m, answer := k - 1, h.events[k - 1].response;
    }
  }

  // --------------------------------------------------- the end of a submission

  /** Where the settlement of a submission leaves its job, by the id that the wallet derived and the node's answer. */
  predicate EndsAs(j: Job, derivedId: Option<Text>, answer: Option<Text>)
  {
    if answer.None? && derivedId.Some? then j.status.IndexerPending? && j.transactionId == derivedId && j.errorCode.None?
    else if answer.None? then j.status.RecoveryRequired? && j.transactionId.None? && j.errorCode == Some(SubmissionUnknown)
    else if derivedId.Some? && derivedId != answer then j.status.Failed? && j.transactionId == derivedId && j.errorCode == Some(SubmissionIdMismatch)
    else j.status.IndexerPending? && j.transactionId == answer && j.errorCode.None?
  }

  lemma SettledRow(jobs: Jobs, id: Text, derivedId: Option<Text>, answer: Option<Text>)
    requires Keyed(jobs) && id in jobs && jobs[id].status.Submitted? && jobs[id].transactionId == derivedId
    ensures id in Do(jobs, id, Settle(SettlementOf(derivedId, answer))) && EndsAs(Do(jobs, id, Settle(SettlementOf(derivedId, answer)))[id], derivedId, answer)
  {
    assert Lawful(jobs[id]);
  }

  lemma SettlementStep(h: History, k: nat)
    requires IsRun(h) && k < |h.events| && h.events[k].CommitSettlement?
    ensures h.states[k].stage.Some? && h.states[k].stage.value.Settling?
    ensures var w := h.states[k].stage.value;
            && w.id in h.states[k].jobs && Keyed(h.states[k].jobs)
            && (h.states[k].jobs[w.id].status.Submitted? ==> h.states[k].jobs[w.id].transactionId == w.derivedId)
            && h.states[k + 1].jobs == Do(h.states[k].jobs, w.id, Settle(w.settlement))
  {
    assert Step(h.states[k], h.events[k], h.states[k + 1]);
    InvAlways(h, k);
  }

  lemma MissedCall(jobs: Jobs, id: Text, c: Call)
    requires id in jobs && jobs[id].status !in Expected(c)
    ensures Do(jobs, id, c) == jobs
  {
  }

  /** A submission that is settled ends by what the node answered and by what the wallet had derived: a lost answer
      never loses a derived id, and only a contradicting answer fails the job. */
  lemma SettlementEnds(h: History, k: nat) returns (b: nat, m: nat, derivedId: Option<Text>, answer: Option<Text>)
    requires IsRun(h) && k < |h.events| && h.events[k].CommitSettlement?
    ensures h.states[k].stage.Some? && b < m < k
    ensures BalancedAt(h, b, h.states[k].stage.value.id, derivedId) && AnsweredAt(h, m, h.states[k].stage.value.id, derivedId, answer)
    ensures var id := h.states[k].stage.value.id;
            && id in h.states[k].jobs
            && (h.states[k].jobs[id].status.Submitted? ==> id in h.states[k + 1].jobs && EndsAs(h.states[k + 1].jobs[id], derivedId, answer))
            && (!h.states[k].jobs[id].status.Submitted? ==> h.states[k + 1].jobs == h.states[k].jobs)
  {
    SettlementStep(h, k);
    var w := h.states[k].stage.value;
    m, answer := SettlingSince(h, k);
    b := CarriedSince(h, m);
    derivedId := w.derivedId;
    if h.states[k].jobs[w.id].status.Submitted? { SettledRow(h.states[k].jobs, w.id, derivedId, answer); }
    else { MissedCall(h.states[k].jobs, w.id, Settle(w.settlement)); }
  }

  // ------------------------------------------------- the other wallet outcomes

  /** A balancing that fails ends its job as rejected, unless something else ended it. */
  lemma BalanceFailureEnds(h: History, k: nat)
    requires IsRun(h) && k < |h.events| && h.events[k].CommitBalanceFailure?
    ensures h.states[k].stage.Some? && h.states[k].stage.value.id in h.states[k].jobs
    ensures var id := h.states[k].stage.value.id; var j, jobs' := h.states[k].jobs[id], h.states[k + 1].jobs;
            if j.status.DustReserved? then id in jobs' && jobs'[id].status.Failed? && jobs'[id].errorCode == Some(TransactionRejected) && jobs'[id].transactionId.None?
            else jobs' == h.states[k].jobs
  {
    assert Step(h.states[k], h.events[k], h.states[k + 1]);
    InvAlways(h, k);
    assert Lawful(h.states[k].jobs[h.states[k].stage.value.id]);
  }

  lemma FinalizeStep(h: History, k: nat)
    requires IsRun(h) && k < |h.events| && h.events[k].CommitFinalized?
    ensures h.states[k].stage.Some? && h.states[k].stage.value.Finalizing?
    ensures var w := h.states[k].stage.value;
            w.id in h.states[k].jobs && Keyed(h.states[k].jobs) && h.states[k + 1].jobs == Do(h.states[k].jobs, w.id, Finalize(w.derivedId))
  {
    assert Step(h.states[k], h.events[k], h.states[k + 1]);
    InvAlways(h, k);
  }

  lemma FinalizedRow(jobs: Jobs, id: Text, derivedId: Option<Text>)
    requires Keyed(jobs) && id in jobs && jobs[id].status.DustReserved?
    ensures var jobs' := Do(jobs, id, Finalize(derivedId)); id in jobs' && jobs'[id].status.Finalized? && jobs'[id].transactionId == derivedId
  {
    assert Lawful(jobs[id]);
  }

  /** A balancing that succeeds journals the id that the wallet derived. */
  lemma DerivedIdIsJournaled(h: History, k: nat) returns (b: nat, derivedId: Option<Text>)
    requires IsRun(h) && k < |h.events| && h.events[k].CommitFinalized?
    ensures h.states[k].stage.Some? && b < k && BalancedAt(h, b, h.states[k].stage.value.id, derivedId)
    ensures h.states[k].stage.value.id in h.states[k].jobs
    ensures var id := h.states[k].stage.value.id; var j, jobs' := h.states[k].jobs[id], h.states[k + 1].jobs;
            if j.status.DustReserved? then id in jobs' && jobs'[id].status.Finalized? && jobs'[id].transactionId == derivedId
            else jobs' == h.states[k].jobs
  {
    FinalizeStep(h, k);
    var w := h.states[k].stage.value;
    b := CarriedSince(h, k);
    derivedId := w.derivedId;
    if h.states[k].jobs[w.id].status.DustReserved? { FinalizedRow(h.states[k].jobs, w.id, derivedId); }
    else { MissedCall(h.states[k].jobs, w.id, Finalize(derivedId)); }
  }

  lemma IntentRow(jobs: Jobs, id: Text)
    requires Keyed(jobs) && id in jobs && jobs[id].status.Finalized?
    ensures Hits(jobs, id, Intend)
    ensures var jobs' := Do(jobs, id, Intend); id in jobs' && jobs'[id].status.Submitted? && jobs'[id].transactionId == jobs[id].transactionId
  {
    assert Lawful(jobs[id]);
  }

  /** A finalized job gets its intent journaled and is then submitted; any other is left alone, and not submitted. */
  lemma IntentGoesOn(h: History, k: nat)
    requires IsRun(h) && k < |h.events| && h.events[k].CommitIntent?
    ensures h.states[k].stage.Some? && h.states[k].stage.value.id in h.states[k].jobs && h.states[k + 1].stage.Some?
    ensures var id := h.states[k].stage.value.id; var j, jobs' := h.states[k].jobs[id], h.states[k + 1].jobs;
            if j.status.Finalized?
            then h.states[k + 1].stage.value.Intended? && id in jobs' && jobs'[id].status.Submitted? && jobs'[id].transactionId == j.transactionId
            else h.states[k + 1].stage.value.Ended? && jobs' == h.states[k].jobs
  {
    assert Step(h.states[k], h.events[k], h.states[k + 1]);
    assert Keyed(h.states[k].jobs) && h.states[k].stage.value.id in h.states[k].jobs by { InvAlways(h, k); }
    var id := h.states[k].stage.value.id;
    if h.states[k].jobs[id].status.Finalized? { IntentRow(h.states[k].jobs, id); } else { MissedCall(h.states[k].jobs, id, Intend); }
  }

  // -------------------------------------------------- answers of the indexer

  /** Step m is this answer of the indexer to the lookup of the job, made by task t. */
  predicate LookedUpAt(h: History, m: nat, t: nat, id: Text, a: IndexerAnswer)
  {
    && m < |h.events| && m < |h.states| && h.events[m] == AskIndexer(t, a) && t in h.states[m].tasks && h.states[m].tasks[t].Resolving?
    && h.states[m].tasks[t].job.id == id && id in h.states[m].jobs && h.states[m].jobs[id].transactionId.Some?
  }

  /** A task about to write a verdict has it from the indexer. */
  predicate VerdictFollows(s: State, e: Event, s': State, t: nat)
  {
    t in s'.tasks && (s'.tasks[t].Rejecting? || s'.tasks[t].Confirming?) && !(t in s.tasks && s.tasks[t] == s'.tasks[t]) ==>
      && e.AskIndexer? && e.t == t && t in s.tasks && s.tasks[t].Resolving? && s.tasks[t].job.transactionId.Some? && s.tasks[t].job.id == s'.tasks[t].id
      && (if s'.tasks[t].Rejecting? then Resolve(e.answer, JobQuery(s.tasks[t].job)) == Rejected(s'.tasks[t].code)
          else Resolve(e.answer, JobQuery(s.tasks[t].job)) == Resolved(s'.tasks[t].receipt))
  }

  lemma TaskVerdictFollows(s: State, e: Event, s': State, t: nat)
    requires IsTaskEvent(e) && TaskStep(s, e, s')
    ensures VerdictFollows(s, e, s', t)
  {
  }

  lemma BackgroundVerdictFollows(s: State, e: Event, s': State, t: nat)
    requires IsBackgroundEvent(e) && BackgroundStep(s, e, s')
    ensures VerdictFollows(s, e, s', t)
  {
  }

  lemma OtherTasksStay(s: State, e: Event, s': State, t: nat)
    requires (IsControlEvent(e) && ControlStep(s, e, s')) || (IsWalletEvent(e) && WalletStep(s, e, s'))
    ensures t in s'.tasks ==> t in s.tasks && s.tasks[t] == s'.tasks[t]
  {
  }

  lemma VerdictFollowsAt(h: History, k: nat, t: nat)
    requires IsRun(h) && k < |h.events|
    ensures VerdictFollows(h.states[k], h.events[k], h.states[k + 1], t)
  {
    var s, e, s' := h.states[k], h.events[k], h.states[k + 1];
    assert Step(s, e, s');
    if IsTaskEvent(e) { TaskVerdictFollows(s, e, s', t); }
    else if IsBackgroundEvent(e) { BackgroundVerdictFollows(s, e, s', t); }
    else { OtherTasksStay(s, e, s', t); }
  }

  lemma LookupIsTheJobs(h: History, m: nat, t: nat)
    requires IsRun(h) && m < |h.states| && t in h.states[m].tasks && h.states[m].tasks[t].Resolving?
    ensures var j := h.states[m].tasks[t].job;
            j.transactionId.Some? && j.id in h.states[m].jobs && h.states[m].jobs[j.id].transactionId.Some? && JobQuery(h.states[m].jobs[j.id]) == JobQuery(j)
  {
    InvAlways(h, m);
    assert TaskOk(h.states[m].jobs, h.states[m].tasks[t]);
  }

  lemma {:induction false} VerdictSince(h: History, k: nat, t: nat) returns (m: nat, a: IndexerAnswer)
    requires IsRun(h) && k < |h.states| && t in h.states[k].tasks && (h.states[k].tasks[t].Rejecting? || h.states[k].tasks[t].Confirming?)
    ensures m < k && LookedUpAt(h, m, t, h.states[k].tasks[t].id, a)
    ensures var q := JobQuery(h.states[m].jobs[h.states[k].tasks[t].id]);
            if h.states[k].tasks[t].Rejecting? then Resolve(a, q) == Rejected(h.states[k].tasks[t].code) else Resolve(a, q) == Resolved(h.states[k].tasks[t].receipt)
    decreases k
  {
    assert Init(h.states[0]);
    VerdictFollowsAt(h, k - 1, t);
    if t in h.states[k - 1].tasks && h.states[k - 1].tasks[t] == h.states[k].tasks[t] {
      m, a := VerdictSince(h, k - 1, t);
    } else {
      m, a := k - 1, h.events[k - 1].answer;
      LookupIsTheJobs(h, m, t);
    }
  }

  lemma TransactionIdStays(h: History, m: nat, k: nat, id: Text)
    requires IsRun(h) && m <= k < |h.states| && id in h.states[m].jobs && h.states[m].jobs[id].transactionId.Some?
    ensures id in h.states[k].jobs && h.states[k].jobs[id].transactionId == h.states[m].jobs[id].transactionId
    ensures SameIdentity(h.states[m].jobs[id], h.states[k].jobs[id])
  {
    HistoryOnlyGrows(h, m, k);
    assert Grows(h.states[m].jobs[id], h.states[k].jobs[id]);
  }

  predicate Carrying(s: State, id: Text, code: ErrorCode) { id in s.jobs && s.jobs[id].errorCode == Some(code) }

  lemma CodeIsWritten(jobs: Jobs, ch: Change, jobs': Jobs, id: Text, code: ErrorCode)
    requires Changed(jobs, ch, jobs') && id in jobs' && jobs'[id].errorCode == Some(code) && !(id in jobs && jobs[id].errorCode == Some(code))
    ensures ch.Move? && ch.id == id && Failure(ch.call) == Some(code)
    ensures id in jobs && jobs[id].status in Expected(ch.call)
  {
  }

  lemma CodeWrittenAt(h: History, n: nat, id: Text, code: ErrorCode) returns (ch: Change)
    requires IsRun(h) && n < |h.events| && Carrying(h.states[n + 1], id, code) && !Carrying(h.states[n], id, code)
    ensures ch == ChangeOf(h.states[n], h.events[n]) && Caused(h.states[n], ch) && ch.Move? && ch.id == id && Failure(ch.call) == Some(code)
    ensures id in h.states[n].jobs && h.states[n].jobs[id].status in Expected(ch.call) && h.states[n + 1].jobs == Do(h.states[n].jobs, id, ch.call)
  {
    ch := ChangeAt(h, n);
    CodeIsWritten(h.states[n].jobs, ch, h.states[n + 1].jobs, id, code);
  }

  /** Step k gives the job this error. */
  lemma {:induction false} CodeSince(h: History, k: nat, id: Text, code: ErrorCode) returns (n: nat, ch: Change)
    requires IsRun(h) && k < |h.states| && Carrying(h.states[k], id, code)
    ensures n < k && ch == ChangeOf(h.states[n], h.events[n]) && Caused(h.states[n], ch) && ch.Move? && ch.id == id && Failure(ch.call) == Some(code)
    ensures id in h.states[n].jobs && h.states[n].jobs[id].status in Expected(ch.call) && h.states[n + 1].jobs == Do(h.states[n].jobs, id, ch.call)
    decreases k
  {
    assert Init(h.states[0]);
    if Carrying(h.states[k - 1], id, code) {
      n, ch := CodeSince(h, k - 1, id, code);
    } else {
      n := k - 1;
      ch := CodeWrittenAt(h, n, id, code);
    }
  }

  /** A verdict of the indexer comes from a lookup of the job's own transaction. */
  lemma RejectionSince(h: History, k: nat, id: Text, code: ErrorCode) returns (m: nat, t: nat, a: IndexerAnswer)
    requires IsRun(h) && k < |h.states| && Carrying(h.states[k], id, code) && (code.IndexerRejected? || code.IndexerContractMismatch?)
    ensures m < k && LookedUpAt(h, m, t, id, a) && h.states[k].jobs[id].transactionId.Some?
    ensures Resolve(a, JobQuery(h.states[k].jobs[id])) == Rejected(code)
  {
    var n, ch := CodeSince(h, k, id, code);
    t :| t in h.states[n].tasks && h.states[n].tasks[t] == Rejecting(id, code);
    m, a := VerdictSince(h, n, t);
    TransactionIdStays(h, m, k, id);
  }

  /** A job fails as rejected only on an indexed transaction with the job's own id that did not succeed, and as
      mismatched only on a successful one that does not touch the job's contract. A transaction that is not indexed
      yet, a timeout or an outage never fails a job. */
  lemma RejectionHasEvidence(h: History, k: nat, id: Text, code: ErrorCode) returns (m: nat, t: nat, tx: IndexedTransaction)
    requires IsRun(h) && k < |h.states| && Carrying(h.states[k], id, code) && (code.IndexerRejected? || code.IndexerContractMismatch?)
    ensures m < k && h.events[m] == AskIndexer(t, Found(tx)) && h.states[k].jobs[id].transactionId.Some?
    ensures h.states[k].jobs[id].transactionId.value in tx.identifiers
    ensures if code.IndexerRejected? then tx.status != U("SUCCESS") else tx.status == U("SUCCESS") && h.states[k].jobs[id].contractAddress !in tx.contracts
  {
    var a;
    m, t, a := RejectionSince(h, k, id, code);
    AnswersDecide(a, JobQuery(h.states[k].jobs[id]));
    tx := a.tx;
  }

  lemma ReceiptIsWritten(jobs: Jobs, ch: Change, jobs': Jobs, id: Text, r: Receipt)
    requires Changed(jobs, ch, jobs') && id in jobs' && jobs'[id].receipt == Some(r) && !(id in jobs && jobs[id].receipt == Some(r))
    ensures ch == Move(id, Confirm(r))
  {
  }

  /** Step n confirms the job with this receipt. */
  lemma {:induction false} ReceiptSince(h: History, k: nat, id: Text, r: Receipt) returns (n: nat)
    requires IsRun(h) && k < |h.states| && id in h.states[k].jobs && h.states[k].jobs[id].receipt == Some(r)
    ensures n < k && Caused(h.states[n], Move(id, Confirm(r)))
    decreases k
  {
    assert Init(h.states[0]);
    if id in h.states[k - 1].jobs && h.states[k - 1].jobs[id].receipt == Some(r) {
      n := ReceiptSince(h, k - 1, id, r);
    } else {
      n := k - 1;
      var ch := ChangeAt(h, n);
      ReceiptIsWritten(h.states[n].jobs, ch, h.states[k].jobs, id, r);
    }
  }

  lemma ConfirmationSince(h: History, k: nat, id: Text) returns (m: nat, t: nat, a: IndexerAnswer)
    requires IsRun(h) && k < |h.states| && id in h.states[k].jobs && h.states[k].jobs[id].receipt.Some?
    ensures m < k && LookedUpAt(h, m, t, id, a) && h.states[k].jobs[id].transactionId.Some?
    ensures Resolve(a, JobQuery(h.states[k].jobs[id])) == Resolved(h.states[k].jobs[id].receipt.value)
  {
    var r := h.states[k].jobs[id].receipt.value;
    var n := ReceiptSince(h, k, id, r);
    t :| t in h.states[n].tasks && h.states[n].tasks[t] == Confirming(id, r);
    m, a := VerdictSince(h, n, t);
    TransactionIdStays(h, m, k, id);
  }

  /** Every receipt comes from a lookup that found the job's own transaction, successful, on the job's contract,
      and repeats its hash and block. */
  lemma ConfirmationHasEvidence(h: History, k: nat, id: Text) returns (m: nat, t: nat, tx: IndexedTransaction)
    requires IsRun(h) && k < |h.states| && id in h.states[k].jobs && h.states[k].jobs[id].status.Confirmed?
    ensures m < k && h.events[m] == AskIndexer(t, Found(tx)) && h.states[k].jobs[id].transactionId.Some? && h.states[k].jobs[id].receipt.Some?
    ensures var j := h.states[k].jobs[id];
            var r := j.receipt.value;
            && j.transactionId.value in tx.identifiers && tx.status == U("SUCCESS") && j.contractAddress in tx.contracts
            && r.transactionHash == tx.hash && r.blockHeight == tx.blockHeight && r.blockHash == tx.blockHash
            && r.blockTimeMs == if tx.timestamp < 1000000000000 then 1000 * tx.timestamp else tx.timestamp
  {
    ReceiptTruth(h, k, id);
    var a;
    m, t, a := ConfirmationSince(h, k, id);
    AnswersDecide(a, JobQuery(h.states[k].jobs[id]));
    ReceiptRepeatsTransaction(a, JobQuery(h.states[k].jobs[id]));
    tx := a.tx;
  }

  // ------------------------------------------------------ what an error says

  predicate EndedFrom(j: Job, sts: set<Status>) { |j.transitions| >= 2 && j.transitions[|j.transitions| - 2] in sts }

  /** What each error code says of its job. */
  predicate ErrorMeans(j: Job, code: ErrorCode)
  {
    match code
    case CapabilityReplayed => j.status.Failed? && EndedFrom(j, {Authorized})
    case TransactionRejected => j.status.Failed? && EndedFrom(j, {DustReserved}) && j.transactionId.None?
    case SubmissionUnknown => j.status.RecoveryRequired? && EndedFrom(j, {Submitted}) && j.transactionId.None?
    case SubmissionIdMismatch => j.status.Failed? && EndedFrom(j, {Submitted}) && j.transactionId.Some?
    case IndexerContractMismatch => j.status.Failed? && EndedFrom(j, {Submitted, IndexerPending}) && j.transactionId.Some?
    case IndexerRejected => j.status.Failed? && EndedFrom(j, {Submitted, IndexerPending}) && j.transactionId.Some?
    case NeedsRecovery => j.status.RecoveryRequired? && EndedFrom(j, {Authorized, Validated, DustReserved, Finalized})
  }

  lemma EndedRow(jobs: Jobs, id: Text, c: Call, code: ErrorCode)
    requires Keyed(jobs) && id in jobs && jobs[id].status in Expected(c) && Failure(c) == Some(code)
    ensures id in Do(jobs, id, c)
    ensures var j := Do(jobs, id, c)[id];
            j.status == Target(c) && j.transactionId == jobs[id].transactionId && EndedFrom(j, Expected(c)) && j.errorCode == Some(code) && Terminal(j.status)
  {
    assert Lawful(jobs[id]);
    var j := Do(jobs, id, c)[id];
    assert j.transitions == jobs[id].transitions + [Target(c)];
  }

  /** A settlement that ends its job in an error was ambiguous in just that way. */
  lemma AmbiguousSettlement(h: History, n: nat, id: Text, x: Settlement)
    requires IsRun(h) && n < |h.states| && Caused(h.states[n], Move(id, Settle(x))) && id in h.states[n].jobs && h.states[n].jobs[id].status.Submitted?
    ensures x.Lost? ==> h.states[n].jobs[id].transactionId.None?
    ensures x.Mismatched? ==> h.states[n].jobs[id].transactionId.Some?
  {
    var m, answer := SettlingSince(h, n);
    assert StageOk(h.states[n].jobs, h.states[n].log, h.states[n].stage.value) by { InvAlways(h, n); }
  }

  lemma VerdictHasId(h: History, n: nat, id: Text, code: ErrorCode)
    requires IsRun(h) && n < |h.states| && Caused(h.states[n], Move(id, RejectByIndexer(code))) && id in h.states[n].jobs
    ensures h.states[n].jobs[id].transactionId.Some? && (code.IndexerRejected? || code.IndexerContractMismatch?)
  {
    var t :| t in h.states[n].tasks && h.states[n].tasks[t] == Rejecting(id, code);
    var m, a := VerdictSince(h, n, t);
    AnswersDecide(a, JobQuery(h.states[m].jobs[id]));
    TransactionIdStays(h, m, n, id);
  }

  lemma ErrorWritten(h: History, n: nat, id: Text, c: Call, code: ErrorCode)
    requires IsRun(h) && n < |h.states| && Caused(h.states[n], Move(id, c)) && Failure(c) == Some(code)
    requires id in h.states[n].jobs && h.states[n].jobs[id].status in Expected(c)
    ensures id in Do(h.states[n].jobs, id, c) && ErrorMeans(Do(h.states[n].jobs, id, c)[id], code)
  {
    assert Keyed(h.states[n].jobs) by { InvAlways(h, n); }
    EndedRow(h.states[n].jobs, id, c, code);
    assert Lawful(h.states[n].jobs[id]);
    match c
    case Settle(x) => AmbiguousSettlement(h, n, id, x);
    case RejectByIndexer(_) => VerdictHasId(h, n, id, code);
    case _ =>
  }

  lemma TerminalStays(h: History, n: nat, k: nat, id: Text)
    requires IsRun(h) && n <= k < |h.states| && id in h.states[n].jobs && Terminal(h.states[n].jobs[id].status)
    ensures id in h.states[k].jobs && h.states[k].jobs[id] == h.states[n].jobs[id]
  {
    HistoryOnlyGrows(h, n, k);
    assert Grows(h.states[n].jobs[id], h.states[k].jobs[id]);
  }

  /** In every reachable state an error code tells how its job ended, and from where; an unknown submission has no
      transaction id, and a mismatched one has. */
  lemma ErrorsMeanWhatTheySay(h: History, k: nat, id: Text, code: ErrorCode)
    requires IsRun(h) && k < |h.states| && Carrying(h.states[k], id, code)
    ensures ErrorMeans(h.states[k].jobs[id], code)
  {
    var n, ch := CodeSince(h, k, id, code);
    ErrorWritten(h, n, id, ch.call, code);
    TerminalStays(h, n + 1, k, id);
  }

  // ------------------------------------------------------- what is presented

  predicate Filled(t: Text) { exists i :: 0 <= i < |t| && !Space(t[i]) }

  /** The action that goes with each circuit. */
  predicate CircuitOf(action: Action, circuit: Text)
  {
    match action
    case Vote => circuit in {U("castVote"), U("closeVote"), U("revealVote"), U("finalizeVote")}
    case Credential => circuit in {U("addCredential"), U("freeze")}
    case Cohort => circuit == U("recordPublicCohort")
  }

  lemma FirstUnits()
    ensures U("castVote")[0] == 99 && U("closeVote")[0] == 99 && U("castVote")[1] == 97 && U("closeVote")[1] == 108 && U("finalizeVote")[0] == 102
    ensures U("finalizeVote")[1] == 105 && U("freeze")[0] == 102 && U("freeze")[1] == 114 && U("addCredential")[0] == 97
    ensures U("revealVote")[0] == 114 && U("recordPublicCohort")[0] == 114 && U("revealVote")[2] == 118 && U("recordPublicCohort")[2] == 99
  {
  }

  lemma CircuitDecides(action: Action, circuit: Text)
    ensures ActionForCircuit(circuit) == Some(action) <==> CircuitOf(action, circuit)
  {
    FirstUnits();
  }

  /** What a request must look like: every field filled, its transaction an even number of hexadecimal digits, and its
      action the one of its circuit. */
  lemma ShapeDecides(req: Request)
    ensures WellShaped(req) <==>
            && Filled(req.actionId) && Filled(req.idempotencyKey) && Filled(req.network) && Filled(req.contractAddress) && Filled(req.circuit)
            && |req.tx| >= 2 && |req.tx| % 2 == 0 && (forall i | 0 <= i < |req.tx| :: 48 <= req.tx[i] <= 57 || 97 <= req.tx[i] <= 102)
            && CircuitOf(req.action, req.circuit)
  {
    CircuitDecides(req.action, req.circuit);
  }

  // ------------------------------------------------------------- admissions

  /** Step m is an `accept` of this request under this token, found authentic and unexpired. */
  predicate AuthorizedAt(h: History, m: nat, t: nat, req: Request, token: Token, now: int)
  {
    m < |h.events| && h.events[m] == Accept(t, req, token, true, now) && now < token.expiresAt
  }

  predicate AdmittingFollows(s: State, e: Event, s': State, t: nat)
  {
    t in s'.tasks && s'.tasks[t].Admitting? && !(t in s.tasks && s.tasks[t] == s'.tasks[t]) ==>
      && e.Accept? && e.t == t && e.req == s'.tasks[t].req && e.token == s'.tasks[t].token
      && VerifyCapability(e.token, e.authentic, ClaimsFor(e.req), e.now).Some?
  }

  lemma AdmittingFollowsAt(h: History, k: nat, t: nat)
    requires IsRun(h) && k < |h.events|
    ensures AdmittingFollows(h.states[k], h.events[k], h.states[k + 1], t)
  {
    var s, e, s' := h.states[k], h.events[k], h.states[k + 1];
    assert Step(s, e, s');
    if IsTaskEvent(e) { TaskAdmittingFollows(s, e, s', t); }
    else if IsBackgroundEvent(e) { BackgroundAdmittingFollows(s, e, s', t); }
    else { OtherTasksStay(s, e, s', t); }
  }

  lemma TaskAdmittingFollows(s: State, e: Event, s': State, t: nat)
    requires IsTaskEvent(e) && TaskStep(s, e, s')
    ensures AdmittingFollows(s, e, s', t)
  {
  }

  lemma BackgroundAdmittingFollows(s: State, e: Event, s': State, t: nat)
    requires IsBackgroundEvent(e) && BackgroundStep(s, e, s')
    ensures AdmittingFollows(s, e, s', t)
  {
  }

  lemma {:induction false} AdmittingSince(h: History, k: nat, t: nat) returns (m: nat, now: int)
    requires IsRun(h) && k < |h.states| && t in h.states[k].tasks && h.states[k].tasks[t].Admitting?
    ensures m < k && AuthorizedAt(h, m, t, h.states[k].tasks[t].req, h.states[k].tasks[t].token, now)
    decreases k
  {
    assert Init(h.states[0]);
    AdmittingFollowsAt(h, k - 1, t);
    if t in h.states[k - 1].tasks && h.states[k - 1].tasks[t] == h.states[k].tasks[t] {
      m, now := AdmittingSince(h, k - 1, t);
    } else {
      m, now := k - 1, h.events[k - 1].now;
      var e := h.events[m];
      AcceptedCapability(e.token, e.authentic, e.req, e.now);
    }
  }

  lemma NewRowIsAdmitted(jobs: Jobs, ch: Change, jobs': Jobs, id: Text)
    requires Changed(jobs, ch, jobs') && id in jobs' && id !in jobs
    ensures ch.Insert? && jobs'[id] == Fresh(ch.n) && ch.n.id == id
  {
  }

  /** The job was created by an authorized `accept`: its capability is that token, and its fields are the request's. */
  predicate CreatedBy(j: Job, req: Request, token: Token)
  {
    && j.capabilityDigest == CapabilityDigest(token)
    && j.id == req.actionId && j.idempotencyKey == req.idempotencyKey && j.network == req.network && j.contractAddress == req.contractAddress
    && j.circuit == req.circuit && j.action == req.action && j.txDigest == TxDigest(req.tx)
    && token.claims == Claims(j.id, j.idempotencyKey, j.network, j.contractAddress, j.circuit, j.action, j.requestHash)
  }

  lemma CreatedFresh(req: Request, token: Token)
    requires token.claims == ClaimsFor(req)
    ensures CreatedBy(Fresh(InputOf(req, token)), req, token)
  {
  }

  lemma CreatedStays(a: Job, b: Job, req: Request, token: Token)
    requires CreatedBy(a, req, token) && SameIdentity(a, b)
    ensures CreatedBy(b, req, token)
  {
  }

  lemma AdmittingClaims(h: History, k: nat, t: nat)
    requires IsRun(h) && k < |h.states| && t in h.states[k].tasks && h.states[k].tasks[t].Admitting?
    ensures h.states[k].tasks[t].token.claims == ClaimsFor(h.states[k].tasks[t].req)
  {
    InvAlways(h, k);
    assert TaskOk(h.states[k].jobs, h.states[k].tasks[t]);
  }

  lemma IdentityStaysAt(h: History, k: nat, id: Text)
    requires IsRun(h) && k < |h.events| && id in h.states[k].jobs
    ensures id in h.states[k + 1].jobs && SameIdentity(h.states[k].jobs[id], h.states[k + 1].jobs[id])
  {
    LaterAt(h, k);
    assert Grows(h.states[k].jobs[id], h.states[k + 1].jobs[id]);
  }

  /** No forged or expired capability ever gets a job: every job in the table was created by an `accept` whose
      token was authentic, unexpired at that moment, and bound to the job's own fields. */
  lemma {:induction false} JobsAreAuthorized(h: History, k: nat, id: Text) returns (m: nat, t: nat, req: Request, token: Token, now: int)
    requires IsRun(h) && k < |h.states| && id in h.states[k].jobs
    ensures m < k && AuthorizedAt(h, m, t, req, token, now) && CreatedBy(h.states[k].jobs[id], req, token)
    decreases k
  {
    assert Init(h.states[0]);
    if id in h.states[k - 1].jobs {
      m, t, req, token, now := JobsAreAuthorized(h, k - 1, id);
      IdentityStaysAt(h, k - 1, id);
      CreatedStays(h.states[k - 1].jobs[id], h.states[k].jobs[id], req, token);
    } else {
      m, t, req, token, now := CreatorAt(h, k - 1, id);
    }
  }

  lemma CreatorAt(h: History, k: nat, id: Text) returns (m: nat, t: nat, req: Request, token: Token, now: int)
    requires IsRun(h) && k < |h.events| && id !in h.states[k].jobs && id in h.states[k + 1].jobs
    ensures m < k && AuthorizedAt(h, m, t, req, token, now) && CreatedBy(h.states[k + 1].jobs[id], req, token)
  {
    var ch := ChangeAt(h, k);
    NewRowIsAdmitted(h.states[k].jobs, ch, h.states[k + 1].jobs, id);
    t :| t in h.states[k].tasks && h.states[k].tasks[t].Admitting? && ch.n == InputOf(h.states[k].tasks[t].req, h.states[k].tasks[t].token);
    req, token := h.states[k].tasks[t].req, h.states[k].tasks[t].token;
    m, now := AdmittingSince(h, k, t);
    AdmittingClaims(h, k, t);
    CreatedFresh(req, token);
  }

  /** Nor is one ever consumed. */
  lemma ConsumedAreAuthorized(h: History, k: nat, d: Digest) returns (m: nat, t: nat, req: Request, token: Token, now: int)
    requires IsRun(h) && k < |h.states| && d in h.states[k].caps
    ensures m < k && AuthorizedAt(h, m, t, req, token, now) && d == CapabilityDigest(token)
  {
    IdentityDiscipline(h, k);
    var id :| id in h.states[k].jobs && h.states[k].jobs[id].capabilityDigest == d;
    m, t, req, token, now := JobsAreAuthorized(h, k, id);
  }

  // ------------------------------------------------- decisions along the way

  /** The key check lets an `accept` go on exactly when every job under its key has its hash and its capability. */
  lemma KeyCheckDecides(h: History, k: nat, t: nat)
    requires IsRun(h) && k < |h.events| && h.events[k] == CheckKey(t)
    ensures t in h.states[k].tasks && h.states[k].tasks[t].KeyChecking?
    ensures var a := h.states[k].tasks[t]; var jobs := h.states[k].jobs;
            && (t in h.states[k + 1].tasks <==> forall id | id in jobs && jobs[id].idempotencyKey == a.req.idempotencyKey ::
                  jobs[id].requestHash == RequestHash(Hashed(a.req)) && jobs[id].capabilityDigest == CapabilityDigest(a.token))
            && (t in h.states[k + 1].tasks ==> h.states[k + 1].tasks[t] == Consuming(a.req, a.token, a.job, a.created))
  {
    assert Step(h.states[k], h.events[k], h.states[k + 1]);
  }

  /** An `accept` ends by queueing its job exactly when it saw it authorized and no stage of it is running, and
      keeps the request's bytes for it whenever it created it or saw it authorized. */
  lemma AttachDecides(h: History, k: nat, t: nat)
    requires IsRun(h) && k < |h.events| && h.events[k] == Attach(t)
    ensures t in h.states[k].tasks && h.states[k].tasks[t].Attaching? && t !in h.states[k + 1].tasks && h.states[k + 1].jobs == h.states[k].jobs
    ensures var a, s, s' := h.states[k].tasks[t], h.states[k], h.states[k + 1];
            && s'.transient == (if a.created || a.job.status.Authorized? then s.transient[a.job.id := Bytes(a.req.tx, None)] else s.transient)
            && s'.queue == (if a.job.status.Authorized? && a.job.id !in s.running then s.queue + [a.job.id] else s.queue)
            && (a.job.status.Authorized? ==> a.job.id in s'.running)
  {
    assert Step(h.states[k], h.events[k], h.states[k + 1]);
  }

  /** `reconcile` looks up exactly the stored jobs that have a transaction id and are neither confirmed nor failed. */
  lemma ReconcileDecides(h: History, k: nat, t: nat)
    requires IsRun(h) && k < |h.events| && h.events[k] == ReadJob(t)
    ensures t in h.states[k].tasks && h.states[k].tasks[t].Reading? && h.states[k + 1].jobs == h.states[k].jobs
    ensures var id, jobs := h.states[k].tasks[t].id, h.states[k].jobs;
            && (t in h.states[k + 1].tasks <==>
                id in jobs && jobs[id].transactionId.Some? && jobs[id].transactionId.value != [] && jobs[id].status !in {Confirmed, Failed})
            && (t in h.states[k + 1].tasks ==> h.states[k + 1].tasks[t] == Resolving(jobs[id]))
  {
    assert Step(h.states[k], h.events[k], h.states[k + 1]);
  }

  /** A lookup writes nothing by itself, and leads to a verdict exactly for an indexed transaction with the job's id
      that failed, missed the contract, or makes a receipt. */
  lemma LookupDecides(h: History, k: nat, t: nat, a: IndexerAnswer)
    requires IsRun(h) && k < |h.events| && h.events[k] == AskIndexer(t, a)
    ensures t in h.states[k].tasks && h.states[k].tasks[t].Resolving? && h.states[k].tasks[t].job.transactionId.Some? && h.states[k + 1].jobs == h.states[k].jobs
    ensures var q := JobQuery(h.states[k].tasks[t].job);
            t in h.states[k + 1].tasks <==>
              a.Found? && q.transactionId in a.tx.identifiers && (a.tx.status == U("SUCCESS") && q.contractAddress in a.tx.contracts ==> Receiptable(a.tx, q))
  {
    assert Step(h.states[k], h.events[k], h.states[k + 1]);
    AnswersDecide(a, JobQuery(h.states[k].tasks[t].job));
  }

  /** The start pass leaves a submitted job with a transaction id to the indexer, ends one that was interrupted
      before its submission, and touches no other. */
  lemma StartPassDecides(h: History, k: nat, t: nat)
    requires IsRun(h) && k < |h.events| && h.events[k] == RecoverNext(t)
    ensures t in h.states[k].tasks && h.states[k].tasks[t].Recovering?
    ensures var rest, jobs, jobs' := h.states[k].tasks[t].rest, h.states[k].jobs, h.states[k + 1].jobs;
            if rest != [] && rest[0].id in jobs && jobs[rest[0].id].status in {Authorized, Validated, DustReserved, Finalized}
               && !(rest[0].status in {Submitted, IndexerPending} && rest[0].transactionId.Some? && rest[0].transactionId.value != [])
            then && rest[0].id in jobs' && jobs'[rest[0].id].status.RecoveryRequired? && jobs'[rest[0].id].errorCode == Some(NeedsRecovery)
                 && forall id | id in jobs && id != rest[0].id :: id in jobs' && jobs'[id] == jobs[id]
            else jobs' == jobs
  {
    assert Step(h.states[k], h.events[k], h.states[k + 1]);
    InvAlways(h, k);
    var rest := h.states[k].tasks[t].rest;
    if rest != [] && rest[0].id in h.states[k].jobs { assert Lawful(h.states[k].jobs[rest[0].id]); }
  }

  // ----------------------------------------------------- a whole start pass

  predicate Interrupted(jobs: Jobs, id: Text) { id in jobs && jobs[id].status in {Authorized, Validated, DustReserved, Finalized} }

  /** The start pass has still to end this job. */
  predicate InHand(task: Task, id: Text)
  {
    task.Recovering? && exists i :: 0 <= i < |task.rest| && task.rest[i].id == id && PreSubmit(task.rest[i].status)
  }

  lemma RankStays(a: Job, b: Job)
    requires Lawful(a) && Lawful(b) && Grows(a, b)
    ensures Rank(a.status) <= Rank(b.status)
  {
    if |a.transitions| < |b.transitions| { RanksRise(b.transitions, |a.transitions| - 1, |b.transitions| - 1); }
  }

  lemma StaysPast(h: History, k: nat, m: nat, id: Text)
    requires IsRun(h) && k <= m < |h.states| && id in h.states[k].jobs
    ensures id in h.states[m].jobs && (!Interrupted(h.states[k].jobs, id) ==> !Interrupted(h.states[m].jobs, id))
  {
    HistoryOnlyGrows(h, k, m);
    assert Grows(h.states[k].jobs[id], h.states[m].jobs[id]);
    InvAlways(h, k);
    InvAlways(h, m);
    RankStays(h.states[k].jobs[id], h.states[m].jobs[id]);
  }

  predicate Sweeps(s: State, t: nat) { t in s.tasks && s.tasks[t].Recovering? }

  lemma OthersKeepSweep(h: History, m: nat, t: nat)
    requires IsRun(h) && m < |h.events| && Sweeps(h.states[m], t) && Sweeps(h.states[m + 1], t) && h.events[m] != RecoverNext(t)
    ensures h.states[m + 1].tasks[t] == h.states[m].tasks[t]
  {
    var s, e, s' := h.states[m], h.events[m], h.states[m + 1];
    assert Step(s, e, s');
    if IsTaskEvent(e) { TaskKeepsSweep(s, e, s', t); }
    else if IsBackgroundEvent(e) { BackgroundKeepsSweep(s, e, s', t); }
    else if IsControlEvent(e) { assert ControlStep(s, e, s'); }
    else { assert WalletStep(s, e, s'); }
  }

  lemma TaskKeepsSweep(s: State, e: Event, s': State, t: nat)
    requires IsTaskEvent(e) && TaskStep(s, e, s') && Sweeps(s, t) && Sweeps(s', t)
    ensures s'.tasks[t] == s.tasks[t]
  {
  }

  lemma BackgroundKeepsSweep(s: State, e: Event, s': State, t: nat)
    requires IsBackgroundEvent(e) && BackgroundStep(s, e, s') && Sweeps(s, t) && Sweeps(s', t) && e != RecoverNext(t)
    ensures s'.tasks[t] == s.tasks[t]
  {
  }

  lemma SweepListed(h: History, k: nat, t: nat, listed: seq<Job>, id: Text)
    requires IsRun(h) && k < |h.events| && h.events[k] == List(t, listed) && Interrupted(h.states[k].jobs, id)
    ensures Sweeps(h.states[k + 1], t) && InHand(h.states[k + 1].tasks[t], id)
  {
    assert Step(h.states[k], h.events[k], h.states[k + 1]);
    InvAlways(h, k);
    var j := h.states[k].jobs[id];
    assert j in listed;
    var i :| 0 <= i < |listed| && listed[i] == j;
  }

  lemma SweepMoves(h: History, m: nat, t: nat, id: Text)
    requires IsRun(h) && m < |h.events| && Sweeps(h.states[m], t) && h.events[m] == RecoverNext(t)
    requires id in h.states[m].jobs && InHand(h.states[m].tasks[t], id)
    ensures Sweeps(h.states[m + 1], t) && (InHand(h.states[m + 1].tasks[t], id) || !Interrupted(h.states[m + 1].jobs, id))
  {
    assert Step(h.states[m], h.events[m], h.states[m + 1]);
    StartPassDecides(h, m, t);
    var rest := h.states[m].tasks[t].rest;
    var i :| 0 <= i < |rest| && rest[i].id == id && PreSubmit(rest[i].status);
    if i > 0 { assert rest[1..][i - 1] == rest[i]; }
  }

  /** A job that is interrupted when the start pass lists the table is ended by the pass, or still in its hands. */
  lemma {:induction false} StartPassCovers(h: History, k: nat, m: nat, t: nat, listed: seq<Job>, id: Text)
    requires IsRun(h) && k < m < |h.states| && h.events[k] == List(t, listed) && Interrupted(h.states[k].jobs, id)
    requires forall j | k < j <= m :: Sweeps(h.states[j], t)
    ensures Sweeps(h.states[m], t) && (InHand(h.states[m].tasks[t], id) || !Interrupted(h.states[m].jobs, id))
    decreases m
  {
    if m == k + 1 {
      SweepListed(h, k, t, listed, id);
    } else {
      StartPassCovers(h, k, m - 1, t, listed, id);
      StaysPast(h, k, m - 1, id);
      StaysPast(h, m - 1, m, id);
      if InHand(h.states[m - 1].tasks[t], id) {
        if h.events[m - 1] == RecoverNext(t) { SweepMoves(h, m - 1, t, id); } else { OthersKeepSweep(h, m - 1, t); }
      }
    }
  }

  /** A start pass that gets to its end has ended every job that was interrupted before its submission, whatever else
      went on meanwhile. */
  lemma StartPassEndsInterrupted(h: History, k: nat, m: nat, t: nat, listed: seq<Job>, id: Text)
    requires IsRun(h) && k < m < |h.events| && h.events[k] == List(t, listed) && Interrupted(h.states[k].jobs, id)
    requires forall j | k < j <= m :: t in h.states[j].tasks && h.states[j].tasks[t].Recovering?
    requires h.states[m].tasks[t].rest == []
    ensures id in h.states[m].jobs && h.states[m].jobs[id].status !in {Authorized, Validated, DustReserved, Finalized}
  {
    forall j | k < j <= m ensures Sweeps(h.states[j], t) { assert t in h.states[j].tasks; }
    StartPassCovers(h, k, m, t, listed, id);
    StaysPast(h, k, m, id);
  }

  // ---------------------------------------------------------- no silent ends

  /** Why a wallet stage is over: the job was not authorized when read or has no bytes, or was taken from the stage;
      it lost the request for the lease and will be run again; its failed balancing or its submission has been
      settled; or a store call failed. */
  predicate EndedFor(s: State, e: Event, s': State, w: Stage)
  {
    && (e.TakeBytes? || e.CommitValidated? || e.ScheduleRetry? || e.CommitBalanceFailure? || e.CommitIntent? || e.CommitSettlement? || e.AbortStage?)
    && (e.TakeBytes? ==> w.Read? && (!w.authorized || w.id !in s.transient))
    && (e.CommitValidated? ==> !(w.id in s.jobs && s.jobs[w.id].status.Authorized?))
    && (e.ScheduleRetry? ==> w.Refused? && s'.runTimers[w.id] == s.runTimers[w.id] + 1)
    && (e.CommitBalanceFailure? ==> w.BalanceFailed?)
    && (e.CommitIntent? ==> !(w.id in s.jobs && s.jobs[w.id].status.Finalized?))
    && (e.CommitSettlement? ==> w.Settling?)
  }

  lemma WalletStageEnds(s: State, e: Event, s': State)
    requires IsWalletEvent(e) && WalletStep(s, e, s') && Keyed(s.jobs)
    requires s.stage.Some? && !s.stage.value.Ended? && s'.stage.Some? && s'.stage.value.Ended?
    ensures EndedFor(s, e, s', s.stage.value)
  {
    var id := s.stage.value.id;
    if id in s.jobs { assert Lawful(s.jobs[id]); }
  }

  lemma ControlStageEnds(s: State, e: Event, s': State)
    requires IsControlEvent(e) && ControlStep(s, e, s')
    requires s.stage.Some? && !s.stage.value.Ended? && s'.stage.Some? && s'.stage.value.Ended?
    ensures EndedFor(s, e, s', s.stage.value)
  {
  }

  /** No stage ends silently, in any run. */
  lemma StageEndsFor(h: History, k: nat)
    requires IsRun(h) && k < |h.events| && h.states[k].stage.Some? && !h.states[k].stage.value.Ended?
    requires h.states[k + 1].stage.Some? && h.states[k + 1].stage.value.Ended?
    ensures EndedFor(h.states[k], h.events[k], h.states[k + 1], h.states[k].stage.value)
  {
    var s, e, s' := h.states[k], h.events[k], h.states[k + 1];
    assert Step(s, e, s');
    assert Keyed(s.jobs) by { InvAlways(h, k); }
    if IsTaskEvent(e) || IsBackgroundEvent(e) { OthersKeepStage(s, e, s'); }
    else if IsControlEvent(e) { ControlStageEnds(s, e, s'); }
    else { WalletStageEnds(s, e, s'); }
  }

  /** The stage sees its job as authorized exactly when it is stored so. */
  lemma ReadDecides(h: History, k: nat)
    requires IsRun(h) && k < |h.events| && h.events[k].ReadStage?
    ensures h.states[k].stage.Some? && h.states[k + 1].stage.Some? && h.states[k + 1].stage.value.Read?
    ensures var id := h.states[k].stage.value.id;
            h.states[k + 1].stage.value.authorized <==> id in h.states[k].jobs && h.states[k].jobs[id].status == Authorized
  {
    assert Step(h.states[k], h.events[k], h.states[k + 1]);
  }

  /** Bytes live in memory only as long as they are needed: none are kept past a failed balancing or an answered
      submission, and a crash forgets all. */
  lemma BytesAreDropped(h: History, k: nat)
    requires IsRun(h) && k < |h.events|
    ensures h.events[k].SubmitReturns? || h.events[k] == BalanceReturns(None) ==>
              h.states[k].stage.Some? && h.states[k + 1].transient == h.states[k].transient - {h.states[k].stage.value.id}
    ensures h.events[k].Crash? ==> h.states[k + 1].transient == map[] && h.states[k + 1].jobs == h.states[k].jobs && h.states[k + 1].caps == h.states[k].caps
  {
    assert Step(h.states[k], h.events[k], h.states[k + 1]);
  }

  /** A timer runs its job again unless it is running, and stages are served in the order in which they were queued,
      one at a time. */
  lemma TimersAndQueue(h: History, k: nat)
    requires IsRun(h) && k < |h.events|
    ensures var s, e, s' := h.states[k], h.events[k], h.states[k + 1];
            && (e.RunTimer? ==> s.runTimers[e.id] == s'.runTimers[e.id] + 1 && e.id in s'.running
                                && s'.queue == if e.id in s.running then s.queue else s.queue + [e.id])
            && (e.BeginStage? ==> s.stage.None? && s.queue != [] && s'.stage == Some(Begun(s.queue[0])) && s'.queue == s.queue[1..])
            && (s.stage.Some? && s'.stage.None? ==> e.Crash? || (e.EndStage? && s.stage.value.Ended?))
  {
    var s, e, s' := h.states[k], h.events[k], h.states[k + 1];
    assert Step(s, e, s');
    if IsTaskEvent(e) || IsBackgroundEvent(e) { OthersKeepStage(s, e, s'); }
    else if IsControlEvent(e) { assert ControlStep(s, e, s'); }
    else { assert WalletStep(s, e, s'); }
  }

  /** A job can leave the wallet stage, and so be queued again, exactly once it is neither queued nor at work. */
  lemma LeaveDecides(s: State, id: Text)
    ensures (exists s' :: Step(s, Leave(id), s')) <==> id in s.running && id !in s.queue && (s.stage.Some? ==> s.stage.value.id != id)
    ensures forall s' | Step(s, Leave(id), s') :: s' == s.(running := s'.running) && s'.running + {id} == s.running && id !in s'.running
  {
    var s' := s.(running := s.running - {id});
    if id in s.running && id !in s.queue && (s.stage.Some? ==> s.stage.value.id != id) {
      assert ControlStep(s, Leave(id), s');
      assert Step(s, Leave(id), s');
    }
  }
}
