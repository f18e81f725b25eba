/** Safety of the relay over every run: interleavings of clients, timers, wallet work, indexer answers,
    store failures, crashes and restarts. */
module RelaySafety {
  import opened Wrappers
  import opened JsText
  import opened RelayTypes
  import opened RelayTable
  import opened RelayJobs
  import opened RelayProtocol

  // --------------------------------------------------------------- invariant

  /** Every consumed capability has the durable job that its token names. */
  predicate CapabilitiesOwned(jobs: Jobs, caps: Capabilities)
  {
    forall d | d in caps ::
      && d.CapabilityDigest? && d.token.claims.actionId in jobs
      && jobs[d.token.claims.actionId].capabilityDigest == d
      && caps[d] == Reservation(d, d.token.claims, d.token.expiresAt)
  }

  predicate BalancedBefore(log: seq<Effect>, n: nat, id: Text, finalized: Text)
  {
    exists k :: 0 <= k < n && k < |log| && log[k] == Balanced(id, finalized)
  }

  predicate NoBalance(log: seq<Effect>, id: Text) { forall i | 0 <= i < |log| :: !(log[i].Balance? && log[i].id == id) }

  predicate NoSubmit(log: seq<Effect>, id: Text) { forall i | 0 <= i < |log| :: !(log[i].Submit? && log[i].id == id) }

  /** Wallet calls are made on journaled bytes, after the journal says so. */
  predicate EffectOk(jobs: Jobs, log: seq<Effect>, i: nat)
    requires i < |log|
  {
    && log[i].id in jobs
    && var j := jobs[log[i].id];
    && (log[i].Balance? ==> TxDigest(log[i].unbound) == j.txDigest && DustReserved in j.transitions)
    && (log[i].Submit? ==> Submitted in j.transitions && BalancedBefore(log, i, log[i].id, log[i].finalized))
  }

  predicate EffectsOk(jobs: Jobs, log: seq<Effect>)
  {
    forall i {:trigger EffectOk(jobs, log, i)} | 0 <= i < |log| :: EffectOk(jobs, log, i)
  }

  predicate CalledOnce(log: seq<Effect>)
  {
    forall i, j | 0 <= i < j < |log| && log[i].id == log[j].id ::
      !(log[i].Submit? && log[j].Submit?) && !(log[i].Balance? && log[j].Balance?)
  }

  predicate BytesOk(jobs: Jobs, transient: map<Text, Bytes>)
  {
    forall id | id in transient :: id in jobs && TxDigest(transient[id].unbound) == jobs[id].txDigest
  }

  predicate Snapshot(jobs: Jobs, j: Job)
  {
    j.id in jobs && SameIdentity(j, jobs[j.id])
  }

  predicate Admitted(jobs: Jobs, req: Request, token: Token, job: Job, created: bool)
  {
    && Parsed(req) && token.claims == ClaimsFor(req)
    && Snapshot(jobs, job) && job.requestHash == RequestHashOf(req)
    && (created ==> job.capabilityDigest == CapabilityDigest(token))
  }

  predicate TaskOk(jobs: Jobs, t: Task)
  {
    match t
    case Admitting(req, token) => Parsed(req) && token.claims == ClaimsFor(req)
    case KeyChecking(req, token, job, created) => Admitted(jobs, req, token, job, created)
    case Consuming(req, token, job, created) => Admitted(jobs, req, token, job, created)
    case Attaching(req, token, job, created) => Admitted(jobs, req, token, job, created)
    case Resolving(job) => Snapshot(jobs, job) && job.transactionId.Some? && jobs[job.id].transactionId == job.transactionId
    case Confirming(id, r) => id in jobs && jobs[id].transactionId.Some? && Answers(r, JobQuery(jobs[id])) && Sanitize(r).Some?
    case Rejecting(id, _) => id in jobs && jobs[id].transactionId.Some?
    case _ => true
  }

  predicate TasksOk(jobs: Jobs, tasks: map<nat, Task>)
  {
    forall t {:trigger TaskOk(jobs, tasks[t])} | t in tasks :: TaskOk(jobs, tasks[t])
  }

  /** The job is where the stage left it, or something else has ended it. */
  predicate Standing(j: Job, s: Status) { j.status == s || Terminal(j.status) }

  predicate StandingWith(j: Job, s: Status, txId: Option<Text>)
  {
    (j.status == s && j.transactionId == txId) || Terminal(j.status)
  }

  predicate StageOk(jobs: Jobs, log: seq<Effect>, w: Stage)
  {
    match w
    case Validating(id, u) => id in jobs && TxDigest(u) == jobs[id].txDigest
    case Reserving(id, u) => id in jobs && TxDigest(u) == jobs[id].txDigest
    case Reserved(id, u) =>
      id in jobs && TxDigest(u) == jobs[id].txDigest && Standing(jobs[id], DustReserved)
      && DustReserved in jobs[id].transitions && NoBalance(log, id)
    case Balancing(id, u) => id in jobs && TxDigest(u) == jobs[id].txDigest && Standing(jobs[id], DustReserved)
    case BalanceFailed(id) => id in jobs && Standing(jobs[id], DustReserved)
    case Finalizing(id, f, d) =>
      id in jobs && Standing(jobs[id], DustReserved) && NonEmptyId(d) && BalancedBefore(log, |log|, id, f)
    case Intending(id, f, d) =>
      id in jobs && StandingWith(jobs[id], Finalized, d) && NonEmptyId(d) && BalancedBefore(log, |log|, id, f)
    case Intended(id, f, d) =>
      id in jobs && StandingWith(jobs[id], Submitted, d) && NonEmptyId(d) && BalancedBefore(log, |log|, id, f)
      && Submitted in jobs[id].transitions && NoSubmit(log, id)
    case Submitting(id, f, d) => id in jobs && StandingWith(jobs[id], Submitted, d) && NonEmptyId(d)
    case Settling(id, d, s) =>
      id in jobs && StandingWith(jobs[id], Submitted, d)
      && (s.Pending? ==> s.transactionId != [] && (d.Some? ==> d.value == s.transactionId))
    case _ => true
  }

  predicate Inv(s: State)
  {
    && GoodJobs(s.jobs)
    && CapabilitiesOwned(s.jobs, s.caps)
    && EffectsOk(s.jobs, s.log) && CalledOnce(s.log)
    && BytesOk(s.jobs, s.transient)
    && TasksOk(s.jobs, s.tasks)
    && (s.stage.Some? ==> StageOk(s.jobs, s.log, s.stage.value))
  }

  // --------------------------------------------------- what growth preserves

  lemma EffectsPersist(jobs: Jobs, jobs': Jobs, log: seq<Effect>)
    requires Extends(jobs, jobs') && EffectsOk(jobs, log)
    ensures EffectsOk(jobs', log)
  {
    forall i | 0 <= i < |log| ensures EffectOk(jobs', log, i) {
      assert EffectOk(jobs, log, i);
      var a, b := jobs[log[i].id], jobs'[log[i].id];
      assert Grows(a, b);
      assert forall k | 0 <= k < |a.transitions| :: b.transitions[k] == a.transitions[k];
    }
  }

  lemma TaskPersists(jobs: Jobs, jobs': Jobs, t: Task)
    requires Extends(jobs, jobs') && TaskOk(jobs, t)
    ensures TaskOk(jobs', t)
  {
    forall id | id in jobs ensures Grows(jobs[id], jobs'[id]) {}
  }

  lemma RestPersists(jobs: Jobs, jobs': Jobs, s: State)
    requires Inv(s) && jobs == s.jobs && Extends(jobs, jobs')
    ensures CapabilitiesOwned(jobs', s.caps) && EffectsOk(jobs', s.log) && BytesOk(jobs', s.transient) && TasksOk(jobs', s.tasks)
  {
    EffectsPersist(jobs, jobs', s.log);
    forall t | t in s.tasks ensures TaskOk(jobs', s.tasks[t]) {
      assert TaskOk(jobs, s.tasks[t]);
      TaskPersists(jobs, jobs', s.tasks[t]);
    }
    forall id | id in jobs ensures id in jobs' && SameIdentity(jobs[id], jobs'[id]) { assert Grows(jobs[id], jobs'[id]); }
  }

  /** A change made by anyone but the wallet stage: rows stay, or end without touching the transaction id. */
  predicate Aside(jobs: Jobs, jobs': Jobs)
  {
    && Extends(jobs, jobs')
    && forall id | id in jobs :: jobs'[id] == jobs[id] || (Terminal(jobs'[id].status) && jobs'[id].transactionId == jobs[id].transactionId)
  }

  lemma StageUndisturbed(jobs: Jobs, jobs': Jobs, log: seq<Effect>, w: Stage)
    requires Aside(jobs, jobs') && StageOk(jobs, log, w)
    ensures StageOk(jobs', log, w)
  {
    var id := w.id;
    if id in jobs {
      assert Grows(jobs[id], jobs'[id]);
      assert forall k | 0 <= k < |jobs[id].transitions| :: jobs'[id].transitions[k] == jobs[id].transitions[k];
    }
  }

  lemma EndingTouchesOneRow(jobs: Jobs, id: Text, c: Call)
    requires c.Replayed? || c.Confirm? || c.RejectByIndexer? || c.Recover?
    ensures forall k | k in jobs :: k in Do(jobs, id, c)
              && (Do(jobs, id, c)[k] == jobs[k] || (Terminal(Do(jobs, id, c)[k].status) && Do(jobs, id, c)[k].transactionId == jobs[k].transactionId))
  {
  }

  /** The calls that `accept`, `reconcile` and `start` make only ever end a job. */
  lemma EndingCallIsAside(jobs: Jobs, id: Text, c: Call)
    requires GoodJobs(jobs) && (c.Replayed? || c.Confirm? || c.RejectByIndexer? || c.Recover?)
    requires id in jobs && jobs[id].status in Expected(c) ==> Justified(jobs[id], c)
    ensures GoodJobs(Do(jobs, id, c)) && Aside(jobs, Do(jobs, id, c))
  {
    MoveKeepsJobs(jobs, id, c);
    EndingTouchesOneRow(jobs, id, c);
  }

  lemma EndingCallKeepsInv(s: State, id: Text, c: Call, s': State)
    requires Inv(s) && (c.Replayed? || c.Confirm? || c.RejectByIndexer? || c.Recover?)
    requires id in s.jobs && s.jobs[id].status in Expected(c) ==> Justified(s.jobs[id], c)
    requires s' == s.(jobs := Do(s.jobs, id, c), tasks := s'.tasks)
    requires forall t | t in s'.tasks :: (t in s.tasks && s'.tasks[t] == s.tasks[t]) || s'.tasks[t].Recovering?
    ensures Inv(s')
  {
    EndingCallIsAside(s.jobs, id, c);
    RestPersists(s.jobs, s'.jobs, s);
    if s.stage.Some? { StageUndisturbed(s.jobs, s'.jobs, s.log, s.stage.value); }
  }

  // ------------------------------------------------------------------ accept

  lemma InputIsBound(req: Request, token: Token)
    requires Parsed(req) && token.claims == ClaimsFor(req)
    ensures BoundInput(InputOf(req, token))
  {
  }

  lemma AdmitKeepsInv(s: State, e: Event, s': State)
    requires Inv(s) && e.Admit? && TaskStep(s, e, s')
    ensures Inv(s')
  {
    var a := s.tasks[e.t];
    assert TaskOk(s.jobs, a);
    var n := InputOf(a.req, a.token);
    InputIsBound(a.req, a.token);
    AdmitKeepsJobs(s.jobs, n, e.out, s'.jobs);
    assert Aside(s.jobs, s'.jobs);
    RestPersists(s.jobs, s'.jobs, s);
    if s.stage.Some? { StageUndisturbed(s.jobs, s'.jobs, s.log, s.stage.value); }
    if !e.out.Conflict? {
      assert Admitted(s'.jobs, a.req, a.token, e.out.job, e.out.Created?);
    }
  }

  /** A capability is consumed only for a job that carries its digest. */
  lemma ConsumeKeepsOwned(jobs: Jobs, caps: Capabilities, req: Request, token: Token, job: Job, created: bool)
    requires Keyed(jobs) && CapabilitiesOwned(jobs, caps) && Admitted(jobs, req, token, job, created)
    requires job.capabilityDigest == CapabilityDigest(token)
    ensures CapabilitiesOwned(jobs, Consume(caps, ReservationOf(req, token)).1)
  {
    assert Lawful(jobs[job.id]);
    assert token.claims.actionId == job.id && jobs[job.id].capabilityDigest == CapabilityDigest(token);
  }

  lemma TaskChangeKeepsInv(s: State, t: nat, next: Task, caps: Capabilities)
    requires Inv(s) && TaskOk(s.jobs, next) && CapabilitiesOwned(s.jobs, caps)
    ensures Inv(s.(caps := caps, tasks := s.tasks[t := next]))
  {
  }

  lemma TaskEndKeepsInv(s: State, t: nat)
    requires Inv(s)
    ensures Inv(s.(tasks := s.tasks - {t}))
  {
  }

  lemma ConsumeKeepsInv(s: State, e: Event, s': State)
    requires Inv(s) && e.ConsumeCapability? && TaskStep(s, e, s')
    ensures Inv(s')
  {
    var a := s.tasks[e.t];
    assert TaskOk(s.jobs, a);
    var next := Attaching(a.req, a.token, a.job, a.created);
    if a.created || a.job.capabilityDigest == CapabilityDigest(a.token) {
      ConsumeKeepsOwned(s.jobs, s.caps, a.req, a.token, a.job, a.created);
      TaskChangeKeepsInv(s, e.t, next, Consume(s.caps, ReservationOf(a.req, a.token)).1);
      TaskChangeKeepsInv(s, e.t, Refusing(a.job.id), s.caps);
    } else {
      TaskChangeKeepsInv(s, e.t, next, s.caps);
    }
  }

  /** A request that hashes like the job carries the job's own transaction. */
  lemma SameHashSameBytes(jobs: Jobs, req: Request, job: Job)
    requires Keyed(jobs) && Snapshot(jobs, job) && Parsed(req) && job.requestHash == RequestHashOf(req)
    ensures TxDigest(req.tx) == jobs[job.id].txDigest
  {
    assert Lawful(jobs[job.id]);
    assert Bound(jobs[job.id]);
  }

  lemma AttachedKeepsBytes(s: State, req: Request, job: Job, created: bool)
    requires BytesOk(s.jobs, s.transient) && job.id in s.jobs && TxDigest(req.tx) == s.jobs[job.id].txDigest
    ensures var r := Attached(s, req, job, created);
            && r == s.(transient := r.transient, running := r.running, queue := r.queue)
            && BytesOk(s.jobs, r.transient)
  {
  }

  lemma AttachKeepsInv(s: State, e: Event, s': State)
    requires Inv(s) && e.Attach? && TaskStep(s, e, s')
    ensures Inv(s')
  {
    var a := s.tasks[e.t];
    assert TaskOk(s.jobs, a);
    SameHashSameBytes(s.jobs, a.req, a.job);
    AttachedKeepsBytes(s, a.req, a.job, a.created);
  }

  lemma TaskStepKeepsInv(s: State, e: Event, s': State)
    requires Inv(s) && IsTaskEvent(e) && TaskStep(s, e, s')
    ensures Inv(s')
  {
    match e
    case Accept(_, _, _, _, _) =>
    case Admit(_, _) => AdmitKeepsInv(s, e, s');
    case CheckKey(t) => assert TaskOk(s.jobs, s.tasks[t]);
    case ConsumeCapability(_) => ConsumeKeepsInv(s, e, s');
    case Refuse(t) => EndingCallKeepsInv(s, s.tasks[t].id, Replayed, s');
    case Attach(_) => AttachKeepsInv(s, e, s');
  }

  // ------------------------------------------------------ reconcile and start

  lemma AskKeepsInv(s: State, e: Event, s': State)
    requires Inv(s) && e.AskIndexer? && BackgroundStep(s, e, s')
    ensures Inv(s')
  {
    var job := s.tasks[e.t].job;
    assert TaskOk(s.jobs, s.tasks[e.t]);
    if Resolve(e.answer, JobQuery(job)).Resolved? {
      ResolvedReceiptIsTrue(e.answer, JobQuery(job));
      assert JobQuery(job) == JobQuery(s.jobs[job.id]);
    }
  }

  lemma ReceiptKeepsInv(s: State, e: Event, s': State)
    requires Inv(s) && e.CommitReceipt? && BackgroundStep(s, e, s')
    ensures Inv(s')
  {
    assert TaskOk(s.jobs, s.tasks[e.t]);
    EndingCallKeepsInv(s, s.tasks[e.t].id, Confirm(s.tasks[e.t].receipt), s');
  }

  lemma RecoverCallKeepsInv(s: State, t: nat, rest: seq<Job>, s': State)
    requires Inv(s) && rest != [] && s' == s.(tasks := s.tasks[t := Recovering(rest[1..])], jobs := Do(s.jobs, rest[0].id, Recover))
    ensures Inv(s')
  {
    EndingCallKeepsInv(s, rest[0].id, Recover, s');
  }

  lemma RecoverKeepsInv(s: State, e: Event, s': State)
    requires Inv(s) && e.RecoverNext? && BackgroundStep(s, e, s')
    ensures Inv(s')
  {
    var rest := s.tasks[e.t].rest;
    if rest == [] { TaskEndKeepsInv(s, e.t); }
    else if LeftToReconcile(rest[0]) { TaskChangeKeepsInv(s, e.t, Recovering(rest[1..]), s.caps); }
    else { RecoverCallKeepsInv(s, e.t, rest, s'); }
  }

  lemma BackgroundStepKeepsInv(s: State, e: Event, s': State)
    requires IsBackgroundEvent(e)
    requires Inv(s) && BackgroundStep(s, e, s')
    ensures Inv(s')
  {
    if e.AskIndexer? {
      AskKeepsInv(s, e, s');
    } else if e.CommitReceipt? {
      ReceiptKeepsInv(s, e, s');
    } else if e.CommitRejection? {
      EndingCallKeepsInv(s, s.tasks[e.t].id, RejectByIndexer(s.tasks[e.t].code), s');
    } else if e.RecoverNext? {
      RecoverKeepsInv(s, e, s');
    }
  }

  // ------------------------------------------------------------ wallet stage

  lemma StageCallKeepsRest(s: State, id: Text, c: Call)
    requires Inv(s) && (id in s.jobs && s.jobs[id].status in Expected(c) ==> Justified(s.jobs[id], c))
    ensures var jobs' := Do(s.jobs, id, c);
            && GoodJobs(jobs') && CapabilitiesOwned(jobs', s.caps) && EffectsOk(jobs', s.log)
            && BytesOk(jobs', s.transient) && TasksOk(jobs', s.tasks)
            && (id in s.jobs ==> id in jobs' && Grows(s.jobs[id], jobs'[id]))
  {
    MoveKeepsJobs(s.jobs, id, c);
    RestPersists(s.jobs, Do(s.jobs, id, c), s);
  }

  lemma ReserveKeepsInv(s: State, e: Event, s': State)
    requires Inv(s) && e.ReserveLease? && WalletStep(s, e, s')
    ensures Inv(s')
  {
    var w := s.stage.value;
    ReserveKeepsJobs(s.jobs, w.id, e.reservationId);
    RestPersists(s.jobs, s'.jobs, s);
    if ReserveDust(s.jobs, w.id, e.reservationId).0.Some? {
      var j := s.jobs[w.id];
      assert Lawful(j);
      NotYet(j.transitions, DustReserved);
      forall i | 0 <= i < |s.log| ensures !(s.log[i].Balance? && s.log[i].id == w.id) { assert EffectOk(s.jobs, s.log, i); }
      assert WithLease(j, e.reservationId).transitions[|j.transitions|] == DustReserved;
    }
  }

  lemma IntentKeepsInv(s: State, e: Event, s': State)
    requires Inv(s) && e.CommitIntent? && WalletStep(s, e, s')
    ensures Inv(s')
  {
    var w := s.stage.value;
    if Hits(s.jobs, w.id, Intend) { IntendedStands(s.jobs, s.log, w); }
    StageCallKeepsInv(s, w.id, Intend, s'.stage.value, s');
  }

  lemma IntendedStands(jobs: Jobs, log: seq<Effect>, w: Stage)
    requires GoodJobs(jobs) && EffectsOk(jobs, log) && w.Intending? && StageOk(jobs, log, w) && Hits(jobs, w.id, Intend)
    ensures StageOk(Do(jobs, w.id, Intend), log, Intended(w.id, w.finalized, w.derivedId))
  {
    NothingSubmittedYet(jobs, log, w.id);
    IntentIsJournaled(jobs, w.id);
  }

  lemma NothingSubmittedYet(jobs: Jobs, log: seq<Effect>, id: Text)
    requires GoodJobs(jobs) && EffectsOk(jobs, log) && Hits(jobs, id, Intend)
    ensures NoSubmit(log, id)
  {
    var j := jobs[id];
    assert Lawful(j);
    NotYet(j.transitions, Submitted);
    forall i | 0 <= i < |log| ensures !(log[i].Submit? && log[i].id == id) { assert EffectOk(jobs, log, i); }
  }

  lemma IntentIsJournaled(jobs: Jobs, id: Text)
    requires Hits(jobs, id, Intend)
    ensures var j := Do(jobs, id, Intend)[id];
            j.status == Submitted && Submitted in j.transitions && j.transactionId == jobs[id].transactionId
  {
    var j := Do(jobs, id, Intend)[id];
    assert j.transitions == jobs[id].transitions + [Submitted];
    assert j.transitions[|jobs[id].transitions|] == Submitted;
  }

  /** Appending one effect keeps the log in order when the new one is in order. */
  lemma LogKeepsInv(jobs: Jobs, log: seq<Effect>, x: Effect)
    requires EffectsOk(jobs, log) && CalledOnce(log) && EffectOk(jobs, log + [x], |log|)
    requires x.Submit? ==> NoSubmit(log, x.id)
    requires x.Balance? ==> NoBalance(log, x.id)
    ensures EffectsOk(jobs, log + [x]) && CalledOnce(log + [x])
  {
    var log' := log + [x];
    forall i | 0 <= i < |log'| ensures EffectOk(jobs, log', i) {
      if i < |log| {
        assert EffectOk(jobs, log, i);
        if log[i].Submit? {
          var k :| 0 <= k < i && log[k] == Balanced(log[i].id, log[i].finalized);
          assert log'[k] == log[k];
        }
      }
    }
  }

  lemma CallBalanceKeepsInv(s: State, e: Event, s': State)
    requires Inv(s) && e.CallBalance? && WalletStep(s, e, s')
    ensures Inv(s')
  {
    var w := s.stage.value;
    LogKeepsInv(s.jobs, s.log, Balance(w.id, w.unbound));
  }

  lemma BalanceReturnsKeepsInv(s: State, e: Event, s': State)
    requires Inv(s) && e.BalanceReturns? && WalletStep(s, e, s')
    ensures Inv(s')
  {
    var w := s.stage.value;
    if e.outcome.Some? { BalancedKeepsInv(s, w, e.outcome.value.0, s'); }
  }

  lemma BalancedKeepsInv(s: State, w: Stage, finalized: Text, s': State)
    requires Inv(s) && s.stage == Some(w) && w.Balancing? && s'.stage.Some? && s'.stage.value.Finalizing?
    requires s'.stage.value.id == w.id && s'.stage.value.finalized == finalized && NonEmptyId(s'.stage.value.derivedId)
    requires s' == s.(transient := s.transient[w.id := Bytes(w.unbound, Some(finalized))], log := s.log + [Balanced(w.id, finalized)], stage := s'.stage)
    ensures Inv(s')
  {
    LogKeepsInv(s.jobs, s.log, Balanced(w.id, finalized));
    BalancedLast(s.log, w.id, finalized);
  }

  lemma BalancedLast(log: seq<Effect>, id: Text, finalized: Text)
    ensures BalancedBefore(log + [Balanced(id, finalized)], |log| + 1, id, finalized)
  {
    assert (log + [Balanced(id, finalized)])[|log|] == Balanced(id, finalized);
  }

  lemma SubmitKeepsInv(s: State, e: Event, s': State)
    requires Inv(s) && (e.CallSubmit? || e.SubmitReturns?) && WalletStep(s, e, s')
    ensures Inv(s')
  {
    var w := s.stage.value;
    if e.CallSubmit? {
      var x := Submit(w.id, w.finalized);
      var k :| 0 <= k < |s.log| && s.log[k] == Balanced(w.id, w.finalized);
      assert (s.log + [x])[k] == s.log[k] && (s.log + [x])[|s.log|] == x;
      LogKeepsInv(s.jobs, s.log, x);
    } else {
      assert Blank([]);
    }
  }

  lemma StageCallKeepsInv(s: State, id: Text, c: Call, w: Stage, s': State)
    requires Inv(s) && (id in s.jobs && s.jobs[id].status in Expected(c) ==> Justified(s.jobs[id], c))
    requires s' == s.(jobs := Do(s.jobs, id, c), stage := Some(w)) && StageOk(s'.jobs, s.log, w)
    ensures Inv(s')
  {
    StageCallKeepsRest(s, id, c);
  }

  lemma ValidateKeepsInv(s: State, e: Event, s': State)
    requires Inv(s) && e.CommitValidated? && WalletStep(s, e, s')
    ensures Inv(s')
  {
    StageCallKeepsInv(s, s.stage.value.id, Validate, s'.stage.value, s');
  }

  lemma FinalizeKeepsInv(s: State, e: Event, s': State)
    requires Inv(s) && e.CommitFinalized? && WalletStep(s, e, s')
    ensures Inv(s')
  {
    var w := s.stage.value;
    FinalizedStands(s.jobs, s.log, w);
    StageCallKeepsInv(s, w.id, Finalize(w.derivedId), s'.stage.value, s');
  }

  lemma FinalizedStands(jobs: Jobs, log: seq<Effect>, w: Stage)
    requires Keyed(jobs) && w.Finalizing? && StageOk(jobs, log, w)
    ensures StageOk(Do(jobs, w.id, Finalize(w.derivedId)), log, Intending(w.id, w.finalized, w.derivedId))
  {
    assert Lawful(jobs[w.id]);
  }

  lemma FailureKeepsInv(s: State, e: Event, s': State)
    requires Inv(s) && e.CommitBalanceFailure? && WalletStep(s, e, s')
    ensures Inv(s')
  {
    StageCallKeepsInv(s, s.stage.value.id, RejectTransaction, Ended(s.stage.value.id), s');
  }

  lemma SettlementKeepsInv(s: State, e: Event, s': State)
    requires Inv(s) && e.CommitSettlement? && WalletStep(s, e, s')
    ensures Inv(s')
  {
    StageCallKeepsInv(s, s.stage.value.id, Settle(s.stage.value.settlement), Ended(s.stage.value.id), s');
  }

  lemma QuietStageKeepsInv(s: State, e: Event, s': State)
    requires Inv(s) && (e.ReadStage? || e.TakeBytes? || e.ScheduleRetry?) && WalletStep(s, e, s')
    ensures Inv(s')
  {
  }

  lemma WalletStepKeepsInv(s: State, e: Event, s': State)
    requires IsWalletEvent(e)
    requires Inv(s) && WalletStep(s, e, s')
    ensures Inv(s')
  {
    var w := s.stage.value;
    if e.CommitValidated? {
      ValidateKeepsInv(s, e, s');
    } else if e.CommitFinalized? {
      FinalizeKeepsInv(s, e, s');
    } else if e.CommitBalanceFailure? {
      FailureKeepsInv(s, e, s');
    } else if e.CommitSettlement? {
      SettlementKeepsInv(s, e, s');
    } else if e.ReserveLease? {
      ReserveKeepsInv(s, e, s');
    } else if e.CommitIntent? {
      IntentKeepsInv(s, e, s');
    } else if e.CallBalance? {
      CallBalanceKeepsInv(s, e, s');
    } else if e.BalanceReturns? {
      BalanceReturnsKeepsInv(s, e, s');
    } else if e.CallSubmit? || e.SubmitReturns? {
      SubmitKeepsInv(s, e, s');
    } else {
      QuietStageKeepsInv(s, e, s');
    }
  }

  // -------------------------------------------------------------- every step

  lemma ControlStepKeepsInv(s: State, e: Event, s': State)
    requires IsControlEvent(e)
    requires Inv(s) && ControlStep(s, e, s')
    ensures Inv(s')
  {
  }

  lemma StepKeepsInv(s: State, e: Event, s': State)
    requires Inv(s) && Step(s, e, s')
    ensures Inv(s')
  {
    if IsTaskEvent(e) {
      TaskStepKeepsInv(s, e, s');
    } else if IsBackgroundEvent(e) {
      BackgroundStepKeepsInv(s, e, s');
    } else if IsControlEvent(e) {
      ControlStepKeepsInv(s, e, s');
    } else {
      WalletStepKeepsInv(s, e, s');
    }
  }
}
