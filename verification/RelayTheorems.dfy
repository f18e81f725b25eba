/** The promises of the relay, as statements about every run. */
module RelayTheorems {
  import opened Wrappers
  import opened JsText
  import opened RelayTypes
  import opened RelayTable
  import opened RelayJobs
  import opened RelayProtocol
  import opened RelaySafety

  // ------------------------------------------------------------ runs and Inv

  lemma StepKeepsInvAt(h: History, k: nat)
    requires IsRun(h) && k < |h.events| && Inv(h.states[k])
    ensures Inv(h.states[k + 1])
  {
    assert Step(h.states[k], h.events[k], h.states[k + 1]);
    StepKeepsInv(h.states[k], h.events[k], h.states[k + 1]);
  }

  lemma {:induction false} InvAlways(h: History, k: nat)
    requires IsRun(h) && k < |h.states|
    ensures Inv(h.states[k])
  {
    if k > 0 {
      InvAlways(h, k - 1);
      StepKeepsInvAt(h, k - 1);
    }
  }

  /** Jobs, consumed capabilities and effects are never lost, and jobs only grow. */
  predicate Later(s: State, s': State)
  {
    Extends(s.jobs, s'.jobs) && s.log <= s'.log && (forall d | d in s.caps :: d in s'.caps && s'.caps[d] == s.caps[d])
  }

  lemma LaterTransitive(a: State, b: State, c: State)
    requires Later(a, b) && Later(b, c)
    ensures Later(a, c)
  {
    ExtendsTransitive(a.jobs, b.jobs, c.jobs);
  }

  /** How a step may change the jobs table. */
  datatype Change =
    | Same
    | Insert(n: NewJob, out: CreateResult)
    | Move(id: Text, call: Call)
    | Lease(id: Text, reservationId: Text)

  ghost predicate Changed(jobs: Jobs, ch: Change, jobs': Jobs)
  {
    match ch
    case Same => jobs' == jobs
    case Insert(n, out) => Admits(jobs, n, out, jobs')
    case Move(id, c) => jobs' == Do(jobs, id, c)
    case Lease(id, r) => jobs' == ReserveDust(jobs, id, r).1
  }

  /** Who makes which change: each call has its own place in the code. */
  predicate Caused(s: State, ch: Change)
  {
    match ch
    case Same => true
    case Insert(n, _) => exists t :: t in s.tasks && s.tasks[t].Admitting? && n == InputOf(s.tasks[t].req, s.tasks[t].token)
    case Lease(id, r) => r != [] && s.stage.Some? && s.stage.value.Reserving? && s.stage.value.id == id
    case Move(id, c) =>
      (match c
       case Replayed => exists t :: t in s.tasks && s.tasks[t] == Refusing(id)
       case Recover => exists t :: t in s.tasks && s.tasks[t].Recovering? && s.tasks[t].rest != [] && s.tasks[t].rest[0].id == id
       case Confirm(r) => exists t :: t in s.tasks && s.tasks[t] == Confirming(id, r)
       case RejectByIndexer(code) => exists t :: t in s.tasks && s.tasks[t] == Rejecting(id, code)
       case Validate => s.stage.Some? && s.stage.value.Validating? && s.stage.value.id == id
       case RejectTransaction => s.stage.Some? && s.stage.value.BalanceFailed? && s.stage.value.id == id
       case Finalize(d) => s.stage.Some? && s.stage.value.Finalizing? && s.stage.value.id == id && s.stage.value.derivedId == d
       case Intend => s.stage.Some? && s.stage.value.Intending? && s.stage.value.id == id
       case Settle(x) => s.stage.Some? && s.stage.value.Settling? && s.stage.value.id == id && s.stage.value.settlement == x)
  }

  /** A step logs at most one effect, and only where the stage makes that call. */
  predicate LogMoves(s: State, s': State)
  {
    || s'.log == s.log
    || (&& s.stage.Some? && |s'.log| == |s.log| + 1 && s.log <= s'.log
        && s'.log[|s.log|].id == s.stage.value.id
        && (s.stage.value.Intended? || s.stage.value.Reserved? || s.stage.value.Balancing?)
        && (s'.log[|s.log|].Submit? ==> s.stage.value.Intended?))
  }

  /** A stage gets past the lease, to the reservation or to the submission only by winning that move. */
  ghost predicate StageMoves(s: State, s': State)
  {
    s'.stage.Some? && s'.stage != s.stage ==>
      var w := s'.stage.value;
      && (w.Intended? ==> s.stage.Some? && s.stage.value.id == w.id && Hits(s.jobs, w.id, Intend))
      && (w.Reserving? ==> s.stage.Some? && s.stage.value.id == w.id && Hits(s.jobs, w.id, Validate) && s'.jobs == Do(s.jobs, w.id, Validate))
      && (!BeforeLease(w) ==> s.stage.Some? && s.stage.value.id == w.id
                              && (!BeforeLease(s.stage.value) || exists r :: ReserveDust(s.jobs, w.id, r).0.Some?))
  }

  predicate BeforeLease(w: Stage)
  {
    w.Begun? || w.Read? || w.Validating? || w.Reserving? || w.Refused? || w.Ended?
  }

  /** The change that an event asks of the job table: every write the service makes, whether or not it hits. */
  function ChangeOf(s: State, e: Event): Change
  {
    match e
    case Admit(t, out) =>
      if t in s.tasks && s.tasks[t].Admitting? then Insert(InputOf(s.tasks[t].req, s.tasks[t].token), out) else Same
    case Refuse(t) => if t in s.tasks && s.tasks[t].Refusing? then Move(s.tasks[t].id, Replayed) else Same
    case CommitReceipt(t) => if t in s.tasks && s.tasks[t].Confirming? then Move(s.tasks[t].id, Confirm(s.tasks[t].receipt)) else Same
    case CommitRejection(t) => if t in s.tasks && s.tasks[t].Rejecting? then Move(s.tasks[t].id, RejectByIndexer(s.tasks[t].code)) else Same
    case RecoverNext(t) => if Recovers(s, t) then Move(s.tasks[t].rest[0].id, Recover) else Same
    case _ => if s.stage.Some? then StageChange(s.stage.value, e) else Same
  }

  /** The start pass turns to a job that it does not leave to reconciliation. */
  predicate Recovers(s: State, t: nat)
  {
    t in s.tasks && s.tasks[t].Recovering? && s.tasks[t].rest != [] && !LeftToReconcile(s.tasks[t].rest[0])
  }

  function StageChange(w: Stage, e: Event): Change
  {
    match e
    case CommitValidated => Move(w.id, Validate)
    case ReserveLease(r) => Lease(w.id, r)
    case CommitBalanceFailure => Move(w.id, RejectTransaction)
    case CommitFinalized => if w.Finalizing? then Move(w.id, Finalize(w.derivedId)) else Same
    case CommitIntent => Move(w.id, Intend)
    case CommitSettlement => if w.Settling? then Move(w.id, Settle(w.settlement)) else Same
    case _ => Same
  }

  lemma TaskChange(s: State, e: Event, s': State)
    requires IsTaskEvent(e) && TaskStep(s, e, s')
    ensures Changed(s.jobs, ChangeOf(s, e), s'.jobs) && Caused(s, ChangeOf(s, e)) && s'.stage == s.stage && s'.log == s.log
    ensures !e.ConsumeCapability? ==> s'.caps == s.caps
    ensures forall d | d in s.caps :: d in s'.caps && s'.caps[d] == s.caps[d]
  {
  }

  lemma BackgroundChange(s: State, e: Event, s': State)
    requires IsBackgroundEvent(e) && BackgroundStep(s, e, s')
    ensures Changed(s.jobs, ChangeOf(s, e), s'.jobs) && Caused(s, ChangeOf(s, e)) && s'.stage == s.stage && s'.log == s.log && s'.caps == s.caps
  {
  }

  lemma WalletChange(s: State, e: Event, s': State)
    requires IsWalletEvent(e) && WalletStep(s, e, s')
    ensures Changed(s.jobs, ChangeOf(s, e), s'.jobs) && Caused(s, ChangeOf(s, e)) && s'.caps == s.caps
  {
    assert ChangeOf(s, e) == StageChange(s.stage.value, e);
  }

  lemma ControlChange(s: State, e: Event, s': State)
    requires IsControlEvent(e) && ControlStep(s, e, s')
    ensures Changed(s.jobs, ChangeOf(s, e), s'.jobs) && Caused(s, ChangeOf(s, e)) && s'.caps == s.caps && LogMoves(s, s') && StageMoves(s, s')
  {
  }

  lemma WalletLogMoves(s: State, e: Event, s': State)
    requires IsWalletEvent(e) && WalletStep(s, e, s')
    ensures LogMoves(s, s')
  {
  }

  lemma WalletStageMoves(s: State, e: Event, s': State)
    requires IsWalletEvent(e) && WalletStep(s, e, s')
    ensures StageMoves(s, s')
  {
  }

  /** Each step makes the one change that its event asks for, from its own place in the code, and logs at
      most one wallet call. */
  lemma StepChange(s: State, e: Event, s': State)
    requires Step(s, e, s')
    ensures Changed(s.jobs, ChangeOf(s, e), s'.jobs) && Caused(s, ChangeOf(s, e)) && LogMoves(s, s') && StageMoves(s, s')
    ensures !e.ConsumeCapability? ==> s'.caps == s.caps
    ensures forall d | d in s.caps :: d in s'.caps && s'.caps[d] == s.caps[d]
  {
    if IsTaskEvent(e) { TaskChange(s, e, s'); }
    else if IsBackgroundEvent(e) { BackgroundChange(s, e, s'); }
    else if IsControlEvent(e) { ControlChange(s, e, s'); }
    else { WalletLogMoves(s, e, s'); WalletStageMoves(s, e, s'); WalletChange(s, e, s'); }
  }

  lemma MoveGrows(s: State, id: Text, c: Call)
    requires Inv(s) && Caused(s, Move(id, c))
    ensures Extends(s.jobs, Do(s.jobs, id, c))
  {
    if c.Confirm? {
      var t :| t in s.tasks && s.tasks[t] == Confirming(id, c.receipt);
      assert TaskOk(s.jobs, s.tasks[t]);
    }
    MoveKeepsJobs(s.jobs, id, c);
  }

  lemma InsertGrows(s: State, n: NewJob, out: CreateResult, jobs': Jobs)
    requires Inv(s) && Caused(s, Insert(n, out)) && Admits(s.jobs, n, out, jobs')
    ensures Extends(s.jobs, jobs')
  {
    var t :| t in s.tasks && s.tasks[t].Admitting? && n == InputOf(s.tasks[t].req, s.tasks[t].token);
    assert TaskOk(s.jobs, s.tasks[t]);
    InputIsBound(s.tasks[t].req, s.tasks[t].token);
    AdmitKeepsJobs(s.jobs, n, out, jobs');
  }

  lemma ChangeGrows(s: State, ch: Change, jobs': Jobs)
    requires Inv(s) && Changed(s.jobs, ch, jobs') && Caused(s, ch)
    ensures Extends(s.jobs, jobs')
  {
    match ch
    case Same => SameExtends(s.jobs);
    case Insert(n, out) => InsertGrows(s, n, out, jobs');
    case Lease(id, r) => ReserveKeepsJobs(s.jobs, id, r);
    case Move(id, c) => MoveGrows(s, id, c);
  }

  /** The change made by the k-th step of a run. */
  lemma ChangeAt(h: History, k: nat) returns (ch: Change)
    requires IsRun(h) && k < |h.events|
    ensures ch == ChangeOf(h.states[k], h.events[k])
    ensures Inv(h.states[k]) && Changed(h.states[k].jobs, ch, h.states[k + 1].jobs) && Caused(h.states[k], ch)
    ensures LogMoves(h.states[k], h.states[k + 1]) && StageMoves(h.states[k], h.states[k + 1]) && Later(h.states[k], h.states[k + 1])
  {
    InvAlways(h, k);
    assert Step(h.states[k], h.events[k], h.states[k + 1]);
    ch := ChangeOf(h.states[k], h.events[k]);
    StepChange(h.states[k], h.events[k], h.states[k + 1]);
    ChangeGrows(h.states[k], ch, h.states[k + 1].jobs);
  }

  lemma LaterAt(h: History, k: nat)
    requires IsRun(h) && k < |h.events|
    ensures Later(h.states[k], h.states[k + 1])
  {
    var _ := ChangeAt(h, k);
  }

  /** The durable history only grows, whatever happens between two moments of a run: identities and
      journal prefixes stay, transaction ids, receipts and lease ids are written once, terminal jobs
      are frozen, and no effect or consumed capability is forgotten. */
  lemma {:induction false} HistoryOnlyGrows(h: History, i: nat, k: nat)
    requires IsRun(h) && i <= k < |h.states|
    ensures Later(h.states[i], h.states[k])
    decreases k
  {
    if i == k {
      SameExtends(h.states[i].jobs);
    } else {
      HistoryOnlyGrows(h, i, k - 1);
      LaterAt(h, k - 1);
      LaterTransitive(h.states[i], h.states[k - 1], h.states[k]);
    }
  }

  // ------------------------------------------------------------ main results

  /** At-most-once submission: over any run, two submissions of one job, one idempotency key or one
      request hash are the same submission. */
  lemma AtMostOnceSubmission(h: History, k: nat, i: nat, j: nat)
    requires IsRun(h) && k < |h.states|
    requires i < |h.states[k].log| && j < |h.states[k].log| && h.states[k].log[i].Submit? && h.states[k].log[j].Submit?
    ensures var s := h.states[k]; var a, b := s.log[i].id, s.log[j].id;
            && a in s.jobs && b in s.jobs
            && (i == j <==> a == b)
            && (a == b <==> s.jobs[a].idempotencyKey == s.jobs[b].idempotencyKey)
            && (a == b <==> s.jobs[a].requestHash == s.jobs[b].requestHash)
  {
    InvAlways(h, k);
    var s := h.states[k];
    assert EffectOk(s.jobs, s.log, i) && EffectOk(s.jobs, s.log, j);
  }

  /** Intent first: a submission follows its durable intent and submits what the wallet finalized for
      that job, and the wallet is asked to balance only bytes that digest to the journaled digest, once. */
  lemma JournaledBytesOnly(h: History, k: nat, i: nat)
    requires IsRun(h) && k < |h.states| && i < |h.states[k].log|
    ensures var s := h.states[k]; var x := s.log[i];
            && x.id in s.jobs
            && (x.Balance? ==> TxDigest(x.unbound) == s.jobs[x.id].txDigest && DustReserved in s.jobs[x.id].transitions)
            && (x.Balance? ==> forall j | 0 <= j < |s.log| && s.log[j].Balance? && s.log[j].id == x.id :: j == i)
            && (x.Submit? ==> Submitted in s.jobs[x.id].transitions && exists n :: 0 <= n < i && s.log[n] == Balanced(x.id, x.finalized))
  {
    InvAlways(h, k);
    assert EffectOk(h.states[k].jobs, h.states[k].log, i);
  }

  /** Single lease: at most one job is between the lease and its confirmation. */
  lemma SingleLease(h: History, k: nat, a: Text, b: Text)
    requires IsRun(h) && k < |h.states| && a in h.states[k].jobs && b in h.states[k].jobs
    requires Leased(h.states[k].jobs[a].status) && Leased(h.states[k].jobs[b].status)
    ensures a == b
  {
    InvAlways(h, k);
  }

  lemma OthersStayUnleased(jobs: Jobs, ch: Change, jobs': Jobs, id: Text)
    requires LeaseFreeBeside(jobs, id) && Changed(jobs, ch, jobs') && (ch.Lease? ==> ch.id == id)
    ensures LeaseFreeBeside(jobs', id)
  {
    if ch.Move? { assert Leased(Target(ch.call)) ==> forall st | st in Expected(ch.call) :: Leased(st); }
  }

  lemma WonLeaseIsOnly(jobs: Jobs, id: Text, r: Text)
    requires Keyed(jobs) && ReserveDust(jobs, id, r).0.Some?
    ensures LeaseFreeBeside(jobs, id)
  {
    forall other | other in jobs && other != id ensures !Leased(jobs[other].status) { assert jobs[other].id == other; }
  }

  /** A stage past the lease works alone. */
  predicate WorksAlone(s: State)
  {
    s.stage.Some? && !BeforeLease(s.stage.value) ==> LeaseFreeBeside(s.jobs, s.stage.value.id)
  }

  lemma WorksAloneStays(s: State, ch: Change, s': State)
    requires Inv(s) && WorksAlone(s) && Changed(s.jobs, ch, s'.jobs) && Caused(s, ch) && StageMoves(s, s')
    ensures WorksAlone(s')
  {
    if s'.stage.Some? && !BeforeLease(s'.stage.value) {
      var id := s'.stage.value.id;
      if s'.stage != s.stage && BeforeLease(s.stage.value) {
        var r :| ReserveDust(s.jobs, id, r).0.Some?;
        WonLeaseIsOnly(s.jobs, id, r);
      }
      OthersStayUnleased(s.jobs, ch, s'.jobs, id);
    }
  }

  lemma {:induction false} AlwaysWorksAlone(h: History, k: nat)
    requires IsRun(h) && k < |h.states|
    ensures WorksAlone(h.states[k])
  {
    if k > 0 {
      AlwaysWorksAlone(h, k - 1);
      WorksAloneAt(h, k - 1);
    }
  }

  lemma WorksAloneAt(h: History, k: nat)
    requires IsRun(h) && k < |h.events| && WorksAlone(h.states[k])
    ensures WorksAlone(h.states[k + 1])
  {
    var ch := ChangeAt(h, k);
    WorksAloneStays(h.states[k], ch, h.states[k + 1]);
  }

  /** Coins are never balanced for two jobs in flight: whenever the wallet is called, to balance or to submit,
      no job but the one it is called for holds the lease. */
  lemma WalletServesOneJob(h: History, k: nat, other: Text)
    requires IsRun(h) && k < |h.events| && (h.events[k].CallBalance? || h.events[k].CallSubmit?)
    ensures h.states[k].stage.Some?
    ensures other in h.states[k].jobs && Leased(h.states[k].jobs[other].status) ==> other == h.states[k].stage.value.id
  {
    assert Step(h.states[k], h.events[k], h.states[k + 1]);
    AlwaysWorksAlone(h, k);
  }

  /** Receipt truth: a job has a receipt exactly when it is confirmed, and the receipt repeats the job's
      own transaction id, network, contract, circuit and action. */
  lemma ReceiptTruth(h: History, k: nat, id: Text)
    requires IsRun(h) && k < |h.states| && id in h.states[k].jobs
    ensures var j := h.states[k].jobs[id];
            && (j.receipt.Some? <==> j.status.Confirmed?)
            && (j.receipt.Some? ==>
                  && j.transactionId == Some(j.receipt.value.transactionId) && j.network == j.receipt.value.network
                  && j.contractAddress == j.receipt.value.contractAddress && j.circuit == j.receipt.value.circuit
                  && j.action == j.receipt.value.action)
  {
    InvAlways(h, k);
    assert Lawful(h.states[k].jobs[id]);
  }

  /** Identities: ids, keys, hashes and capability digests are pairwise unique, and every consumed
      capability is carried by a durable job. */
  lemma IdentityDiscipline(h: History, k: nat)
    requires IsRun(h) && k < |h.states|
    ensures var s := h.states[k];
            && (forall id | id in s.jobs :: s.jobs[id].id == id)
            && (forall a, b | a in s.jobs && b in s.jobs && a != b ::
                  s.jobs[a].idempotencyKey != s.jobs[b].idempotencyKey && s.jobs[a].requestHash != s.jobs[b].requestHash
                  && s.jobs[a].capabilityDigest != s.jobs[b].capabilityDigest)
            && (forall d | d in s.caps :: exists id :: id in s.jobs && s.jobs[id].capabilityDigest == d)
  {
    InvAlways(h, k);
    var s := h.states[k];
    forall a, b | a in s.jobs && b in s.jobs && a != b ensures s.jobs[a].capabilityDigest != s.jobs[b].capabilityDigest {
      if s.jobs[a].capabilityDigest == s.jobs[b].capabilityDigest { CapabilityDigestsDiffer(s.jobs, a, b); }
    }
    forall d | d in s.caps ensures exists id :: id in s.jobs && s.jobs[id].capabilityDigest == d {
      assert d.token.claims.actionId in s.jobs;
    }
  }

  /** Journals: from `authorized` along lifecycle edges to the current status, at most seven entries. */
  lemma JournalLaw(h: History, k: nat, id: Text)
    requires IsRun(h) && k < |h.states| && id in h.states[k].jobs
    ensures var j := h.states[k].jobs[id];
            && LawfulJournal(j.transitions) && j.transitions[|j.transitions| - 1] == j.status && |j.transitions| <= 7
            && (j.errorCode.Some? <==> j.status.Failed? || j.status.RecoveryRequired?)
            && (j.dustReservationId.Some? <==> DustReserved in j.transitions)
  {
    InvAlways(h, k);
    assert Lawful(h.states[k].jobs[id]);
    JournalIsShort(h.states[k].jobs[id].transitions);
  }

  // -------------------------------------------------- restarts do not resubmit

  /** The job's submission intent is journaled and nobody is about to act on it. */
  predicate IntentSpent(s: State, id: Text)
  {
    && id in s.jobs && Submitted in s.jobs[id].transitions
    && !(s.stage.Some? && s.stage.value.Intended? && s.stage.value.id == id)
  }

  /** The log has grown, but by no submission of this job. */
  predicate NoNewSubmit(log: seq<Effect>, log': seq<Effect>, id: Text)
  {
    log <= log' && forall i | |log| <= i < |log'| :: !(log'[i].Submit? && log'[i].id == id)
  }

  lemma NoNewSubmitTransitive(a: seq<Effect>, b: seq<Effect>, c: seq<Effect>, id: Text)
    requires NoNewSubmit(a, b, id) && NoNewSubmit(b, c, id)
    ensures NoNewSubmit(a, c, id)
  {
    assert forall i | 0 <= i < |b| :: c[i] == b[i];
  }

  /** A job with a journaled intent is past the status from which an intent is journaled. */
  lemma IntentOnce(j: Job)
    requires Lawful(j) && Submitted in j.transitions
    ensures !j.status.Finalized?
  {
    var ts := j.transitions;
    if Rank(ts[|ts| - 1]) < Rank(Submitted) { NotYet(ts, Submitted); }
  }

  lemma JournalKeeps(a: Job, b: Job, st: Status)
    requires Grows(a, b) && st in a.transitions
    ensures st in b.transitions
  {
    var i :| 0 <= i < |a.transitions| && a.transitions[i] == st;
    assert b.transitions[i] == st;
  }

  lemma IntentStaysSpent(s: State, s': State, id: Text)
    requires Keyed(s.jobs) && LogMoves(s, s') && StageMoves(s, s') && Extends(s.jobs, s'.jobs) && IntentSpent(s, id)
    ensures IntentSpent(s', id) && NoNewSubmit(s.log, s'.log, id)
  {
    assert Grows(s.jobs[id], s'.jobs[id]) && Lawful(s.jobs[id]);
    JournalKeeps(s.jobs[id], s'.jobs[id], Submitted);
    IntentOnce(s.jobs[id]);
  }

  lemma IntentStaysSpentAt(h: History, k: nat, id: Text)
    requires IsRun(h) && k < |h.events| && IntentSpent(h.states[k], id)
    ensures IntentSpent(h.states[k + 1], id) && NoNewSubmit(h.states[k].log, h.states[k + 1].log, id)
  {
    var _ := ChangeAt(h, k);
    IntentStaysSpent(h.states[k], h.states[k + 1], id);
  }

  /** After a crash, no job whose intent was journaled is ever submitted again, whatever `start`, retries,
      timers and clients do. */
  lemma {:induction false} RestartNeverResubmits(h: History, c: nat, k: nat, id: Text, i: nat)
    requires IsRun(h) && c < |h.events| && h.events[c].Crash? && c + 1 <= k < |h.states|
    requires id in h.states[c].jobs && Submitted in h.states[c].jobs[id].transitions
    requires |h.states[c].log| <= i < |h.states[k].log|
    ensures !(h.states[k].log[i].Submit? && h.states[k].log[i].id == id)
  {
    SpentAfterCrash(h, c, k, id);
  }

  lemma CrashClears(h: History, c: nat)
    requires IsRun(h) && c < |h.events| && h.events[c].Crash?
    ensures h.states[c + 1].jobs == h.states[c].jobs && h.states[c + 1].log == h.states[c].log && h.states[c + 1].stage.None?
  {
    assert Step(h.states[c], h.events[c], h.states[c + 1]);
  }

  lemma {:induction false} SpentAfterCrash(h: History, c: nat, k: nat, id: Text)
    requires IsRun(h) && c < |h.events| && h.events[c].Crash? && c + 1 <= k < |h.states|
    requires id in h.states[c].jobs && Submitted in h.states[c].jobs[id].transitions
    ensures IntentSpent(h.states[k], id) && NoNewSubmit(h.states[c].log, h.states[k].log, id)
    decreases k
  {
    if k == c + 1 {
      CrashClears(h, c);
    } else {
      SpentAfterCrash(h, c, k - 1, id);
      IntentStaysSpentAt(h, k - 1, id);
      NoNewSubmitTransitive(h.states[c].log, h.states[k - 1].log, h.states[k].log, id);
    }
  }
}
