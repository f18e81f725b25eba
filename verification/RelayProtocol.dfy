/** The walletless relay as a transition system: one step per await point of `accept`, `reconcile`,
    `start` and `runWalletStage`, plus the crash that wipes everything volatile
    (relayer/src/v2-service.ts:89-377). */
module RelayProtocol {
  import opened Wrappers
  import opened JsText
  import opened RelayTypes
  import opened RelayTable

  /** The memory-only transaction of a job: the `transient` map's value. */
  datatype Bytes = Bytes(unbound: Text, finalized: Option<Text>)

  /** Where an `accept`, `reconcile` or `start` call is waiting. */
  datatype Task =
    | Admitting(req: Request, token: Token)
    | KeyChecking(req: Request, token: Token, job: Job, created: bool)
    | Consuming(req: Request, token: Token, job: Job, created: bool)
    | Refusing(id: Text)
    | Attaching(req: Request, token: Token, job: Job, created: bool)
    | Reading(id: Text)
    | Resolving(job: Job)
    | Confirming(id: Text, receipt: Receipt)
    | Rejecting(id: Text, code: ErrorCode)
    | Listing
    | Recovering(rest: seq<Job>)

  /** Where the one wallet operation that is running is waiting. */
  datatype Stage =
    | Begun(id: Text)
    | Read(id: Text, authorized: bool)
    | Validating(id: Text, unbound: Text)
    | Reserving(id: Text, unbound: Text)
    | Refused(id: Text)
    | Reserved(id: Text, unbound: Text)
    | Balancing(id: Text, unbound: Text)
    | BalanceFailed(id: Text)
    | Finalizing(id: Text, finalized: Text, derivedId: Option<Text>)
    | Intending(id: Text, finalized: Text, derivedId: Option<Text>)
    | Intended(id: Text, finalized: Text, derivedId: Option<Text>)
    | Submitting(id: Text, finalized: Text, derivedId: Option<Text>)
    | Settling(id: Text, derivedId: Option<Text>, settlement: Settlement)
    | Ended(id: Text)

  /** Calls across the wallet boundary, in the order they happened. */
  datatype Effect =
    | Balance(id: Text, unbound: Text)
    | Balanced(id: Text, finalized: Text)
    | Submit(id: Text, finalized: Text)

  datatype State = State(
    // durable
    jobs: Jobs,
    caps: Capabilities,
    // volatile
    transient: map<Text, Bytes>,
    running: set<Text>,
    queue: seq<Text>,
    stage: Option<Stage>,
    runTimers: multiset<Text>,
    tasks: map<nat, Task>,
    // history, seen by no step
    log: seq<Effect>)

  predicate Init(s: State)
  {
    s == State(map[], map[], map[], {}, [], None, multiset{}, map[], [])
  }

  /** A step, with the choices that the clients, the wallet, the indexer and the scheduler make. */
  datatype Event =
    | Accept(t: nat, req: Request, token: Token, authentic: bool, now: int)
    | Admit(t: nat, out: CreateResult)
    | CheckKey(t: nat)
    | ConsumeCapability(t: nat)
    | Refuse(t: nat)
    | Attach(t: nat)
    | Reconcile(t: nat, id: Text)
    | ReadJob(t: nat)
    | AskIndexer(t: nat, answer: IndexerAnswer)
    | CommitReceipt(t: nat)
    | CommitRejection(t: nat)
    | Start(t: nat)
    | List(t: nat, listed: seq<Job>)
    | RecoverNext(t: nat)
    | RunTimer(id: Text)
    | BeginStage
    | ReadStage
    | TakeBytes
    | CommitValidated
    | ReserveLease(reservationId: Text)
    | ScheduleRetry
    | CallBalance
    | BalanceReturns(outcome: Option<(Text, Option<Text>)>)
    | CommitBalanceFailure
    | CommitFinalized
    | CommitIntent
    | CallSubmit
    | SubmitReturns(response: Option<Text>)
    | CommitSettlement
    | EndStage
    | Leave(id: Text)
    | AbortTask(t: nat)
    | AbortStage
    | Crash

  function InputOf(req: Request, token: Token): NewJob
  {
    NewJob(req.actionId, req.idempotencyKey, CapabilityDigest(token), RequestHashOf(req), TxDigest(req.tx),
           req.network, req.contractAddress, req.circuit, req.action)
  }

  function ReservationOf(req: Request, token: Token): Reservation
  {
    Reservation(CapabilityDigest(token), ClaimsFor(req), token.expiresAt)
  }

  predicate HexDigit(u: CodeUnit) { 48 <= u <= 57 || 97 <= u <= 102 }

  predicate HexText(t: Text) { t != [] && |t| % 2 == 0 && forall i | 0 <= i < |t| :: HexDigit(t[i]) }

  /** `actionForCircuit`. */
  function ActionForCircuit(circuit: Text): Option<Action>
  {
    if circuit == U("castVote") || circuit == U("closeVote") || circuit == U("revealVote") || circuit == U("finalizeVote") then Some(Vote)
    else if circuit == U("addCredential") || circuit == U("freeze") then Some(Credential)
    else if circuit == U("recordPublicCohort") then Some(Cohort)
    else None
  }

  /** The shape that `parseV2ActionRequest` asks of a request's fields. */
  predicate WellShaped(req: Request)
  {
    && !Blank(req.actionId) && !Blank(req.idempotencyKey) && !Blank(req.network) && !Blank(req.contractAddress) && !Blank(req.circuit)
    && HexText(req.tx) && ActionForCircuit(req.circuit) == Some(req.action)
  }

  /** A request that reaches the store: well shaped, and its transaction text has been lower-cased. */
  predicate Parsed(req: Request) { IsLower(req.tx) && WellShaped(req) }

  /** The durable job under the request's key, if any, belongs to another request or capability. */
  ghost predicate KeyClash(jobs: Jobs, req: Request, token: Token)
  {
    exists id :: id in jobs && jobs[id].idempotencyKey == req.idempotencyKey
                 && (jobs[id].requestHash != RequestHashOf(req) || jobs[id].capabilityDigest != CapabilityDigest(token))
  }

  /** `run`: only ever called when the job is not already running. */
  function Run(s: State, id: Text): State
  {
    s.(running := s.running + {id}, queue := s.queue + [id])
  }

  /** The synchronous end of `accept`. */
  function Attached(s: State, req: Request, job: Job, created: bool): State
  {
    var s1 := if job.status.Authorized? || created then s.(transient := s.transient[job.id := Bytes(req.tx, None)]) else s;
    if job.status.Authorized? && job.id !in s1.running then Run(s1, job.id) else s1
  }

  predicate Unreconcilable(jobs: Jobs, id: Text)
  {
    id !in jobs || jobs[id].status.Confirmed? || jobs[id].status.Failed? || jobs[id].transactionId.None? || jobs[id].transactionId.value == []
  }

  /** The start pass leaves a submitted job with a transaction id to `reconcile`. */
  predicate LeftToReconcile(j: Job)
  {
    (j.status.Submitted? || j.status.IndexerPending?) && j.transactionId.Some? && j.transactionId.value != []
  }

  predicate NonEmptyId(x: Option<Text>) { x.Some? ==> x.value != [] }

  /** How `runWalletStage` reads the outcome of `submit`. */
  function SettlementOf(derivedId: Option<Text>, result: Option<Text>): Settlement
  {
    match result
    case None => if derivedId.Some? then Pending(derivedId.value) else Lost
    case Some(x) => if derivedId.Some? && x != derivedId.value then Mismatched else Pending(x)
  }

  predicate IsTaskEvent(e: Event) { e.Accept? || e.Admit? || e.CheckKey? || e.ConsumeCapability? || e.Refuse? || e.Attach? }

  predicate IsBackgroundEvent(e: Event)
  {
    e.Reconcile? || e.ReadJob? || e.AskIndexer? || e.CommitReceipt? || e.CommitRejection? || e.Start? || e.List? || e.RecoverNext?
  }

  predicate IsControlEvent(e: Event)
  {
    e.RunTimer? || e.BeginStage? || e.EndStage? || e.Leave? || e.AbortTask? || e.AbortStage? || e.Crash?
  }

  predicate IsWalletEvent(e: Event) { !IsTaskEvent(e) && !IsBackgroundEvent(e) && !IsControlEvent(e) }

  ghost predicate TaskStep(s: State, e: Event, s': State)
    requires IsTaskEvent(e)
  {
    match e
    case Accept(t, req, token, authentic, now) =>
      && t !in s.tasks && Parsed(req) && VerifyCapability(token, authentic, ClaimsFor(req), now).Some?
      && s' == s.(tasks := s.tasks[t := Admitting(req, token)])
    case Admit(t, out) =>
      && t in s.tasks && s.tasks[t].Admitting?
      && var a := s.tasks[t];
      && Admits(s.jobs, InputOf(a.req, a.token), out, s'.jobs)
      && s' == s.(jobs := s'.jobs,
                  tasks := if out.Conflict? then s.tasks - {t}
                           else s.tasks[t := KeyChecking(a.req, a.token, out.job, out.Created?)])
    case CheckKey(t) =>
      && t in s.tasks && s.tasks[t].KeyChecking?
      && var a := s.tasks[t];
      && s' == s.(tasks := if KeyClash(s.jobs, a.req, a.token) then s.tasks - {t}
                           else s.tasks[t := Consuming(a.req, a.token, a.job, a.created)])
    case ConsumeCapability(t) =>
      && t in s.tasks && s.tasks[t].Consuming?
      && var a := s.tasks[t];
      && var (unused, caps') := Consume(s.caps, ReservationOf(a.req, a.token));
      && var next := Attaching(a.req, a.token, a.job, a.created);
      && s' == if a.created then
                 if unused then s.(caps := caps', tasks := s.tasks[t := next])
                 else s.(tasks := s.tasks[t := Refusing(a.job.id)])
               else if a.job.capabilityDigest == CapabilityDigest(a.token) then s.(caps := caps', tasks := s.tasks[t := next])
               else s.(tasks := s.tasks[t := next])
    case Refuse(t) =>
      && t in s.tasks && s.tasks[t].Refusing?
      && s' == s.(jobs := Do(s.jobs, s.tasks[t].id, Replayed), tasks := s.tasks - {t})
    case Attach(t) =>
      && t in s.tasks && s.tasks[t].Attaching?
      && var a := s.tasks[t];
      && s' == Attached(s, a.req, a.job, a.created).(tasks := s.tasks - {t})
  }

  ghost predicate BackgroundStep(s: State, e: Event, s': State)
    requires IsBackgroundEvent(e)
  {
    match e
    case Reconcile(t, id) =>
      && t !in s.tasks
      && s' == s.(tasks := s.tasks[t := Reading(id)])
    case ReadJob(t) =>
      && t in s.tasks && s.tasks[t].Reading?
      && var id := s.tasks[t].id;
      && s' == s.(tasks := if Unreconcilable(s.jobs, id) then s.tasks - {t} else s.tasks[t := Resolving(s.jobs[id])])
    case AskIndexer(t, answer) =>
      && t in s.tasks && s.tasks[t].Resolving? && s.tasks[t].job.transactionId.Some?
      && var job := s.tasks[t].job;
      && s' == s.(tasks := match Resolve(answer, JobQuery(job))
                           case Resolved(r) => s.tasks[t := Confirming(job.id, r)]
                           case Rejected(code) => s.tasks[t := Rejecting(job.id, code)]
                           case _ => s.tasks - {t})
    case CommitReceipt(t) =>
      && t in s.tasks && s.tasks[t].Confirming?
      && s' == s.(jobs := Do(s.jobs, s.tasks[t].id, Confirm(s.tasks[t].receipt)), tasks := s.tasks - {t})
    case CommitRejection(t) =>
      && t in s.tasks && s.tasks[t].Rejecting?
      && s' == s.(jobs := Do(s.jobs, s.tasks[t].id, RejectByIndexer(s.tasks[t].code)), tasks := s.tasks - {t})
    case Start(t) =>
      && t !in s.tasks
      && s' == s.(tasks := s.tasks[t := Listing])
    case List(t, listed) =>
      && t in s.tasks && s.tasks[t].Listing?
      && (forall j :: j in listed <==> j.id in s.jobs && s.jobs[j.id] == j && Recoverable(j.status))
      && s' == s.(tasks := s.tasks[t := Recovering(listed)])
    case RecoverNext(t) =>
      && t in s.tasks && s.tasks[t].Recovering?
      && var rest := s.tasks[t].rest;
      && s' == if rest == [] then s.(tasks := s.tasks - {t})
               else
                 var next := s.(tasks := s.tasks[t := Recovering(rest[1..])]);
                 if LeftToReconcile(rest[0]) then next
                 else next.(jobs := Do(s.jobs, rest[0].id, Recover))
  }

  predicate WalletStep(s: State, e: Event, s': State)
    requires IsWalletEvent(e)
  {
    && s.stage.Some?
    && var w := s.stage.value;
    && var id := w.id;
    match e
    case ReadStage =>
      && w.Begun?
      && s' == s.(stage := Some(Read(id, id in s.jobs && s.jobs[id].status.Authorized?)))
    case TakeBytes =>
      && w.Read?
      && s' == s.(stage := Some(if w.authorized && id in s.transient then Validating(id, s.transient[id].unbound) else Ended(id)))
    case CommitValidated =>
      && w.Validating?
      && s' == s.(jobs := Do(s.jobs, id, Validate),
                  stage := Some(if Hits(s.jobs, id, Validate) then Reserving(id, w.unbound) else Ended(id)))
    case ReserveLease(reservationId) =>
      && w.Reserving? && reservationId != []
      && var (got, jobs') := ReserveDust(s.jobs, id, reservationId);
      && s' == s.(jobs := jobs', stage := Some(if got.Some? then Reserved(id, w.unbound) else Refused(id)))
    case ScheduleRetry =>
      && w.Refused?
      && s' == s.(runTimers := s.runTimers + multiset{id}, stage := Some(Ended(id)))
    case CallBalance =>
      && w.Reserved?
      && s' == s.(log := s.log + [Balance(id, w.unbound)], stage := Some(Balancing(id, w.unbound)))
    case BalanceReturns(result) =>
      && w.Balancing?
      && s' == (match result
               case None => s.(transient := s.transient - {id}, stage := Some(BalanceFailed(id)))
               case Some(r) =>
                 s.(transient := s.transient[id := Bytes(w.unbound, Some(r.0))],
                    log := s.log + [Balanced(id, r.0)],
                    stage := Some(Finalizing(id, r.0, if NonEmptyId(r.1) then r.1 else None))))
    case CommitBalanceFailure =>
      && w.BalanceFailed?
      && s' == s.(jobs := Do(s.jobs, id, RejectTransaction), stage := Some(Ended(id)))
    case CommitFinalized =>
      && w.Finalizing?
      && s' == s.(jobs := Do(s.jobs, id, Finalize(w.derivedId)), stage := Some(Intending(id, w.finalized, w.derivedId)))
    case CommitIntent =>
      && w.Intending?
      && s' == s.(jobs := Do(s.jobs, id, Intend),
                  stage := Some(if Hits(s.jobs, id, Intend) then Intended(id, w.finalized, w.derivedId) else Ended(id)))
    case CallSubmit =>
      && w.Intended?
      && s' == s.(log := s.log + [Submit(id, w.finalized)], stage := Some(Submitting(id, w.finalized, w.derivedId)))
    case SubmitReturns(result) =>
      && w.Submitting? && (result.Some? ==> !Blank(result.value))
      && s' == s.(transient := s.transient - {id}, stage := Some(Settling(id, w.derivedId, SettlementOf(w.derivedId, result))))
    case CommitSettlement =>
      && w.Settling?
      && s' == s.(jobs := Do(s.jobs, id, Settle(w.settlement)), stage := Some(Ended(id)))
  }

  predicate ControlStep(s: State, e: Event, s': State)
    requires IsControlEvent(e)
  {
    match e
    case RunTimer(id) =>
      && id in s.runTimers
      && var s1 := s.(runTimers := s.runTimers - multiset{id});
      && s' == if id in s1.running then s1 else Run(s1, id)
    case BeginStage =>
      && s.stage.None? && s.queue != []
      && s' == s.(queue := s.queue[1..], stage := Some(Begun(s.queue[0])))
    case EndStage =>
      && s.stage.Some? && s.stage.value.Ended?
      && s' == s.(stage := None)
    case Leave(id) =>
      && id in s.running && id !in s.queue && (s.stage.None? || s.stage.value.id != id)
      && s' == s.(running := s.running - {id})
    case AbortTask(t) =>
      && t in s.tasks
      && s' == s.(tasks := s.tasks - {t})
    case AbortStage =>
      && s.stage.Some?
      && s' == s.(stage := Some(Ended(s.stage.value.id)))
    case Crash =>
      s' == State(s.jobs, s.caps, map[], {}, [], None, multiset{}, map[], s.log)
  }

  ghost predicate Step(s: State, e: Event, s': State)
  {
    if IsTaskEvent(e) then TaskStep(s, e, s')
    else if IsBackgroundEvent(e) then BackgroundStep(s, e, s')
    else if IsControlEvent(e) then ControlStep(s, e, s')
    else WalletStep(s, e, s')
  }

  /** A run: states joined by events, from the empty store. */
  datatype History = History(states: seq<State>, events: seq<Event>)

  ghost predicate IsRun(h: History)
  {
    && |h.states| == |h.events| + 1
    && Init(h.states[0])
    && forall i {:trigger Step(h.states[i], h.events[i], h.states[i + 1])} | 0 <= i < |h.events| :: Step(h.states[i], h.events[i], h.states[i + 1])
  }
}
