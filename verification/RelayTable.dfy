/** The store operations of the relay as functions on its two tables, and the calls the service makes
    of them (relayer/src/v2-store.ts:37-151, relayer/src/v2-service.ts). */
module RelayTable {
  import opened Wrappers
  import opened JsText
  import opened RelayTypes

  // ------------------------------------------------------------ createOrGet

  datatype CreateResult = Conflict | Existing(job: Job) | Created(job: Job)

  predicate SameRow(j: Job, n: NewJob)
  {
    j.id == n.id || j.idempotencyKey == n.idempotencyKey || j.requestHash == n.requestHash
  }

  /** What every adapter's `createOrGet` may do: insert one fresh job when nothing matches, or change
      nothing and report a matching job (with the same request) or a conflict. */
  ghost predicate Admits(jobs: Jobs, n: NewJob, out: CreateResult, jobs': Jobs)
  {
    match out
    case Created(j) =>
      && j == Fresh(n)
      && n.id !in jobs
      && (forall id | id in jobs :: !SameRow(jobs[id], n))
      && jobs' == jobs[n.id := j]
    case Existing(j) =>
      && (exists id :: id in jobs && jobs[id] == j && (SameRow(j, n) || j.capabilityDigest == n.capabilityDigest))
      && j.requestHash == n.requestHash
      && jobs' == jobs
    case Conflict =>
      && (exists id :: id in jobs && (SameRow(jobs[id], n) || jobs[id].capabilityDigest == n.capabilityDigest))
      && jobs' == jobs
  }

  // ------------------------------------------------------------- transition

  datatype Patch = Patch(
    status: Option<Status>, dustReservationId: Option<Text>, transactionId: Option<Text>,
    receipt: Option<Receipt>, errorCode: Option<ErrorCode>)

  function Or<T>(a: Option<T>, b: Option<T>): Option<T> { if a.Some? then a else b }

  /** The spread `{ ...job, ...patch }` with the append rule of the in-memory adapter. */
  function Patched(j: Job, p: Patch): Job
  {
    j.(status := if p.status.Some? then p.status.value else j.status,
       transitions := if p.status.Some? && p.status.value != j.status then j.transitions + [p.status.value] else j.transitions,
       dustReservationId := Or(p.dustReservationId, j.dustReservationId),
       transactionId := Or(p.transactionId, j.transactionId),
       receipt := Or(p.receipt, j.receipt),
       errorCode := Or(p.errorCode, j.errorCode))
  }

  /** `null`, the stored job, or a refusal to persist a malformed receipt. */
  datatype MoveResult = Missed | Moved(job: Job) | BadReceipt

  function Transition(jobs: Jobs, id: Text, expected: set<Status>, p: Patch): (MoveResult, Jobs)
  {
    if id !in jobs || jobs[id].status !in expected then (Missed, jobs)
    else
      var next := Patched(jobs[id], p);
      if next.receipt.Some? && Sanitize(next.receipt.value).None? then (BadReceipt, jobs)
      else (Moved(next), jobs[id := next])
  }

  /** The end states of a submission, as `runWalletStage` writes them. */
  datatype Settlement = Pending(transactionId: Text) | Lost | Mismatched

  /** Every `transition` call the service makes. */
  datatype Call =
    | Validate
    | Replayed
    | RejectTransaction
    | Finalize(derivedId: Option<Text>)
    | Intend
    | Settle(settlement: Settlement)
    | Confirm(receipt: Receipt)
    | RejectByIndexer(code: ErrorCode)
    | Recover

  function Expected(c: Call): set<Status>
  {
    match c
    case Validate => {Authorized}
    case Replayed => {Authorized}
    case RejectTransaction => {DustReserved}
    case Finalize(_) => {DustReserved}
    case Intend => {Finalized}
    case Settle(_) => {Submitted}
    case Confirm(_) => {Submitted, IndexerPending}
    case RejectByIndexer(_) => {Submitted, IndexerPending}
    case Recover => {Authorized, Validated, DustReserved, Finalized}
  }

  function Target(c: Call): Status
  {
    match c
    case Validate => Validated
    case Replayed => Failed
    case RejectTransaction => Failed
    case Finalize(_) => Finalized
    case Intend => Submitted
    case Settle(s) => (match s case Pending(_) => IndexerPending case Lost => RecoveryRequired case Mismatched => Failed)
    case Confirm(_) => Confirmed
    case RejectByIndexer(_) => Failed
    case Recover => RecoveryRequired
  }

  function Failure(c: Call): Option<ErrorCode>
  {
    match c
    case Replayed => Some(CapabilityReplayed)
    case RejectTransaction => Some(TransactionRejected)
    case Settle(s) => (match s case Pending(_) => None case Lost => Some(SubmissionUnknown) case Mismatched => Some(SubmissionIdMismatch))
    case RejectByIndexer(code) => Some(code)
    case Recover => Some(NeedsRecovery)
    case _ => None
  }

  function PatchOf(c: Call): Patch
  {
    var txId := match c
      case Finalize(d) => d
      case Settle(s) => (match s case Pending(x) => Some(x) case _ => None)
      case _ => None;
    Patch(Some(Target(c)), None, txId, if c.Confirm? then Some(c.receipt) else None, Failure(c))
  }

  function Do(jobs: Jobs, id: Text, c: Call): Jobs
  {
    Transition(jobs, id, Expected(c), PatchOf(c)).1
  }

  predicate Hits(jobs: Jobs, id: Text, c: Call)
  {
    Transition(jobs, id, Expected(c), PatchOf(c)).0.Moved?
  }

  // ------------------------------------------------------------- reserveDust

  predicate LeaseTaken(jobs: Jobs, id: Text)
  {
    exists other :: other in jobs && jobs[other].id != id && Leased(jobs[other].status)
  }

  function WithLease(j: Job, reservationId: Text): Job
  {
    j.(status := DustReserved, transitions := j.transitions + [DustReserved], dustReservationId := Some(reservationId))
  }

  function ReserveDust(jobs: Jobs, id: Text, reservationId: Text): (Option<Job>, Jobs)
  {
    if id in jobs && jobs[id].status.Validated? && !LeaseTaken(jobs, id) then
      var next := WithLease(jobs[id], reservationId);
      (Some(next), jobs[id := next])
    else (None, jobs)
  }

  // ------------------------------------------------------- consumeCapability

  function Consume(caps: Capabilities, r: Reservation): (bool, Capabilities)
  {
    if r.digest in caps then (false, caps) else (true, caps[r.digest := r])
  }

  // -------------------------------------------------------------- start pass

  /** What a start pass that is not interfered with leaves in the table. */
  function Recovered(jobs: Jobs): Jobs
  {
    map id | id in jobs :: if PreSubmit(jobs[id].status) then Patched(jobs[id], PatchOf(Recover)) else jobs[id]
  }

  /** After a start pass no job waits before submission, and a second pass changes nothing. */
  lemma StartPassIsIdempotent(jobs: Jobs)
    ensures forall id | id in Recovered(jobs) :: !PreSubmit(Recovered(jobs)[id].status)
    ensures Recovered(Recovered(jobs)) == Recovered(jobs)
    ensures Recovered(jobs) == jobs <==> forall id | id in jobs :: !PreSubmit(jobs[id].status)
  {
    var once := Recovered(jobs);
    assert forall id | id in jobs :: !PreSubmit(once[id].status);
    assert Recovered(once) == once;
    if Recovered(jobs) == jobs {
      forall id | id in jobs ensures !PreSubmit(jobs[id].status) { assert once[id] == jobs[id]; }
    }
  }
}
