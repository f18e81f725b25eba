/** The PostgreSQL adapter as atomic table operations (relayer/src/v2-postgres.ts), and its agreement with the
    in-memory adapter. */
module RelayPostgres {
  import opened Wrappers
  import opened JsText
  import opened RelayTypes
  import opened RelayTable
  import opened RelayJobs
  import opened RelayStore

  // ------------------------------------------------------------------- rows

  function Truthy(x: Option<Text>): Option<Text> { if x.Some? && x.value == [] then None else x }

  /** `rowToJob`: columns as stored, with falsy values dropped and the receipt re-sanitised. */
  function RowToJob(row: Job): Job
  {
    row.(transitions := if row.transitions == [] then [row.status] else row.transitions,
         dustReservationId := Truthy(row.dustReservationId),
         transactionId := Truthy(row.transactionId),
         receipt := if row.receipt.Some? then Sanitize(row.receipt.value) else None)
  }

  /** The assignment list of `transition`: every defined field is set, and a defined status is always appended. */
  function Assigned(row: Job, p: Patch): Job
  {
    row.(status := if p.status.Some? then p.status.value else row.status,
         transitions := if p.status.Some? then row.transitions + [p.status.value] else row.transitions,
         dustReservationId := Or(p.dustReservationId, row.dustReservationId),
         transactionId := Or(p.transactionId, row.transactionId),
         receipt := if p.receipt.Some? then Sanitize(p.receipt.value) else row.receipt,
         errorCode := Or(p.errorCode, row.errorCode))
  }

  /** The UPDATE of `transition`; a receipt that does not sanitise aborts before the statement. */
  function PgTransition(rows: Jobs, id: Text, statuses: set<Status>, p: Patch): (MoveResult, Jobs)
  {
    if p.receipt.Some? && Sanitize(p.receipt.value).None? then (BadReceipt, rows)
    else if id !in rows || rows[id].status !in statuses then (Missed, rows)
    else (Moved(RowToJob(Assigned(rows[id], p))), rows[id := Assigned(rows[id], p)])
  }

  predicate SomeLeased(rows: Jobs) { exists id :: id in rows && Leased(rows[id].status) }

  /** The guarded UPDATE of `reserveDust`: its NOT EXISTS looks at every row, this one included. */
  function PgReserveDust(rows: Jobs, id: Text, reservationId: Text): (Option<Job>, Jobs)
  {
    if id in rows && rows[id].status.Validated? && !SomeLeased(rows) then
      var row := WithLease(rows[id], reservationId);
      (Some(RowToJob(row)), rows[id := row])
    else (None, rows)
  }

  /** INSERT ... ON CONFLICT (digest) DO NOTHING RETURNING digest. */
  function PgConsume(caps: Capabilities, r: Reservation): (bool, Capabilities)
  {
    var caps' := if r.digest in caps then caps else caps[r.digest := r];
    (caps' != caps, caps')
  }

  // ------------------------------------------------- agreement, call by call

  /** What rows written through either adapter look like. */
  predicate Tidy(j: Job)
  {
    && j.transitions != []
    && (j.dustReservationId.Some? ==> j.dustReservationId.value != [])
    && (j.transactionId.Some? ==> j.transactionId.value != [])
    && (j.receipt.Some? ==> j.status.Confirmed? && Sanitize(j.receipt.value).Some?)
  }

  predicate TidyTable(jobs: Jobs) { forall id | id in jobs :: jobs[id].id == id && Tidy(jobs[id]) }

  /** The service never writes an empty transaction id, nor a receipt that does not sanitise. */
  predicate TidyCall(c: Call)
  {
    && (c.Finalize? && c.derivedId.Some? ==> c.derivedId.value != [])
    && (c.Settle? && c.settlement.Pending? ==> c.settlement.transactionId != [])
    && (c.Confirm? ==> Sanitize(c.receipt).Some?)
  }

  lemma GoodJobsAreTidy(jobs: Jobs)
    requires GoodJobs(jobs)
    ensures TidyTable(jobs)
  {
    forall id | id in jobs ensures jobs[id].id == id && Tidy(jobs[id]) { assert Lawful(jobs[id]); }
  }

  lemma TransitionsAgree(jobs: Jobs, id: Text, c: Call)
    requires TidyTable(jobs) && TidyCall(c)
    ensures PgTransition(jobs, id, Expected(c), PatchOf(c)) == Transition(jobs, id, Expected(c), PatchOf(c))
    ensures TidyTable(Do(jobs, id, c))
  {
    if id in jobs && jobs[id].status in Expected(c) {
      var j := jobs[id];
      assert Tidy(j) && j.receipt.None?;
      assert Target(c) !in Expected(c);
    }
  }

  lemma ReservationsAgree(jobs: Jobs, id: Text, reservationId: Text)
    requires TidyTable(jobs) && reservationId != []
    ensures PgReserveDust(jobs, id, reservationId) == ReserveDust(jobs, id, reservationId)
    ensures TidyTable(ReserveDust(jobs, id, reservationId).1)
  {
    if id in jobs && jobs[id].status.Validated? {
      assert jobs[id].id == id;
      assert SomeLeased(jobs) <==> LeaseTaken(jobs, id);
    }
  }

  lemma ConsumesAgree(caps: Capabilities, r: Reservation)
    ensures PgConsume(caps, r) == Consume(caps, r)
  {
  }

  // ---------------------------------------------------- agreement over traces

  datatype Op = DoCall(id: Text, call: Call) | DoReserve(id: Text, reservationId: Text) | DoConsume(reservation: Reservation)

  datatype Reply = ReplyMove(move: MoveResult) | ReplyLease(lease: Option<Job>) | ReplyConsume(consumed: bool)

  datatype Tables = Tables(jobs: Jobs, caps: Capabilities)

  function MemoryStep(t: Tables, op: Op): (Reply, Tables)
  {
    match op
    case DoCall(id, c) => var (r, jobs) := Transition(t.jobs, id, Expected(c), PatchOf(c)); (ReplyMove(r), t.(jobs := jobs))
    case DoReserve(id, r) => var (o, jobs) := ReserveDust(t.jobs, id, r); (ReplyLease(o), t.(jobs := jobs))
    case DoConsume(r) => var (ok, caps) := Consume(t.caps, r); (ReplyConsume(ok), t.(caps := caps))
  }

  function PgStep(t: Tables, op: Op): (Reply, Tables)
  {
    match op
    case DoCall(id, c) => var (r, rows) := PgTransition(t.jobs, id, Expected(c), PatchOf(c)); (ReplyMove(r), t.(jobs := rows))
    case DoReserve(id, r) => var (o, rows) := PgReserveDust(t.jobs, id, r); (ReplyLease(o), t.(jobs := rows))
    case DoConsume(r) => var (ok, caps) := PgConsume(t.caps, r); (ReplyConsume(ok), t.(caps := caps))
  }

  function MemoryRun(t: Tables, ops: seq<Op>): (seq<Reply>, Tables)
    decreases |ops|
  {
    if ops == [] then ([], t)
    else
      var (r, t1) := MemoryStep(t, ops[0]);
      var (rs, t2) := MemoryRun(t1, ops[1..]);
      ([r] + rs, t2)
  }

  function PgRun(t: Tables, ops: seq<Op>): (seq<Reply>, Tables)
    decreases |ops|
  {
    if ops == [] then ([], t)
    else
      var (r, t1) := PgStep(t, ops[0]);
      var (rs, t2) := PgRun(t1, ops[1..]);
      ([r] + rs, t2)
  }

  predicate TidyOp(op: Op)
  {
    (op.DoCall? ==> TidyCall(op.call)) && (op.DoReserve? ==> op.reservationId != [])
  }

  lemma StepsAgree(t: Tables, op: Op)
    requires TidyTable(t.jobs) && TidyOp(op)
    ensures PgStep(t, op) == MemoryStep(t, op) && TidyTable(MemoryStep(t, op).1.jobs)
  {
    match op
    case DoCall(id, c) => TransitionsAgree(t.jobs, id, c);
    case DoReserve(id, r) => ReservationsAgree(t.jobs, id, r);
    case DoConsume(r) => ConsumesAgree(t.caps, r);
  }

  /** Adapter refinement: from equal tables, any sequence of the service's calls draws the same replies
      from both adapters and leaves equal tables. */
  lemma {:induction false} AdaptersAgree(t: Tables, ops: seq<Op>)
    requires TidyTable(t.jobs) && forall i | 0 <= i < |ops| :: TidyOp(ops[i])
    ensures PgRun(t, ops) == MemoryRun(t, ops)
    decreases |ops|
  {
    if ops != [] {
      StepsAgree(t, ops[0]);
      AdaptersAgree(MemoryStep(t, ops[0]).1, ops[1..]);
    }
  }

  // -------------------------------------------------------------- admission

  predicate Clashes(j: Job, n: NewJob) { SameRow(j, n) || j.capabilityDigest == n.capabilityDigest }

  /** INSERT ... ON CONFLICT DO NOTHING, then the SELECT that prefers a row with the same key and otherwise
      returns any matching row. */
  ghost predicate PgAdmits(rows: Jobs, n: NewJob, out: CreateResult, rows': Jobs)
  {
    if n.id !in rows && forall id | id in rows :: !Clashes(rows[id], n) then
      out == Created(Fresh(n)) && rows' == rows[n.id := Fresh(n)]
    else
      && rows' == rows
      && exists id :: id in rows && Clashes(rows[id], n)
                      && ((exists k :: k in rows && rows[k].idempotencyKey == n.idempotencyKey) ==> rows[id].idempotencyKey == n.idempotencyKey)
                      && out == (if rows[id].requestHash == n.requestHash then Existing(rows[id]) else Conflict)
  }

  lemma MemoryIsAdmissible(jobs: Jobs, n: NewJob, out: CreateResult, jobs': Jobs)
    requires Keyed(jobs) && MemoryAdmits(jobs, n, out, jobs')
    ensures Admits(jobs, n, out, jobs')
  {
    if n.id in jobs { assert SameRow(jobs[n.id], n); }
  }

  lemma PgIsAdmissible(jobs: Jobs, n: NewJob, out: CreateResult, jobs': Jobs)
    requires Keyed(jobs) && PgAdmits(jobs, n, out, jobs')
    ensures Admits(jobs, n, out, jobs')
  {
  }

  /** Both adapters are admissible stores: they insert one fresh job or change nothing, and either way ids,
      keys and request hashes stay unique and no stored job is touched. */
  lemma BothAdaptersAdmit(jobs: Jobs, n: NewJob, out: CreateResult, jobs': Jobs)
    requires GoodJobs(jobs) && BoundInput(n) && (MemoryAdmits(jobs, n, out, jobs') || PgAdmits(jobs, n, out, jobs'))
    ensures Admits(jobs, n, out, jobs') && GoodJobs(jobs') && Extends(jobs, jobs')
  {
    if MemoryAdmits(jobs, n, out, jobs') { MemoryIsAdmissible(jobs, n, out, jobs'); } else { PgIsAdmissible(jobs, n, out, jobs'); }
    AdmitKeepsJobs(jobs, n, out, jobs');
  }

  /** What `accept` makes of a `createOrGet`: refused, or going on with a job. */
  datatype Verdict = Refused | Proceeds(job: Job, created: bool)

  /** The key check that follows `createOrGet` in `accept`. */
  ghost predicate KeyTaken(jobs: Jobs, n: NewJob)
  {
    exists id :: id in jobs && jobs[id].idempotencyKey == n.idempotencyKey
                 && (jobs[id].requestHash != n.requestHash || jobs[id].capabilityDigest != n.capabilityDigest)
  }

  ghost function VerdictOf(out: CreateResult, jobs': Jobs, n: NewJob): Verdict
  {
    if out.Conflict? || KeyTaken(jobs', n) then Refused else Proceeds(out.job, out.Created?)
  }

  /** The id belongs to one job and the request hash to another, while the key is new. */
  ghost predicate IdAndHashSplit(jobs: Jobs, n: NewJob)
  {
    && n.id in jobs && jobs[n.id].requestHash != n.requestHash
    && (exists id :: id in jobs && jobs[id].requestHash == n.requestHash)
    && (forall id | id in jobs :: jobs[id].idempotencyKey != n.idempotencyKey)
  }

  /** On a bound input the capability digest can only match the row that the id matches. */
  lemma DigestNamesId(jobs: Jobs, n: NewJob, id: Text)
    requires GoodJobs(jobs) && BoundInput(n) && id in jobs && jobs[id].capabilityDigest == n.capabilityDigest
    ensures id == n.id && jobs[id].idempotencyKey == n.idempotencyKey && jobs[id].requestHash == n.requestHash
  {
    assert Lawful(jobs[id]);
    assert Bound(jobs[id]) && Bound(Fresh(n));
  }

  lemma VerdictsAgreeUnlessSplit(jobs: Jobs, n: NewJob, out: CreateResult, jobs': Jobs, out': CreateResult, jobs'': Jobs)
    requires GoodJobs(jobs) && BoundInput(n) && !IdAndHashSplit(jobs, n)
    requires MemoryAdmits(jobs, n, out, jobs') && PgAdmits(jobs, n, out', jobs'')
    ensures VerdictOf(out, jobs', n) == VerdictOf(out', jobs'', n) && jobs' == jobs''
  {
    forall id | id in jobs && jobs[id].capabilityDigest == n.capabilityDigest
      ensures id == n.id && jobs[id].idempotencyKey == n.idempotencyKey && jobs[id].requestHash == n.requestHash
    {
      DigestNamesId(jobs, n, id);
    }
  }

  /** When id and hash are split, memory refuses and PostgreSQL may go on with the job that owns the hash. */
  lemma VerdictsDifferWhenSplit(jobs: Jobs, n: NewJob) returns (out': CreateResult)
    requires GoodJobs(jobs) && BoundInput(n) && IdAndHashSplit(jobs, n)
    ensures MemoryAdmits(jobs, n, Conflict, jobs) && PgAdmits(jobs, n, out', jobs)
    ensures VerdictOf(out', jobs, n).Proceeds? && VerdictOf(Conflict, jobs, n).Refused?
  {
    var id :| id in jobs && jobs[id].requestHash == n.requestHash;
    out' := Existing(jobs[id]);
    assert Clashes(jobs[id], n);
  }

  /** Exactly when the two adapters give every `accept` the same verdict. */
  lemma VerdictsAgreeIff(jobs: Jobs, n: NewJob)
    requires GoodJobs(jobs) && BoundInput(n)
    ensures (forall out, jobs', out', jobs'' | MemoryAdmits(jobs, n, out, jobs') && PgAdmits(jobs, n, out', jobs'') ::
               VerdictOf(out, jobs', n) == VerdictOf(out', jobs'', n))
            <==> !IdAndHashSplit(jobs, n)
  {
    if IdAndHashSplit(jobs, n) {
      var out' := VerdictsDifferWhenSplit(jobs, n);
      assert MemoryAdmits(jobs, n, Conflict, jobs) && PgAdmits(jobs, n, out', jobs);
    } else {
      forall out, jobs', out', jobs'' | MemoryAdmits(jobs, n, out, jobs') && PgAdmits(jobs, n, out', jobs'')
        ensures VerdictOf(out, jobs', n) == VerdictOf(out', jobs'', n)
      {
        VerdictsAgreeUnlessSplit(jobs, n, out, jobs', out', jobs'');
      }
    }
  }
}
