/** What every store operation keeps true of the jobs table: lawful journals, true receipts, one lease,
    unique identities, and a history that is only ever extended. */
module RelayJobs {
  import opened Wrappers
  import opened JsText
  import opened RelayTypes
  import opened RelayTable

  // ---------------------------------------------------------------- journals

  function Rank(s: Status): nat
  {
    match s
    case Authorized => 0
    case Validated => 1
    case DustReserved => 2
    case Finalized => 3
    case Submitted => 4
    case IndexerPending => 5
    case _ => 6
  }

  /** The edges of the job lifecycle. */
  predicate Edge(a: Status, b: Status)
  {
    match b
    case Authorized => false
    case Validated => a.Authorized?
    case DustReserved => a.Validated?
    case Finalized => a.DustReserved?
    case Submitted => a.Finalized?
    case IndexerPending => a.Submitted?
    case Confirmed => a.Submitted? || a.IndexerPending?
    case Failed => a.Authorized? || a.DustReserved? || a.Submitted? || a.IndexerPending?
    case RecoveryRequired => PreSubmit(a) || a.Submitted?
  }

  predicate LawfulJournal(ts: seq<Status>)
  {
    && ts != [] && ts[0] == Authorized
    && forall i | 0 <= i < |ts| - 1 :: Edge(ts[i], ts[i + 1])
  }

  lemma {:induction false} RanksRise(ts: seq<Status>, i: nat, j: nat)
    requires LawfulJournal(ts) && i < j < |ts|
    ensures Rank(ts[i]) + (j - i) <= Rank(ts[j])
    decreases j
  {
    assert Edge(ts[j - 1], ts[j]);
    if i < j - 1 { RanksRise(ts, i, j - 1); }
  }

  /** A lawful journal visits no status twice and has at most seven entries. */
  lemma JournalIsShort(ts: seq<Status>)
    requires LawfulJournal(ts)
    ensures |ts| <= 7
    ensures forall i, j | 0 <= i < j < |ts| :: ts[i] != ts[j]
  {
    if |ts| > 1 { RanksRise(ts, 0, |ts| - 1); }
    forall i, j | 0 <= i < j < |ts| ensures ts[i] != ts[j] { RanksRise(ts, i, j); }
  }

  /** A status that outranks the last one is not in the journal yet. */
  lemma NotYet(ts: seq<Status>, s: Status)
    requires LawfulJournal(ts) && Rank(ts[|ts| - 1]) < Rank(s)
    ensures s !in ts
  {
    forall i | 0 <= i < |ts| ensures ts[i] != s {
      if i < |ts| - 1 { RanksRise(ts, i, |ts| - 1); }
    }
  }

  // ------------------------------------------------------------- one job

  /** The stored identity is that of one verified request: its capability names this job, and its
      request hash is the hash of the job's own public fields and journaled transaction. */
  predicate Bound(j: Job)
  {
    && j.capabilityDigest.CapabilityDigest?
    && j.capabilityDigest.token.claims == Claims(j.id, j.idempotencyKey, j.network, j.contractAddress, j.circuit, j.action, j.requestHash)
    && j.txDigest.TxDigest? && IsLower(j.txDigest.tx)
    && j.requestHash == RequestHash(HashedFields(j.network, j.contractAddress, j.circuit, j.action, j.txDigest.tx))
  }

  predicate Lawful(j: Job)
  {
    && LawfulJournal(j.transitions) && j.transitions[|j.transitions| - 1] == j.status
    && (j.receipt.Some? <==> j.status.Confirmed?)
    && (j.errorCode.Some? <==> j.status.Failed? || j.status.RecoveryRequired?)
    && (j.dustReservationId.Some? <==> DustReserved in j.transitions)
    && (j.dustReservationId.Some? ==> j.dustReservationId.value != [])
    && (Rank(j.status) <= 2 ==> j.transactionId.None?)
    && (j.status.IndexerPending? || j.status.Confirmed? ==> j.transactionId.Some?)
    && (j.transactionId.Some? ==> j.transactionId.value != [])
    && (j.receipt.Some? ==> Answers(j.receipt.value, JobQuery(j)) && Sanitize(j.receipt.value).Some?)
    && Bound(j)
  }

  predicate SameIdentity(a: Job, b: Job)
  {
    a.id == b.id && a.idempotencyKey == b.idempotencyKey && a.capabilityDigest == b.capabilityDigest
    && a.requestHash == b.requestHash && a.txDigest == b.txDigest && a.network == b.network
    && a.contractAddress == b.contractAddress && a.circuit == b.circuit && a.action == b.action
  }

  /** How a job may change: its identity stays, its journal is extended, its transaction id and its
      receipt are written once, and a terminal job does not change at all. */
  predicate Grows(a: Job, b: Job)
  {
    && SameIdentity(a, b)
    && a.transitions <= b.transitions
    && (a.transactionId.Some? ==> b.transactionId == a.transactionId)
    && (a.receipt.Some? ==> b.receipt == a.receipt)
    && (a.dustReservationId.Some? ==> b.dustReservationId == a.dustReservationId)
    && (Terminal(a.status) ==> b == a)
  }

  /** What the service knows when it makes a call on a job in an expected status. */
  predicate Justified(j: Job, c: Call)
  {
    match c
    case Finalize(d) => d.Some? ==> d.value != []
    case Settle(s) => s.Pending? ==> s.transactionId != [] && (j.transactionId.Some? ==> j.transactionId.value == s.transactionId)
    case Confirm(r) => j.transactionId.Some? && Answers(r, JobQuery(j))
    case _ => true
  }

  lemma JournalGrows(ts: seq<Status>, s: Status)
    requires LawfulJournal(ts) && Edge(ts[|ts| - 1], s)
    ensures LawfulJournal(ts + [s])
  {
    var us := ts + [s];
    forall i | 0 <= i < |us| - 1 ensures Edge(us[i], us[i + 1]) {
      if i < |ts| - 1 { assert Edge(ts[i], ts[i + 1]); }
    }
  }

  lemma PatchKeepsLawful(j: Job, c: Call)
    requires Lawful(j) && j.status in Expected(c) && Justified(j, c) && (c.Confirm? ==> Sanitize(c.receipt).Some?)
    ensures Lawful(Patched(j, PatchOf(c))) && Grows(j, Patched(j, PatchOf(c)))
  {
    assert Edge(j.status, Target(c));
    JournalGrows(j.transitions, Target(c));
  }

  lemma LeaseKeepsLawful(j: Job, reservationId: Text)
    requires Lawful(j) && j.status.Validated? && reservationId != []
    ensures Lawful(WithLease(j, reservationId)) && Grows(j, WithLease(j, reservationId))
  {
    JournalGrows(j.transitions, DustReserved);
    NotYet(j.transitions, DustReserved);
  }

  // ------------------------------------------------------------- the table

  predicate Keyed(jobs: Jobs)
  {
    && (forall id | id in jobs :: jobs[id].id == id)
    && forall id {:trigger Lawful(jobs[id])} | id in jobs :: Lawful(jobs[id])
  }

  predicate Unique(jobs: Jobs)
  {
    forall a, b | a in jobs && b in jobs && a != b ::
      jobs[a].idempotencyKey != jobs[b].idempotencyKey && jobs[a].requestHash != jobs[b].requestHash
  }

  predicate OneLease(jobs: Jobs)
  {
    forall a, b | a in jobs && b in jobs && Leased(jobs[a].status) && Leased(jobs[b].status) :: a == b
  }

  predicate GoodJobs(jobs: Jobs) { Keyed(jobs) && Unique(jobs) && OneLease(jobs) }

  predicate Extends(jobs: Jobs, jobs': Jobs)
  {
    && (forall id | id in jobs :: id in jobs')
    && forall id {:trigger Grows(jobs[id], jobs'[id])} | id in jobs :: Grows(jobs[id], jobs'[id])
  }

  predicate LeaseFreeBeside(jobs: Jobs, id: Text)
  {
    forall other | other in jobs && other != id :: !Leased(jobs[other].status)
  }

  lemma GrowsReflexive(j: Job)
    ensures Grows(j, j)
  {
  }

  lemma ReplaceKeepsKeyed(jobs: Jobs, id: Text, next: Job)
    requires Keyed(jobs) && id in jobs && Lawful(next) && next.id == id
    ensures Keyed(jobs[id := next])
  {
    var jobs' := jobs[id := next];
    forall k | k in jobs' ensures Lawful(jobs'[k]) { assert k != id ==> Lawful(jobs[k]); }
  }

  lemma ReplaceKeepsUnique(jobs: Jobs, id: Text, next: Job)
    requires Unique(jobs) && id in jobs && next.idempotencyKey == jobs[id].idempotencyKey && next.requestHash == jobs[id].requestHash
    ensures Unique(jobs[id := next])
  {
  }

  lemma ReplaceKeepsLease(jobs: Jobs, id: Text, next: Job)
    requires OneLease(jobs) && id in jobs && (Leased(next.status) ==> LeaseFreeBeside(jobs, id))
    ensures OneLease(jobs[id := next])
  {
  }

  lemma ReplaceExtends(jobs: Jobs, id: Text, next: Job)
    requires id in jobs && Grows(jobs[id], next)
    ensures Extends(jobs, jobs[id := next])
  {
    var jobs' := jobs[id := next];
    forall k | k in jobs ensures k in jobs' && Grows(jobs[k], jobs'[k]) { GrowsReflexive(jobs[k]); }
  }

  /** Rewriting one row lawfully keeps the whole table good. */
  lemma ReplaceKeepsJobs(jobs: Jobs, id: Text, next: Job)
    requires GoodJobs(jobs) && id in jobs && Lawful(next) && Grows(jobs[id], next)
    requires Leased(next.status) ==> LeaseFreeBeside(jobs, id)
    ensures GoodJobs(jobs[id := next]) && Extends(jobs, jobs[id := next])
  {
    assert jobs[id].id == id && SameIdentity(jobs[id], next);
    ReplaceKeepsKeyed(jobs, id, next);
    ReplaceKeepsUnique(jobs, id, next);
    ReplaceKeepsLease(jobs, id, next);
    ReplaceExtends(jobs, id, next);
  }

  lemma MoveKeepsJobs(jobs: Jobs, id: Text, c: Call)
    requires GoodJobs(jobs) && (id in jobs && jobs[id].status in Expected(c) ==> Justified(jobs[id], c))
    ensures GoodJobs(Do(jobs, id, c)) && Extends(jobs, Do(jobs, id, c))
  {
    if Hits(jobs, id, c) {
      var j := jobs[id];
      assert Lawful(j);
      PatchKeepsLawful(j, c);
      assert Leased(Target(c)) ==> Leased(j.status);
      ReplaceKeepsJobs(jobs, id, Patched(j, PatchOf(c)));
    } else {
      SameExtends(jobs);
    }
  }

  lemma SameExtends(jobs: Jobs)
    ensures Extends(jobs, jobs)
  {
    forall k | k in jobs ensures Grows(jobs[k], jobs[k]) { GrowsReflexive(jobs[k]); }
  }

  lemma ReserveKeepsJobs(jobs: Jobs, id: Text, reservationId: Text)
    requires GoodJobs(jobs) && reservationId != []
    ensures GoodJobs(ReserveDust(jobs, id, reservationId).1) && Extends(jobs, ReserveDust(jobs, id, reservationId).1)
  {
    if ReserveDust(jobs, id, reservationId).0.Some? {
      assert Lawful(jobs[id]);
      LeaseKeepsLawful(jobs[id], reservationId);
      forall other | other in jobs && other != id ensures !Leased(jobs[other].status) { assert jobs[other].id == other; }
      ReplaceKeepsJobs(jobs, id, WithLease(jobs[id], reservationId));
    } else {
      SameExtends(jobs);
    }
  }

  predicate BoundInput(n: NewJob) { Bound(Fresh(n)) }

  lemma AdmitKeepsUnique(jobs: Jobs, n: NewJob, out: CreateResult, jobs': Jobs)
    requires Unique(jobs) && Admits(jobs, n, out, jobs') && out.Created?
    ensures Unique(jobs')
  {
    forall a, b | a in jobs' && b in jobs' && a != b
      ensures jobs'[a].idempotencyKey != jobs'[b].idempotencyKey && jobs'[a].requestHash != jobs'[b].requestHash
    {
      assert a != n.id ==> !SameRow(jobs[a], n);
      assert b != n.id ==> !SameRow(jobs[b], n);
    }
  }

  lemma FreshIsLawful(n: NewJob)
    requires BoundInput(n)
    ensures Lawful(Fresh(n))
  {
  }

  lemma InsertKeepsRest(jobs: Jobs, j: Job)
    requires Keyed(jobs) && OneLease(jobs) && j.id !in jobs && Lawful(j) && !Leased(j.status)
    ensures Keyed(jobs[j.id := j]) && OneLease(jobs[j.id := j]) && Extends(jobs, jobs[j.id := j])
  {
    var jobs' := jobs[j.id := j];
    forall k | k in jobs' ensures Lawful(jobs'[k]) { assert k != j.id ==> Lawful(jobs[k]); }
    forall k | k in jobs ensures k in jobs' && Grows(jobs[k], jobs'[k]) { GrowsReflexive(jobs[k]); }
  }

  lemma AdmitKeepsJobs(jobs: Jobs, n: NewJob, out: CreateResult, jobs': Jobs)
    requires GoodJobs(jobs) && BoundInput(n) && Admits(jobs, n, out, jobs')
    ensures GoodJobs(jobs') && Extends(jobs, jobs')
    ensures !out.Conflict? ==> out.job.id in jobs' && jobs'[out.job.id] == out.job && out.job.requestHash == n.requestHash
    ensures out.Created? ==> out.job.capabilityDigest == n.capabilityDigest && out.job.status.Authorized?
  {
    if out.Created? {
      FreshIsLawful(n);
      InsertKeepsRest(jobs, out.job);
      AdmitKeepsUnique(jobs, n, out, jobs');
    } else {
      SameExtends(jobs);
    }
  }

  lemma {:induction false} GrowsTransitive(a: Job, b: Job, c: Job)
    requires Grows(a, b) && Grows(b, c)
    ensures Grows(a, c)
  {
  }

  lemma ExtendsTransitive(a: Jobs, b: Jobs, c: Jobs)
    requires Extends(a, b) && Extends(b, c)
    ensures Extends(a, c)
  {
    forall id | id in a ensures id in c && Grows(a[id], c[id]) {
      assert Grows(a[id], b[id]) && Grows(b[id], c[id]);
      GrowsTransitive(a[id], b[id], c[id]);
    }
  }

  /** Two jobs never share a capability digest: the token names the job. */
  lemma CapabilityDigestsDiffer(jobs: Jobs, a: Text, b: Text)
    requires GoodJobs(jobs) && a in jobs && b in jobs && jobs[a].capabilityDigest == jobs[b].capabilityDigest
    ensures a == b
  {
    assert Lawful(jobs[a]) && Lawful(jobs[b]);
  }
}
