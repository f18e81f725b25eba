/** The in-memory adapter as the object it is (relayer/src/v2-store.ts:32-158), and the restart pass that
    the service makes over it (relayer/src/v2-service.ts:89-103). */
module RelayStore {
  import opened Wrappers
  import opened JsText
  import opened RelayTypes
  import opened RelayTable

  /** How the in-memory adapter picks: the row under the id if there is one, otherwise a row with the same
      key or request hash. */
  ghost predicate MemoryAdmits(jobs: Jobs, n: NewJob, out: CreateResult, jobs': Jobs)
  {
    if n.id in jobs then
      jobs' == jobs && out == (if jobs[n.id].requestHash == n.requestHash then Existing(jobs[n.id]) else Conflict)
    else if forall id | id in jobs :: !SameRow(jobs[id], n) then
      out == Created(Fresh(n)) && jobs' == jobs[n.id := Fresh(n)]
    else
      && jobs' == jobs
      && exists id :: id in jobs && SameRow(jobs[id], n)
                      && out == (if jobs[id].requestHash == n.requestHash then Existing(jobs[id]) else Conflict)
  }

  predicate Reconcilable(j: Job)
  {
    (j.status.Submitted? || j.status.IndexerPending?) && j.transactionId.Some? && j.transactionId.value != []
  }

  /** The table after the start pass has handled the listed ids. */
  function RecoveredOnly(jobs: Jobs, ids: set<Text>): Jobs
  {
    map id | id in jobs :: if id in ids && PreSubmit(jobs[id].status) then Patched(jobs[id], PatchOf(Recover)) else jobs[id]
  }

  /** A stored receipt has been through `sanitizeCanonicalReceipt`. */
  predicate Clean(j: Job) { j.receipt.Some? ==> Sanitize(j.receipt.value).Some? }

  /** One turn of the start pass. */
  lemma RecoverTurn(before: Jobs, done: set<Text>, id: Text)
    requires id in before && id !in done && Clean(before[id])
    ensures RecoveredOnly(before, done + {id}) ==
            if Reconcilable(before[id]) then RecoveredOnly(before, done)
            else Transition(RecoveredOnly(before, done), id, Expected(Recover), PatchOf(Recover)).1
  {
    assert RecoveredOnly(before, done)[id] == before[id];
  }

  lemma PassComplete(before: Jobs, done: set<Text>)
    requires forall id | id in before && Recoverable(before[id].status) :: id in done
    ensures RecoveredOnly(before, done) == Recovered(before)
  {
  }

  class InMemoryV2ActionStore {
    var jobs: Jobs
    /** The insertion order of the JavaScript map. */
    var order: seq<Text>
    var capabilities: Capabilities

    ghost predicate Valid()
      reads this
    {
      && (forall id :: id in jobs <==> id in order)
      && (forall i, j | 0 <= i < j < |order| :: order[i] != order[j])
      && (forall id | id in jobs :: jobs[id].id == id)
      && (forall id | id in jobs :: Clean(jobs[id]))
    }

    constructor ()
      ensures Valid() && jobs == map[] && capabilities == map[]
    {
      jobs, order, capabilities := map[], [], map[];
    }

    /** `createOrGet`: of several matching rows the earliest inserted one decides. */
    method CreateOrGet(n: NewJob) returns (out: CreateResult)
      requires Valid()
      modifies this`jobs, this`order
      ensures Valid() && MemoryAdmits(old(jobs), n, out, jobs)
      ensures out.Created? <==> order == old(order) + [n.id]
      ensures n.id !in old(jobs) && !out.Created? ==>
                exists i :: 0 <= i < |order| && SameRow(jobs[order[i]], n) && (forall k | 0 <= k < i :: !SameRow(jobs[order[k]], n))
                            && (out.Existing? <==> jobs[order[i]].requestHash == n.requestHash) && (out.Existing? ==> out.job == jobs[order[i]])
    {
      if n.id in jobs {
        return if jobs[n.id].requestHash == n.requestHash then Existing(jobs[n.id]) else Conflict;
      }
      for i := 0 to |order|
        invariant forall k | 0 <= k < i :: !SameRow(jobs[order[k]], n)
      {
        if SameRow(jobs[order[i]], n) {
          return if jobs[order[i]].requestHash == n.requestHash then Existing(jobs[order[i]]) else Conflict;
        }
      }
      forall id | id in jobs ensures !SameRow(jobs[id], n) {
        var k :| 0 <= k < |order| && order[k] == id;
      }
      jobs, order := jobs[n.id := Fresh(n)], order + [n.id];
      out := Created(Fresh(n));
    }

    method GetByIdempotencyKey(key: Text) returns (found: Option<Job>)
      requires Valid()
      ensures found.None? <==> forall id | id in jobs :: jobs[id].idempotencyKey != key
      ensures found.Some? ==> found.value.id in jobs && jobs[found.value.id] == found.value && found.value.idempotencyKey == key
    {
      for i := 0 to |order|
        invariant forall k | 0 <= k < i :: jobs[order[k]].idempotencyKey != key
      {
        if jobs[order[i]].idempotencyKey == key { return Some(jobs[order[i]]); }
      }
      forall id | id in jobs ensures jobs[id].idempotencyKey != key {
        var k :| 0 <= k < |order| && order[k] == id;
      }
      found := None;
    }

    method ConsumeCapability(r: Reservation) returns (ok: bool)
      requires Valid()
      modifies this`capabilities
      ensures Valid() && (ok, capabilities) == Consume(old(capabilities), r)
    {
      if r.digest in capabilities { return false; }
      capabilities := capabilities[r.digest := r];
      ok := true;
    }

    method TransitionJob(id: Text, expected: set<Status>, patch: Patch) returns (out: MoveResult)
      requires Valid()
      modifies this`jobs
      ensures Valid() && (out, jobs) == Transition(old(jobs), id, expected, patch)
    {
      if id !in jobs || jobs[id].status !in expected { return Missed; }
      var next := Patched(jobs[id], patch);
      if next.receipt.Some? && Sanitize(next.receipt.value).None? { return BadReceipt; }
      jobs := jobs[id := next];
      out := Moved(next);
    }

    method ReserveDustLease(id: Text, reservationId: Text) returns (out: Option<Job>)
      requires Valid()
      modifies this`jobs
      ensures Valid() && (out, jobs) == ReserveDust(old(jobs), id, reservationId)
    {
      var active := false;
      for i := 0 to |order|
        invariant active <==> exists k :: 0 <= k < i && jobs[order[k]].id != id && Leased(jobs[order[k]].status)
      {
        if jobs[order[i]].id != id && Leased(jobs[order[i]].status) { active := true; }
      }
      assert active <==> LeaseTaken(jobs, id) by {
        if other :| other in jobs && jobs[other].id != id && Leased(jobs[other].status) {
          var k :| 0 <= k < |order| && order[k] == other;
        }
      }
      if id !in jobs || !jobs[id].status.Validated? || active { return None; }
      var next := WithLease(jobs[id], reservationId);
      jobs := jobs[id := next];
      out := Some(next);
    }

    method ListRecoverable() returns (listed: seq<Job>)
      requires Valid()
      ensures forall j :: j in listed <==> j.id in jobs && jobs[j.id] == j && Recoverable(j.status)
      ensures forall i, k | 0 <= i < k < |listed| :: listed[i].id != listed[k].id
    {
      listed := [];
      for i := 0 to |order|
        invariant forall j :: j in listed <==> j.id in order[..i] && jobs[j.id] == j && Recoverable(j.status)
        invariant forall a, b | 0 <= a < b < |listed| :: listed[a].id != listed[b].id
      {
        assert order[..i + 1] == order[..i] + [order[i]];
        if Recoverable(jobs[order[i]].status) { listed := listed + [jobs[order[i]]]; }
      }
      assert order[..|order|] == order;
    }

    /** `start`, when nothing else touches the store meanwhile: every job that was waiting before its
        submission is ended as `recovery_required`, nothing else changes, and exactly the jobs with a
        transaction id to look up are scheduled for reconciliation. */
    method Start() returns (scheduled: set<Text>)
      requires Valid()
      modifies this`jobs
      ensures Valid() && jobs == Recovered(old(jobs))
      ensures forall id :: id in scheduled <==> id in old(jobs) && Reconcilable(old(jobs)[id])
    {
      var listed := ListRecoverable();
      scheduled := {};
      ghost var before := jobs;
      ghost var done: set<Text> := {};
      for i := 0 to |listed|
        invariant Valid()
        invariant done == set k | 0 <= k < i :: listed[k].id
        invariant forall id :: id in scheduled <==> id in done && Reconcilable(before[id])
        invariant jobs == RecoveredOnly(before, done)
      {
        var job := listed[i];
        assert job in listed && job.id !in done;
        RecoverTurn(before, done, job.id);
        if Reconcilable(job) {
          scheduled := scheduled + {job.id};
        } else {
          var _ := TransitionJob(job.id, Expected(Recover), PatchOf(Recover));
        }
        done := done + {job.id};
      }
      forall id | id in before && Recoverable(before[id].status) ensures id in done {
        assert before[id] in listed;
      }
      PassComplete(before, done);
    }
  }
}
