/** Where the relay stops: leases that are refused once and for all, and submissions that stay without a
    transaction id (relayer/src/v2-service.ts:89-103, 281-359). */
module RelayLimits {
  import opened Wrappers
  import opened JsText
  import opened RelayTypes
  import opened RelayTable
  import opened RelayJobs
  import opened RelayProtocol
  import opened RelaySafety
  import opened RelayTheorems

  // ------------------------------------------------------------- refused leases

  /** A validated job that its own stage is not about to lease. */
  predicate Parked(s: State, id: Text)
  {
    && id in s.jobs && (s.jobs[id].status.Validated? || s.jobs[id].status.RecoveryRequired?)
    && !(s.stage.Some? && s.stage.value.Reserving? && s.stage.value.id == id)
  }

  lemma ParkedStays(s: State, ch: Change, s': State, id: Text)
    requires Changed(s.jobs, ch, s'.jobs) && Caused(s, ch) && StageMoves(s, s') && Parked(s, id)
    ensures Parked(s', id)
  {
  }

  /** A refusal of the lease is final: the retry that `runWalletStage` schedules never moves the job on.
      It stays `validated` until a restart ends it as `recovery_required`. */
  lemma {:induction false} RefusedLeaseIsFinal(h: History, i: nat, k: nat, id: Text)
    requires IsRun(h) && i <= k < |h.states|
    requires h.states[i].stage == Some(Refused(id)) && id in h.states[i].jobs && h.states[i].jobs[id].status.Validated?
    ensures Parked(h.states[k], id)
    decreases k
  {
    if k > i {
      RefusedLeaseIsFinal(h, i, k - 1, id);
      ParkedStaysAt(h, k - 1, id);
    }
  }

  lemma ParkedStaysAt(h: History, k: nat, id: Text)
    requires IsRun(h) && k < |h.events| && Parked(h.states[k], id)
    ensures Parked(h.states[k + 1], id)
  {
    var ch := ChangeAt(h, k);
    ParkedStays(h.states[k], ch, h.states[k + 1], id);
  }

  // ------------------------------------------------ the one request for a lease

  /** The job is past `authorized` and its own stage is not about to ask for the lease. */
  predicate Tried(s: State, id: Text)
  {
    && id in s.jobs && |s.jobs[id].transitions| >= 2
    && !(s.stage.Some? && s.stage.value.Reserving? && s.stage.value.id == id)
  }

  lemma PastAuthorized(j: Job)
    requires Lawful(j) && |j.transitions| >= 2
    ensures !j.status.Authorized?
  {
    assert Edge(j.transitions[|j.transitions| - 2], j.transitions[|j.transitions| - 1]);
  }

  lemma TriedStays(s: State, s': State, id: Text)
    requires Inv(s) && StageMoves(s, s') && Extends(s.jobs, s'.jobs) && Tried(s, id)
    ensures Tried(s', id)
  {
    assert Grows(s.jobs[id], s'.jobs[id]) && Lawful(s.jobs[id]);
    PastAuthorized(s.jobs[id]);
  }

  lemma {:induction false} TriedForGood(h: History, i: nat, k: nat, id: Text)
    requires IsRun(h) && i <= k < |h.states| && Tried(h.states[i], id)
    ensures Tried(h.states[k], id)
    decreases k
  {
    if i < k {
      TriedForGood(h, i, k - 1, id);
      TriedStaysAt(h, k - 1, id);
    }
  }

  lemma TriedStaysAt(h: History, k: nat, id: Text)
    requires IsRun(h) && k < |h.events| && Tried(h.states[k], id)
    ensures Tried(h.states[k + 1], id)
  {
    var _ := ChangeAt(h, k);
    TriedStays(h.states[k], h.states[k + 1], id);
  }

  /** A stage that asks for the lease has validated its job. */
  predicate AsksValidated(s: State)
  {
    s.stage.Some? && s.stage.value.Reserving? ==> s.stage.value.id in s.jobs && |s.jobs[s.stage.value.id].transitions| >= 2
  }

  lemma AsksValidatedStays(s: State, s': State)
    requires Inv(s) && AsksValidated(s) && StageMoves(s, s') && Extends(s.jobs, s'.jobs)
    ensures AsksValidated(s')
  {
    if s'.stage.Some? && s'.stage.value.Reserving? {
      var id := s'.stage.value.id;
      assert id in s.jobs && Grows(s.jobs[id], s'.jobs[id]) && Lawful(s.jobs[id]);
    }
  }

  lemma {:induction false} AlwaysAsksValidated(h: History, k: nat)
    requires IsRun(h) && k < |h.states|
    ensures AsksValidated(h.states[k])
  {
    if k > 0 {
      AlwaysAsksValidated(h, k - 1);
      AsksValidatedAt(h, k - 1);
    }
  }

  lemma AsksValidatedAt(h: History, k: nat)
    requires IsRun(h) && k < |h.events| && AsksValidated(h.states[k])
    ensures AsksValidated(h.states[k + 1])
  {
    var _ := ChangeAt(h, k);
    AsksValidatedStays(h.states[k], h.states[k + 1]);
  }

  /** Step k asks for the lease of this job. */
  predicate AsksFor(h: History, k: nat, id: Text)
    requires |h.states| == |h.events| + 1
  {
    k < |h.events| && h.events[k].ReserveLease? && h.states[k].stage.Some? && h.states[k].stage.value.Reserving? && h.states[k].stage.value.id == id
  }

  /** At a request for the lease: won exactly by a validated job while no other job is leased, and lost
      without a change otherwise. */
  lemma LeaseRequest(h: History, k: nat, id: Text)
    requires IsRun(h) && AsksFor(h, k, id)
    ensures id in h.states[k].jobs && id in h.states[k + 1].jobs && Tried(h.states[k + 1], id)
    ensures if h.states[k].jobs[id].status.Validated? && LeaseFreeBeside(h.states[k].jobs, id)
            then h.states[k + 1].stage.Some? && h.states[k + 1].stage.value.Reserved? && h.states[k + 1].jobs[id].status.DustReserved?
                 && h.states[k + 1].jobs[id].dustReservationId == Some(h.events[k].reservationId)
            else h.states[k + 1].stage == Some(Refused(id)) && h.states[k + 1].jobs == h.states[k].jobs
  {
    InvAlways(h, k);
    AlwaysAsksValidated(h, k);
    assert Step(h.states[k], h.events[k], h.states[k + 1]);
    var jobs := h.states[k].jobs;
    assert LeaseTaken(jobs, id) <==> !LeaseFreeBeside(jobs, id) by {
      forall other | other in jobs ensures jobs[other].id == other {}
    }
  }

  /** A job asks for the lease once in a run. */
  lemma AsksOnce(h: History, i: nat, k: nat, id: Text)
    requires IsRun(h) && AsksFor(h, i, id) && AsksFor(h, k, id)
    ensures i == k
  {
    var a, b := if i < k then i else k, if i < k then k else i;
    if a < b {
      LeaseRequest(h, a, id);
      TriedForGood(h, a + 1, b, id);
    }
  }

  /** Step k is a request for the lease of a validated job while no other job is leased. */
  predicate WinsLease(h: History, k: nat, id: Text)
    requires |h.states| == |h.events| + 1
  {
    AsksFor(h, k, id) && id in h.states[k].jobs && h.states[k].jobs[id].status.Validated? && LeaseFreeBeside(h.states[k].jobs, id)
  }

  lemma LeaseEntersJournal(jobs: Jobs, ch: Change, jobs': Jobs, id: Text)
    requires Changed(jobs, ch, jobs') && id in jobs' && DustReserved in jobs'[id].transitions
    ensures (id in jobs && DustReserved in jobs[id].transitions) || (ch.Lease? && ch.id == id)
  {
    if ch.Move? { assert Target(ch.call) != DustReserved; }
  }

  predicate EverLeased(s: State, id: Text) { id in s.jobs && DustReserved in s.jobs[id].transitions }

  lemma LeaseIsJournaled(h: History, k: nat, id: Text)
    requires IsRun(h) && k < |h.events| && WinsLease(h, k, id)
    ensures EverLeased(h.states[k + 1], id)
  {
    LeaseRequest(h, k, id);
    InvAlways(h, k + 1);
    assert Lawful(h.states[k + 1].jobs[id]);
  }

  lemma LeasedAtStep(h: History, k: nat, id: Text)
    requires IsRun(h) && k < |h.events|
    ensures EverLeased(h.states[k + 1], id) <==> EverLeased(h.states[k], id) || WinsLease(h, k, id)
  {
    var ch := ChangeAt(h, k);
    if WinsLease(h, k, id) {
      LeaseIsJournaled(h, k, id);
    } else if EverLeased(h.states[k], id) {
      JournalKeeps(h.states[k].jobs[id], h.states[k + 1].jobs[id], DustReserved);
    } else if EverLeased(h.states[k + 1], id) {
      LeaseEntersJournal(h.states[k].jobs, ch, h.states[k + 1].jobs, id);
      LeaseRequest(h, k, id);
    }
  }

  /** A job has been leased exactly when, at its one request, it was validated and no other job was leased. */
  lemma {:induction false} LeasedIffFreeAtRequest(h: History, n: nat, id: Text)
    requires IsRun(h) && n < |h.states|
    ensures EverLeased(h.states[n], id) <==> exists k :: 0 <= k < n && WinsLease(h, k, id)
    decreases n
  {
    if n > 0 {
      LeasedIffFreeAtRequest(h, n - 1, id);
      LeasedAtStep(h, n - 1, id);
    }
  }

  // --------------------------------------------------------- stranded submissions

  /** A submitted job without a transaction id that no stage is working on. */
  predicate Stranded(s: State, id: Text)
  {
    && id in s.jobs && s.jobs[id].status.Submitted? && s.jobs[id].transactionId.None?
    && (s.stage.Some? ==> BeforeLease(s.stage.value))
  }

  lemma NoLeaseBeside(jobs: Jobs, id: Text)
    requires id in jobs && jobs[id].id == id && jobs[id].status.Submitted?
    ensures forall other, r :: ReserveDust(jobs, other, r).0.None? && ReserveDust(jobs, other, r).1 == jobs
  {
    forall other, r ensures ReserveDust(jobs, other, r).0.None? && ReserveDust(jobs, other, r).1 == jobs {
      assert other != id ==> LeaseTaken(jobs, other);
    }
  }

  /** The indexer's answers are about jobs with a transaction id. */
  lemma AnswersNameOthers(s: State, id: Text, moved: Text, c: Call)
    requires TasksOk(s.jobs, s.tasks) && Caused(s, Move(moved, c)) && Stranded(s, id) && (c.Confirm? || c.RejectByIndexer?)
    ensures moved != id
  {
    if c.Confirm? {
      var t :| t in s.tasks && s.tasks[t] == Confirming(moved, c.receipt);
      assert TaskOk(s.jobs, s.tasks[t]);
    } else {
      var t :| t in s.tasks && s.tasks[t] == Rejecting(moved, c.code);
      assert TaskOk(s.jobs, s.tasks[t]);
    }
  }

  lemma StrandedUnmoved(s: State, id: Text, moved: Text, c: Call)
    requires TasksOk(s.jobs, s.tasks) && Caused(s, Move(moved, c)) && Stranded(s, id)
    ensures id in Do(s.jobs, moved, c) && Do(s.jobs, moved, c)[id] == s.jobs[id]
  {
    if c.Confirm? || c.RejectByIndexer? { AnswersNameOthers(s, id, moved, c); }
  }

  lemma StrandedRowStays(s: State, ch: Change, jobs': Jobs, id: Text)
    requires Inv(s) && Changed(s.jobs, ch, jobs') && Caused(s, ch) && Stranded(s, id)
    ensures id in jobs' && jobs'[id] == s.jobs[id]
  {
    if ch.Move? { StrandedUnmoved(s, id, ch.id, ch.call); }
    if ch.Lease? { NoLeaseBeside(s.jobs, id); }
  }

  lemma StrandedStays(s: State, ch: Change, s': State, id: Text)
    requires Inv(s) && Changed(s.jobs, ch, s'.jobs) && Caused(s, ch) && LogMoves(s, s') && StageMoves(s, s') && Stranded(s, id)
    ensures Stranded(s', id) && s'.log == s.log
  {
    StrandedRowStays(s, ch, s'.jobs, id);
    NoLeaseBeside(s.jobs, id);
  }

  /** A submitted job without a transaction id that no stage works on wedges the relay for good: it keeps the
      lease, and no later step of the run ever calls the wallet again. */
  lemma {:induction false} StrandedJobWedgesRelay(h: History, c: nat, k: nat, id: Text)
    requires IsRun(h) && c <= k < |h.states| && Stranded(h.states[c], id)
    ensures Stranded(h.states[k], id) && h.states[k].log == h.states[c].log
    decreases k
  {
    if c < k {
      StrandedJobWedgesRelay(h, c, k - 1, id);
      StrandedStaysAt(h, k - 1, id);
    }
  }

  lemma StrandedStaysAt(h: History, k: nat, id: Text)
    requires IsRun(h) && k < |h.events| && Stranded(h.states[k], id)
    ensures Stranded(h.states[k + 1], id) && h.states[k + 1].log == h.states[k].log
  {
    var ch := ChangeAt(h, k);
    StrandedStays(h.states[k], ch, h.states[k + 1], id);
  }

  /** A crash strands every submitted job without a transaction id. */
  lemma CrashStrands(h: History, c: nat, id: Text)
    requires IsRun(h) && c < |h.events| && h.events[c].Crash?
    requires id in h.states[c].jobs && h.states[c].jobs[id].status.Submitted? && h.states[c].jobs[id].transactionId.None?
    ensures Stranded(h.states[c + 1], id)
  {
    CrashClears(h, c);
  }
}
