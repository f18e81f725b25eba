/** Pieces of runs: what the relay does when clients, wallet and indexer behave in a given way. */
module RelayRuns {
  import opened Wrappers
  import opened JsText
  import opened RelayTypes
  import opened RelayTable
  import opened RelayJobs
  import opened RelayProtocol
  import opened RelaySafety
  import opened RelayTheorems

  function Last(h: History): State
    requires h.states != []
  {
    h.states[|h.states| - 1]
  }

  const EMPTY: State := State(map[], map[], map[], {}, [], None, multiset{}, map[], [])

  const NO_HISTORY: History := History([EMPTY], [])

  ghost predicate IsCalm(a: History, b: History)
  {
    forall i | |a.events| <= i < |b.events| :: !b.events[i].Crash?
  }

  /** `b` is a run that goes on from `a`. */
  ghost predicate Continues(a: History, b: History)
  {
    IsRun(b) && a.states != [] && a.states <= b.states && a.events <= b.events
  }

  /** ... without a crash in between. */
  ghost predicate Onward(a: History, b: History) { Continues(a, b) && IsCalm(a, b) }

  lemma OnwardTransitive(a: History, b: History, c: History)
    requires Onward(a, b) && Onward(b, c)
    ensures Onward(a, c)
  {
    forall i | |a.events| <= i < |c.events| ensures !c.events[i].Crash? {
      assert i < |b.events| ==> c.events[i] == b.events[i];
    }
  }

  lemma ContinuesTransitive(a: History, b: History, c: History)
    requires Continues(a, b) && Continues(b, c)
    ensures Continues(a, c)
  {
  }

  lemma OneStep(h: History, e: Event, s: State) returns (g: History)
    requires IsRun(h) && Step(Last(h), e, s)
    ensures Continues(h, g) && Last(g) == s && g.events == h.events + [e]
    ensures !e.Crash? ==> Onward(h, g)
  {
    g := History(h.states + [s], h.events + [e]);
    forall i | 0 <= i < |g.events| ensures Step(g.states[i], g.events[i], g.states[i + 1]) {
      if i < |h.events| { assert Step(h.states[i], h.events[i], h.states[i + 1]); }
    }
  }

  /** One more step of a run that goes on from `a`. */
  lemma Extend(a: History, h: History, e: Event, s: State) returns (g: History)
    requires Onward(a, h) && Step(Last(h), e, s) && !e.Crash?
    ensures Onward(a, g) && Last(g) == s
  {
    g := OneStep(h, e, s);
    OnwardTransitive(a, h, g);
  }

  lemma Itself(h: History)
    requires IsRun(h)
    ensures Onward(h, h)
  {
  }

  lemma NoHistoryIsRun()
    ensures IsRun(NO_HISTORY) && Last(NO_HISTORY) == EMPTY
  {
  }

  // ------------------------------------------------------------------ accept

  predicate Presentable(req: Request, token: Token, now: int)
  {
    Parsed(req) && VerifyCapability(token, true, ClaimsFor(req), now).Some?
  }

  /** No job has the request's id, key or hash. */
  predicate Unused(jobs: Jobs, req: Request)
  {
    && req.actionId !in jobs
    && forall id | id in jobs :: jobs[id].id != req.actionId && jobs[id].idempotencyKey != req.idempotencyKey && jobs[id].requestHash != RequestHashOf(req)
  }

  function JobOf(req: Request, token: Token): Job { Fresh(InputOf(req, token)) }

  /** `accept` of an unused request up to the insertion of its job. */
  lemma Insertion(h0: History, t: nat, req: Request, token: Token, now: int) returns (h: History)
    requires IsRun(h0) && Presentable(req, token, now) && t !in Last(h0).tasks && Unused(Last(h0).jobs, req)
    ensures Onward(h0, h)
    ensures var s, j := Last(h0), JobOf(req, token);
            Last(h) == s.(jobs := s.jobs[j.id := j], tasks := s.tasks[t := KeyChecking(req, token, j, true)])
  {
    var s, j := Last(h0), JobOf(req, token);
    Itself(h0);
    h := Extend(h0, h0, Accept(t, req, token, true, now), s.(tasks := s.tasks[t := Admitting(req, token)]));
    var s1 := Last(h);
    var s2 := s1.(jobs := s.jobs[j.id := j], tasks := s1.tasks[t := KeyChecking(req, token, j, true)]);
    assert Admits(s1.jobs, InputOf(req, token), Created(j), s2.jobs);
    h := Extend(h0, h, Admit(t, Created(j)), s2);
    assert s2.tasks == s.tasks[t := KeyChecking(req, token, j, true)];
  }

  /** ... and on to the point where its key has been checked. */
  lemma Admission(h0: History, t: nat, req: Request, token: Token, now: int) returns (h: History)
    requires IsRun(h0) && Presentable(req, token, now) && t !in Last(h0).tasks && Unused(Last(h0).jobs, req)
    ensures Onward(h0, h)
    ensures var s, j := Last(h0), JobOf(req, token);
            Last(h) == s.(jobs := s.jobs[j.id := j], tasks := s.tasks[t := Consuming(req, token, j, true)])
  {
    var s, j := Last(h0), JobOf(req, token);
    h := Insertion(h0, t, req, token, now);
    var s1 := Last(h);
    assert !KeyClash(s1.jobs, req, token);
    h := Extend(h0, h, CheckKey(t), s1.(tasks := s1.tasks[t := Consuming(req, token, j, true)]));
    assert Last(h).tasks == s.tasks[t := Consuming(req, token, j, true)];
  }

  lemma CapabilityUnused(h: History, req: Request, token: Token)
    requires IsRun(h) && token.claims == ClaimsFor(req) && req.actionId !in Last(h).jobs
    ensures CapabilityDigest(token) !in Last(h).caps
  {
    InvAlways(h, |h.states| - 1);
  }

  /** The state after an undisturbed `accept` of an unused request. */
  function Accepted(s: State, req: Request, token: Token): State
  {
    var j := JobOf(req, token);
    s.(jobs := s.jobs[j.id := j], caps := s.caps[CapabilityDigest(token) := ReservationOf(req, token)],
       transient := s.transient[j.id := Bytes(req.tx, None)], running := s.running + {j.id}, queue := s.queue + [j.id])
  }

  lemma Acceptance(h0: History, t: nat, req: Request, token: Token, now: int) returns (h: History)
    requires IsRun(h0) && Presentable(req, token, now) && t !in Last(h0).tasks && Unused(Last(h0).jobs, req)
    requires req.actionId !in Last(h0).running
    ensures Onward(h0, h) && Last(h) == Accepted(Last(h0), req, token)
  {
    var s, j := Last(h0), JobOf(req, token);
    CapabilityUnused(h0, req, token);
    h := Admission(h0, t, req, token, now);
    var s1 := Last(h);
    var s2 := s1.(caps := s.caps[CapabilityDigest(token) := ReservationOf(req, token)], tasks := s1.tasks[t := Attaching(req, token, j, true)]);
    h := Extend(h0, h, ConsumeCapability(t), s2);
    h := Extend(h0, h, Attach(t), Attached(s2, req, j, true).(tasks := s2.tasks - {t}));
    assert s2.tasks - {t} == s.tasks;
  }

  // ----------------------------------------------------------------- wallet

  predicate MovesRow(jobs: Jobs, id: Text, c: Call)
    requires id in jobs
  {
    Hits(jobs, id, c) && Do(jobs, id, c) == jobs[id := Patched(jobs[id], PatchOf(c))]
  }

  lemma MoveHits(h: History, id: Text, c: Call)
    requires IsRun(h) && id in Last(h).jobs && Last(h).jobs[id].status in Expected(c) && !c.Confirm?
    ensures MovesRow(Last(h).jobs, id, c) && Patched(Last(h).jobs[id], PatchOf(c)).status == Target(c)
  {
    assert Last(h).jobs[id].receipt.None? by { NoReceiptYet(h, id); }
  }

  lemma NoReceiptYet(h: History, id: Text)
    requires IsRun(h) && id in Last(h).jobs && !Last(h).jobs[id].status.Confirmed?
    ensures Last(h).jobs[id].receipt.None?
  {
    ReceiptTruth(h, |h.states| - 1, id);
  }

  /** The wallet operation of an authorized job, up to its first compare-and-set. */
  lemma Beginning(h0: History, id: Text) returns (h: History)
    requires IsRun(h0) && Last(h0).queue != [] && Last(h0).queue[0] == id && Last(h0).stage.None?
    requires id in Last(h0).jobs && Last(h0).jobs[id].status.Authorized? && id in Last(h0).transient
    ensures Onward(h0, h)
    ensures Last(h) == Last(h0).(queue := Last(h0).queue[1..], stage := Some(Validating(id, Last(h0).transient[id].unbound)))
  {
    var s := Last(h0);
    var s1 := s.(queue := s.queue[1..], stage := Some(Begun(id)));
    Itself(h0);
    h := Extend(h0, h0, BeginStage, s1);
    h := Extend(h0, h, ReadStage, s1.(stage := Some(Read(id, true))));
    h := Extend(h0, h, TakeBytes, s1.(stage := Some(Validating(id, s.transient[id].unbound))));
  }

  lemma Validation(h0: History, id: Text, tx: Text) returns (h: History)
    requires IsRun(h0) && Last(h0).stage == Some(Validating(id, tx)) && id in Last(h0).jobs && Last(h0).jobs[id].status.Authorized?
    ensures Onward(h0, h) && Last(h) == Last(h0).(jobs := Do(Last(h0).jobs, id, Validate), stage := Some(Reserving(id, tx)))
    ensures Last(h).jobs.Keys == Last(h0).jobs.Keys && Last(h).jobs[id].status.Validated?
    ensures forall other | other in Last(h0).jobs && other != id :: Last(h).jobs[other] == Last(h0).jobs[other]
  {
    var s := Last(h0);
    MoveHits(h0, id, Validate);
    h := OneStep(h0, CommitValidated, s.(jobs := Do(s.jobs, id, Validate), stage := Some(Reserving(id, tx))));
  }

  /** The lease is free, and won. */
  lemma Leasing(h0: History, id: Text, tx: Text, lease: Text) returns (h: History)
    requires IsRun(h0) && Last(h0).stage == Some(Reserving(id, tx)) && lease != []
    requires id in Last(h0).jobs && Last(h0).jobs[id].status.Validated? && LeaseFreeBeside(Last(h0).jobs, id)
    ensures Onward(h0, h)
    ensures var s := Last(h0);
            Last(h) == s.(jobs := s.jobs[id := WithLease(s.jobs[id], lease)], stage := Some(Reserved(id, tx)))
  {
    var s := Last(h0);
    InvAlways(h0, |h0.states| - 1);
    assert !LeaseTaken(s.jobs, id) by {
      forall other | other in s.jobs ensures s.jobs[other].id == other {}
    }
    h := OneStep(h0, ReserveLease(lease), s.(jobs := s.jobs[id := WithLease(s.jobs[id], lease)], stage := Some(Reserved(id, tx))));
  }

  /** Another job holds the lease. */
  lemma Refusal(h0: History, id: Text, tx: Text, lease: Text, other: Text) returns (h: History)
    requires IsRun(h0) && Last(h0).stage == Some(Reserving(id, tx)) && lease != []
    requires other in Last(h0).jobs && other != id && Leased(Last(h0).jobs[other].status)
    ensures Onward(h0, h) && Last(h) == Last(h0).(stage := Some(Refused(id)))
  {
    var s := Last(h0);
    InvAlways(h0, |h0.states| - 1);
    assert LeaseTaken(s.jobs, id) by { assert s.jobs[other].id == other; }
    h := OneStep(h0, ReserveLease(lease), s.(stage := Some(Refused(id))));
  }

  lemma BalanceCall(h0: History, id: Text, tx: Text) returns (h: History)
    requires IsRun(h0) && Last(h0).stage == Some(Reserved(id, tx))
    ensures Onward(h0, h) && Last(h) == Last(h0).(log := Last(h0).log + [Balance(id, tx)], stage := Some(Balancing(id, tx)))
  {
    h := OneStep(h0, CallBalance, Last(h0).(log := Last(h0).log + [Balance(id, tx)], stage := Some(Balancing(id, tx))));
  }

  lemma BalanceAnswer(h0: History, id: Text, tx: Text, finalized: Text, derivedId: Option<Text>) returns (h: History)
    requires IsRun(h0) && Last(h0).stage == Some(Balancing(id, tx)) && NonEmptyId(derivedId)
    ensures Onward(h0, h)
    ensures Last(h) == Last(h0).(transient := Last(h0).transient[id := Bytes(tx, Some(finalized))],
                                 log := Last(h0).log + [Balanced(id, finalized)], stage := Some(Finalizing(id, finalized, derivedId)))
  {
    var s := Last(h0);
    h := OneStep(h0, BalanceReturns(Some((finalized, derivedId))),
                 s.(transient := s.transient[id := Bytes(tx, Some(finalized))], log := s.log + [Balanced(id, finalized)],
                    stage := Some(Finalizing(id, finalized, derivedId))));
  }

  /** The finalized transaction and then the intent to submit it are journaled. */
  lemma Finalization(h0: History, id: Text, finalized: Text, derivedId: Option<Text>) returns (h: History)
    requires IsRun(h0) && Last(h0).stage == Some(Finalizing(id, finalized, derivedId)) && id in Last(h0).jobs && Last(h0).jobs[id].status.DustReserved?
    ensures Onward(h0, h)
    ensures Last(h) == Last(h0).(jobs := Do(Last(h0).jobs, id, Finalize(derivedId)), stage := Some(Intending(id, finalized, derivedId)))
    ensures id in Last(h).jobs && Last(h).jobs[id].status.Finalized? && Last(h).jobs[id].transactionId == derivedId
  {
    var s := Last(h0);
    assert s.jobs[id].transactionId.None? by { InvAlways(h0, |h0.states| - 1); assert Lawful(s.jobs[id]); }
    MoveHits(h0, id, Finalize(derivedId));
    h := OneStep(h0, CommitFinalized, s.(jobs := Do(s.jobs, id, Finalize(derivedId)), stage := Some(Intending(id, finalized, derivedId))));
  }

  lemma Intention(h0: History, id: Text, finalized: Text, derivedId: Option<Text>) returns (h: History)
    requires IsRun(h0) && Last(h0).stage == Some(Intending(id, finalized, derivedId)) && id in Last(h0).jobs && Last(h0).jobs[id].status.Finalized?
    ensures Onward(h0, h)
    ensures Last(h) == Last(h0).(jobs := Do(Last(h0).jobs, id, Intend), stage := Some(Intended(id, finalized, derivedId)))
    ensures id in Last(h).jobs && Last(h).jobs[id].status.Submitted? && Last(h).jobs[id].transactionId == Last(h0).jobs[id].transactionId
  {
    var s := Last(h0);
    MoveHits(h0, id, Intend);
    h := OneStep(h0, CommitIntent, s.(jobs := Do(s.jobs, id, Intend), stage := Some(Intended(id, finalized, derivedId))));
  }

  lemma SubmitCall(h0: History, id: Text, finalized: Text, derivedId: Option<Text>) returns (h: History)
    requires IsRun(h0) && Last(h0).stage == Some(Intended(id, finalized, derivedId))
    ensures Onward(h0, h)
    ensures Last(h) == Last(h0).(log := Last(h0).log + [Submit(id, finalized)], stage := Some(Submitting(id, finalized, derivedId)))
  {
    h := OneStep(h0, CallSubmit, Last(h0).(log := Last(h0).log + [Submit(id, finalized)], stage := Some(Submitting(id, finalized, derivedId))));
  }

  lemma SubmitAnswer(h0: History, id: Text, finalized: Text, derivedId: Option<Text>, answer: Option<Text>) returns (h: History)
    requires IsRun(h0) && Last(h0).stage == Some(Submitting(id, finalized, derivedId)) && (answer.Some? ==> !Blank(answer.value))
    ensures Onward(h0, h)
    ensures Last(h) == Last(h0).(transient := Last(h0).transient - {id}, stage := Some(Settling(id, derivedId, SettlementOf(derivedId, answer))))
  {
    var s := Last(h0);
    h := OneStep(h0, SubmitReturns(answer), s.(transient := s.transient - {id}, stage := Some(Settling(id, derivedId, SettlementOf(derivedId, answer)))));
  }

  /** A settled job has left `submitted`. */
  lemma Settles(h0: History, id: Text, derivedId: Option<Text>, x: Settlement) returns (h: History)
    requires IsRun(h0) && Last(h0).stage == Some(Settling(id, derivedId, x)) && id in Last(h0).jobs && Last(h0).jobs[id].status.Submitted?
    ensures Onward(h0, h) && Last(h) == Last(h0).(jobs := Do(Last(h0).jobs, id, Settle(x)), stage := Some(Ended(id)))
    ensures Last(h).jobs.Keys == Last(h0).jobs.Keys && Last(h).jobs[id].status == Target(Settle(x))
    ensures forall other | other in Last(h0).jobs && other != id :: Last(h).jobs[other] == Last(h0).jobs[other]
  {
    var s := Last(h0);
    MoveHits(h0, id, Settle(x));
    h := OneStep(h0, CommitSettlement, s.(jobs := Do(s.jobs, id, Settle(x)), stage := Some(Ended(id))));
  }

  function Wiped(s: State): State { State(s.jobs, s.caps, map[], {}, [], None, multiset{}, map[], s.log) }

  lemma Crashing(h0: History) returns (h: History)
    requires IsRun(h0)
    ensures Continues(h0, h) && Last(h) == Wiped(Last(h0)) && h.events == h0.events + [Crash]
  {
    h := OneStep(h0, Crash, Wiped(Last(h0)));
  }
}
