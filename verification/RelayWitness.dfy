/** Runs that reach the outcomes the relay's wording does not lead one to expect. */
module RelayWitness {
  import opened Wrappers
  import opened JsText
  import opened RelayTypes
  import opened RelayTable
  import opened RelayJobs
  import opened RelayProtocol
  import opened RelaySafety
  import opened RelayTheorems
  import opened RelayPostgres
  import RelayStore
  import opened RelayLimits
  import opened RelayRuns

  // --------------------------------------------------------------- the replay

  lemma SecondAdmit(h0: History, req: Request, token: Token, now: int) returns (h: History)
    requires IsRun(h0) && Presentable(req, token, now) && req.actionId in Last(h0).jobs && Last(h0).jobs[req.actionId] == JobOf(req, token)
    requires 1 !in Last(h0).tasks
    ensures Onward(h0, h) && Last(h) == Last(h0).(tasks := Last(h0).tasks[1 := KeyChecking(req, token, JobOf(req, token), false)])
  {
    var s, j := Last(h0), JobOf(req, token);
    Itself(h0);
    h := Extend(h0, h0, Accept(1, req, token, true, now), s.(tasks := s.tasks[1 := Admitting(req, token)]));
    assert SameRow(s.jobs[j.id], InputOf(req, token));
    var s1 := Last(h);
    h := Extend(h0, h, Admit(1, Existing(j)), s1.(tasks := s1.tasks[1 := KeyChecking(req, token, j, false)]));
    assert Last(h).tasks == s.tasks[1 := KeyChecking(req, token, j, false)];
  }

  /** An identical second `accept`, up to its own consume, while the first one still waits for its own. */
  lemma SecondAccept(h0: History, req: Request, token: Token, now: int) returns (h: History)
    requires IsRun(h0) && Presentable(req, token, now) && req.actionId in Last(h0).jobs && Last(h0).jobs[req.actionId] == JobOf(req, token)
    requires 1 !in Last(h0).tasks
    ensures Onward(h0, h) && Last(h) == Last(h0).(tasks := Last(h0).tasks[1 := Consuming(req, token, JobOf(req, token), false)])
  {
    var s, j := Last(h0), JobOf(req, token);
    h := SecondAdmit(h0, req, token, now);
    assert !KeyClash(s.jobs, req, token) by {
      InvAlways(h0, |h0.states| - 1);
      forall id | id in s.jobs && s.jobs[id].idempotencyKey == req.idempotencyKey ensures id == j.id {}
    }
    var s2 := Last(h);
    h := Extend(h0, h, CheckKey(1), s2.(tasks := s2.tasks[1 := Consuming(req, token, j, false)]));
    assert Last(h).tasks == s.tasks[1 := Consuming(req, token, j, false)];
  }

  /** The retry consumes first, and the creator finds its capability used. */
  lemma RetryConsumesFirst(h0: History, req: Request, token: Token) returns (h: History)
    requires IsRun(h0) && CapabilityDigest(token) !in Last(h0).caps && token.claims == ClaimsFor(req)
    requires 0 in Last(h0).tasks && 1 in Last(h0).tasks
    requires Last(h0).tasks[0] == Consuming(req, token, JobOf(req, token), true) && Last(h0).tasks[1] == Consuming(req, token, JobOf(req, token), false)
    ensures Onward(h0, h) && Last(h).jobs == Last(h0).jobs && 0 in Last(h).tasks && Last(h).tasks[0] == Refusing(req.actionId)
  {
    var s, j := Last(h0), JobOf(req, token);
    var s1 := s.(tasks := s.tasks[1 := Attaching(req, token, j, false)], caps := s.caps[CapabilityDigest(token) := ReservationOf(req, token)]);
    Itself(h0);
    h := Extend(h0, h0, ConsumeCapability(1), s1);
    h := Extend(h0, h, ConsumeCapability(0), s1.(tasks := s1.tasks[0 := Refusing(j.id)]));
  }

  lemma ToRefusal(req: Request, token: Token, now: int) returns (h: History)
    requires Presentable(req, token, now)
    ensures Onward(NO_HISTORY, h) && 0 in Last(h).tasks && Last(h).tasks[0] == Refusing(req.actionId)
    ensures req.actionId in Last(h).jobs && Last(h).jobs[req.actionId] == JobOf(req, token)
  {
    NoHistoryIsRun();
    var h1 := Admission(NO_HISTORY, 0, req, token, now);
    var h2 := SecondAccept(h1, req, token, now);
    OnwardTransitive(NO_HISTORY, h1, h2);
    h := RetryConsumesFirst(h2, req, token);
    OnwardTransitive(NO_HISTORY, h2, h);
  }

  /** Two identical `accept` calls can race: the retry consumes the capability between the first call's
      insert and its own consume, and the job that was just created is failed as replayed. */
  lemma CapabilityReplayedIsReachable(req: Request, token: Token, now: int) returns (h: History)
    requires Presentable(req, token, now)
    ensures Onward(NO_HISTORY, h) && req.actionId in Last(h).jobs
    ensures Last(h).jobs[req.actionId].status.Failed? && Last(h).jobs[req.actionId].errorCode == Some(CapabilityReplayed)
  {
    h := ToRefusal(req, token, now);
    var s := Last(h);
    MoveHits(h, req.actionId, Replayed);
    h := Extend(NO_HISTORY, h, Refuse(0), s.(jobs := Do(s.jobs, req.actionId, Replayed), tasks := s.tasks - {0}));
  }

  // -------------------------------------------------------- a job in flight

  /** From an idle relay, a request is accepted and brought to the journaled intent to submit it; the wallet
      derives no transaction id. */
  lemma ToIntent(h0: History, req: Request, token: Token, now: int, finalized: Text, lease: Text) returns (h: History)
    requires IsRun(h0) && Last(h0) == EMPTY && Presentable(req, token, now) && lease != []
    ensures Onward(h0, h) && Last(h).stage == Some(Intended(req.actionId, finalized, None))
    ensures Last(h).queue == [] && Last(h).running == {req.actionId} && Last(h).tasks == map[]
    ensures Last(h).jobs.Keys == {req.actionId} && Last(h).jobs[req.actionId].status.Submitted? && Last(h).jobs[req.actionId].transactionId.None?
    ensures SameIdentity(Last(h).jobs[req.actionId], JobOf(req, token))
  {
    var id := req.actionId;
    var h1 := ToLease(h0, req, token, now, lease);
    var h2 := BalanceCall(h1, id, req.tx);
    OnwardTransitive(h0, h1, h2);
    var h3 := BalanceAnswer(h2, id, req.tx, finalized, None);
    OnwardTransitive(h0, h2, h3);
    var h4 := Finalization(h3, id, finalized, None);
    OnwardTransitive(h0, h3, h4);
    h := Intention(h4, id, finalized, None);
    OnwardTransitive(h0, h4, h);
  }

  lemma ToLease(h0: History, req: Request, token: Token, now: int, lease: Text) returns (h: History)
    requires IsRun(h0) && Last(h0) == EMPTY && Presentable(req, token, now) && lease != []
    ensures Onward(h0, h) && Last(h).stage == Some(Reserved(req.actionId, req.tx))
    ensures Last(h).queue == [] && Last(h).running == {req.actionId} && Last(h).tasks == map[]
    ensures Last(h).jobs.Keys == {req.actionId} && Last(h).jobs[req.actionId].status.DustReserved?
    ensures SameIdentity(Last(h).jobs[req.actionId], JobOf(req, token))
  {
    var id := req.actionId;
    var h1 := Acceptance(h0, 0, req, token, now);
    var h2 := Beginning(h1, id);
    OnwardTransitive(h0, h1, h2);
    var h3 := Validation(h2, id, req.tx);
    OnwardTransitive(h0, h2, h3);
    h := Leasing(h3, id, req.tx, lease);
    OnwardTransitive(h0, h3, h);
  }

  /** The state that wedges the relay is reachable by a crash at the submission boundary. */
  lemma LostSubmissionIsReachable(req: Request, token: Token, now: int, finalized: Text, lease: Text) returns (h: History)
    requires Presentable(req, token, now) && lease != []
    ensures IsRun(h) && |h.events| > 0 && h.events[|h.events| - 1].Crash? && Stranded(Last(h), req.actionId)
  {
    NoHistoryIsRun();
    h := ToIntent(NO_HISTORY, req, token, now, finalized, lease);
    h := Crashing(h);
  }

  /** ... and without any crash: the node's answer is lost, and so is the store's. */
  lemma LostSubmissionWithoutCrash(req: Request, token: Token, now: int, finalized: Text, lease: Text) returns (h: History)
    requires Presentable(req, token, now) && lease != []
    ensures Onward(NO_HISTORY, h) && Stranded(Last(h), req.actionId)
  {
    NoHistoryIsRun();
    var id := req.actionId;
    var h1 := ToIntent(NO_HISTORY, req, token, now, finalized, lease);
    var h2 := SubmitCall(h1, id, finalized, None);
    OnwardTransitive(NO_HISTORY, h1, h2);
    var h3 := SubmitAnswer(h2, id, finalized, None, None);
    OnwardTransitive(NO_HISTORY, h2, h3);
    h := Extend(NO_HISTORY, h3, AbortStage, Last(h3).(stage := Some(Ended(id))));
  }

  // ------------------------------------------------------------- two requests

  predicate Apart(a: Request, b: Request)
  {
    a.actionId != b.actionId && a.idempotencyKey != b.idempotencyKey && RequestHashOf(a) != RequestHashOf(b)
  }

  /** A first request is submitted and waits for the indexer, holding the lease. */
  lemma ToPending(req: Request, token: Token, now: int, finalized: Text, lease: Text, txId: Text) returns (h: History)
    requires Presentable(req, token, now) && lease != [] && !Blank(txId)
    ensures Onward(NO_HISTORY, h) && Last(h).stage.None? && Last(h).queue == [] && Last(h).running == {req.actionId} && Last(h).tasks == map[]
    ensures Last(h).jobs.Keys == {req.actionId} && Last(h).jobs[req.actionId].status.IndexerPending?
    ensures SameIdentity(Last(h).jobs[req.actionId], JobOf(req, token))
  {
    NoHistoryIsRun();
    var id := req.actionId;
    var h1 := ToIntent(NO_HISTORY, req, token, now, finalized, lease);
    var h2 := SubmitCall(h1, id, finalized, None);
    OnwardTransitive(NO_HISTORY, h1, h2);
    var h3 := SubmitAnswer(h2, id, finalized, None, Some(txId));
    OnwardTransitive(NO_HISTORY, h2, h3);
    var h4 := Settles(h3, id, None, Pending(txId));
    OnwardTransitive(NO_HISTORY, h3, h4);
    h := Extend(NO_HISTORY, h4, EndStage, Last(h4).(stage := None));
  }

  /** While one job waits for the indexer, the next one is refused the lease, and by `RefusedLeaseIsFinal` that
      is the end of it. */
  lemma RefusedLeaseIsReachable(a: Request, ta: Token, b: Request, tb: Token, now: int, finalized: Text, lease: Text, txId: Text) returns (h: History)
    requires Presentable(a, ta, now) && Presentable(b, tb, now) && Apart(a, b) && lease != [] && !Blank(txId)
    ensures Onward(NO_HISTORY, h) && Last(h).stage == Some(Stage.Refused(b.actionId))
    ensures b.actionId in Last(h).jobs && Last(h).jobs[b.actionId].status.Validated?
  {
    var id := b.actionId;
    var h1 := ToPending(a, ta, now, finalized, lease, txId);
    var h2 := Acceptance(h1, 0, b, tb, now);
    OnwardTransitive(NO_HISTORY, h1, h2);
    var h3 := Beginning(h2, id);
    OnwardTransitive(NO_HISTORY, h2, h3);
    var h4 := Validation(h3, id, b.tx);
    OnwardTransitive(NO_HISTORY, h3, h4);
    h := Refusal(h4, id, b.tx, lease, a.actionId);
    OnwardTransitive(NO_HISTORY, h4, h);
  }

  lemma TwoAccepted(a: Request, ta: Token, b: Request, tb: Token, now: int) returns (h: History)
    requires Presentable(a, ta, now) && Presentable(b, tb, now) && Apart(a, b)
    ensures Onward(NO_HISTORY, h) && Last(h).jobs == map[a.actionId := JobOf(a, ta), b.actionId := JobOf(b, tb)] && GoodJobs(Last(h).jobs)
  {
    var h1 := OneAccepted(a, ta, now);
    UnusedBeside(a, ta, b);
    h := Acceptance(h1, 0, b, tb, now);
    OnwardTransitive(NO_HISTORY, h1, h);
    TableIsGood(h);
  }

  lemma UnusedBeside(a: Request, ta: Token, b: Request)
    requires Apart(a, b)
    ensures Unused(map[a.actionId := JobOf(a, ta)], b)
  {
  }

  lemma TableIsGood(h: History)
    requires IsRun(h)
    ensures GoodJobs(Last(h).jobs)
  {
    InvAlways(h, |h.states| - 1);
  }

  lemma OneAccepted(a: Request, ta: Token, now: int) returns (h: History)
    requires Presentable(a, ta, now)
    ensures Onward(NO_HISTORY, h) && Last(h).jobs == map[a.actionId := JobOf(a, ta)] && Last(h).running == {a.actionId} && Last(h).tasks == map[]
  {
    NoHistoryIsRun();
    h := Acceptance(NO_HISTORY, 0, a, ta, now);
  }

  lemma IsSplit(a: Request, ta: Token, b: Request, tb: Token, jobs: Jobs, c: Request, tc: Token)
    requires Apart(a, b) && jobs == map[a.actionId := JobOf(a, ta), b.actionId := JobOf(b, tb)]
    requires c == b.(actionId := a.actionId, idempotencyKey := c.idempotencyKey) && c.idempotencyKey != a.idempotencyKey && c.idempotencyKey != b.idempotencyKey
    ensures IdAndHashSplit(jobs, InputOf(c, tc))
  {
    assert RequestHashOf(c) == RequestHashOf(b);
    assert jobs[b.actionId].requestHash == RequestHashOf(c);
  }

  lemma MixedIsParsed(a: Request, b: Request, key: Text)
    requires Parsed(a) && Parsed(b) && !Blank(key)
    ensures Parsed(b.(actionId := a.actionId, idempotencyKey := key))
  {
  }

  /** The case in which the adapters part is reachable: after two requests, a new key presents the first one's
      id with the second one's transaction, under a valid capability. Memory refuses; PostgreSQL may go on. */
  lemma SplitIsReachable(a: Request, ta: Token, b: Request, tb: Token, now: int, key: Text, wire: Text)
    returns (h: History, c: Request, tc: Token, answer: CreateResult)
    requires Presentable(a, ta, now) && Presentable(b, tb, now) && Apart(a, b)
    requires !Blank(key) && key != a.idempotencyKey && key != b.idempotencyKey
    ensures Onward(NO_HISTORY, h) && Presentable(c, tc, now) && c == b.(actionId := a.actionId, idempotencyKey := key)
    ensures GoodJobs(Last(h).jobs) && BoundInput(InputOf(c, tc)) && IdAndHashSplit(Last(h).jobs, InputOf(c, tc))
    ensures RelayStore.MemoryAdmits(Last(h).jobs, InputOf(c, tc), Conflict, Last(h).jobs)
    ensures PgAdmits(Last(h).jobs, InputOf(c, tc), answer, Last(h).jobs) && VerdictOf(answer, Last(h).jobs, InputOf(c, tc)).Proceeds?
  {
    c := b.(actionId := a.actionId, idempotencyKey := key);
    tc := Token(ClaimsFor(c), now + 1, wire);
    MixedIsParsed(a, b, key);
    h := TwoAccepted(a, ta, b, tb, now);
    IsSplit(a, ta, b, tb, Last(h).jobs, c, tc);
    InputIsBound(c, tc);
    answer := VerdictsDifferWhenSplit(Last(h).jobs, InputOf(c, tc));
  }
}
