/** Wallet work can go on if and only if no submission is stranded: the exact reach of the failure that
    `RelayLimits.StrandedJobWedgesRelay` describes (relayer/src/v2-service.ts:89-103, 233-268, 281-359). */
module RelayProgress {
  import opened Wrappers
  import opened JsText
  import opened RelayTypes
  import opened RelayTable
  import opened RelayJobs
  import opened RelayProtocol
  import opened RelaySafety
  import opened RelayTheorems
  import opened RelayLimits
  import opened RelayRuns

  /** After its first n effects the history holds a call of the wallet, to balance or to submit. */
  predicate CallsWallet(log: seq<Effect>, n: nat)
  {
    exists i :: n <= i < |log| && (log[i].Balance? || log[i].Submit?)
  }

  /** Some continuation of the run calls the wallet again. */
  ghost predicate CanGoOn(h: History)
    requires h.states != []
  {
    exists g :: Continues(h, g) && CallsWallet(Last(g).log, |Last(h).log|)
  }

  // ------------------------------------------------------ the stage is settled

  /** No job is submitted without a transaction id. */
  predicate Clear(jobs: Jobs) { forall id | id in jobs :: !(jobs[id].status.Submitted? && jobs[id].transactionId.None?) }

  /** A submission that is not stranded is still in the hands of its stage. */
  lemma HeldByStage(h: History, id: Text)
    requires IsRun(h) && !Stranded(Last(h), id) && id in Last(h).jobs && Last(h).jobs[id].status.Submitted? && Last(h).jobs[id].transactionId.None?
    ensures Last(h).stage.Some?
    ensures var w := Last(h).stage.value;
            w.id == id && (w.Intended? || w.Submitting? || w.Settling?) && (w.Submitting? ==> w.derivedId.None?)
  {
    InvAlways(h, |h.states| - 1);
    AlwaysWorksAlone(h, |h.states| - 1);
  }

  lemma SettledIsClear(h: History, id: Text, derivedId: Option<Text>, x: Settlement) returns (g: History)
    requires IsRun(h) && Last(h).stage == Some(Settling(id, derivedId, x)) && id in Last(h).jobs && Last(h).jobs[id].status.Submitted?
    ensures Continues(h, g) && Clear(Last(g).jobs) && Last(g).log == Last(h).log
  {
    InvAlways(h, |h.states| - 1);
    g := Settles(h, id, derivedId, x);
    forall other | other in Last(g).jobs ensures !(Last(g).jobs[other].status.Submitted? && Last(g).jobs[other].transactionId.None?) {
      if other != id { assert Last(g).jobs[other] == Last(h).jobs[other]; }
    }
  }

  /** Without a stranded job the wallet is called next, or no submission stays without an id. */
  lemma Unclog(h: History) returns (g: History)
    requires IsRun(h) && forall id :: !Stranded(Last(h), id)
    ensures Continues(h, g) && Last(h).log <= Last(g).log
    ensures CallsWallet(Last(g).log, |Last(h).log|) || Clear(Last(g).jobs)
  {
    Itself(h);
    g := h;
    if !Clear(Last(h).jobs) {
      var id :| id in Last(h).jobs && Last(h).jobs[id].status.Submitted? && Last(h).jobs[id].transactionId.None?;
      HeldByStage(h, id);
      g := UnclogStage(h, id);
    }
  }

  lemma UnclogStage(h: History, id: Text) returns (g: History)
    requires IsRun(h) && id in Last(h).jobs && Last(h).jobs[id].status.Submitted? && Last(h).jobs[id].transactionId.None?
    requires Last(h).stage.Some?
    requires var w := Last(h).stage.value;
             w.id == id && (w.Intended? || w.Submitting? || w.Settling?) && (w.Submitting? ==> w.derivedId.None?)
    ensures Continues(h, g) && Last(h).log <= Last(g).log
    ensures CallsWallet(Last(g).log, |Last(h).log|) || Clear(Last(g).jobs)
  {
    match Last(h).stage.value
    case Intended(_, finalized, derivedId) =>
      g := SubmitCall(h, id, finalized, derivedId);
      assert Last(g).log[|Last(h).log|].Submit?;
    case Submitting(_, finalized, derivedId) =>
      assert !Blank([48]) by { assert !Space(48); assert [48 as CodeUnit][0] == 48; }
      var g1 := SubmitAnswer(h, id, finalized, None, Some([48]));
      g := SettledIsClear(g1, id, None, Pending([48]));
      ContinuesTransitive(h, g1, g);
    case Settling(_, derivedId, x) =>
      g := SettledIsClear(h, id, derivedId, x);
  }

  // ------------------------------------------------------- the lease is freed

  /** A restarted relay: nothing volatile but the tasks. */
  predicate Idle(s: State) { s.stage.None? && s.queue == [] && s.running == {} && 1 !in s.tasks }

  /** The recoverable jobs in some order. */
  lemma {:induction false} Listed(jobs: Jobs, ids: set<Text>) returns (listed: seq<Job>)
    requires ids <= jobs.Keys && forall id | id in jobs :: jobs[id].id == id
    ensures forall j :: j in listed <==> j.id in ids && jobs[j.id] == j && Recoverable(j.status)
    decreases |ids|
  {
    listed := [];
    if ids != {} {
      var id :| id in ids;
      var rest := Listed(jobs, ids - {id});
      listed := if Recoverable(jobs[id].status) then [jobs[id]] + rest else rest;
      forall j ensures j in listed <==> j.id in ids && jobs[j.id] == j && Recoverable(j.status) {
        assert j.id in ids <==> j.id == id || j.id in ids - {id};
      }
    }
  }

  lemma StartListing(h: History, listed: seq<Job>) returns (g: History)
    requires IsRun(h) && Last(h) == Wiped(Last(h))
    requires forall j :: j in listed <==> j.id in Last(h).jobs && Last(h).jobs[j.id] == j && Recoverable(j.status)
    ensures Onward(h, g) && Last(g) == Last(h).(tasks := map[0 := Recovering(listed)])
  {
    var s := Last(h);
    Itself(h);
    g := Extend(h, h, Start(0), s.(tasks := map[0 := Listing]));
    g := Extend(h, g, List(0, listed), s.(tasks := map[0 := Recovering(listed)]));
  }

  lemma RecoverFirst(h: History, listed: seq<Job>) returns (g: History)
    requires IsRun(h) && Last(h).tasks == map[0 := Recovering(listed)] && listed != [] && PreSubmit(listed[0].status)
    ensures Onward(h, g)
    ensures Last(g) == Last(h).(jobs := Do(Last(h).jobs, listed[0].id, Recover), tasks := map[0 := Recovering(listed[1..])])
  {
    var s := Last(h);
    assert s.tasks[0] == Recovering(listed) && !LeftToReconcile(listed[0]);
    assert s.tasks[0 := Recovering(listed[1..])] == map[0 := Recovering(listed[1..])];
    g := OneStep(h, RecoverNext(0), s.(jobs := Do(s.jobs, listed[0].id, Recover), tasks := map[0 := Recovering(listed[1..])]));
  }

  /** The start pass ends a job that was interrupted before its submission. */
  lemma RecoverOne(h: History, id: Text) returns (g: History)
    requires IsRun(h) && Last(h) == Wiped(Last(h)) && id in Last(h).jobs && PreSubmit(Last(h).jobs[id].status)
    ensures Continues(h, g) && Idle(Last(g)) && Last(g).jobs == Do(Last(h).jobs, id, Recover) && Last(g).log == Last(h).log
  {
    var jobs := Last(h).jobs;
    assert forall k | k in jobs :: jobs[k].id == k by { InvAlways(h, |h.states| - 1); }
    var rest := Listed(jobs, jobs.Keys);
    var listed := [jobs[id]] + rest;
    var g1 := StartListing(h, listed);
    g := RecoverFirst(g1, listed);
    OnwardTransitive(h, g1, g);
  }

  function FailedTransaction(id: Text): IndexedTransaction { IndexedTransaction([], [id], [], [], 0, [], 0) }

  lemma FailedIsRejected(q: Query)
    ensures Resolve(Found(FailedTransaction(q.transactionId)), q) == Rejected(IndexerRejected)
  {
    assert |U("SUCCESS")| == 7;
    assert q.transactionId in [q.transactionId];
  }

  lemma ReadForReconcile(h: History, id: Text) returns (g: History)
    requires IsRun(h) && Last(h) == Wiped(Last(h)) && !Unreconcilable(Last(h).jobs, id)
    ensures Onward(h, g) && Last(g) == Last(h).(tasks := map[0 := Resolving(Last(h).jobs[id])])
  {
    var s := Last(h);
    Itself(h);
    g := Extend(h, h, Reconcile(0, id), s.(tasks := map[0 := Reading(id)]));
    g := Extend(h, g, ReadJob(0), s.(tasks := map[0 := Resolving(s.jobs[id])]));
  }

  lemma RejectResolving(h: History, job: Job) returns (g: History)
    requires IsRun(h) && Last(h).tasks == map[0 := Resolving(job)] && job.transactionId.Some?
    ensures Onward(h, g)
    ensures Last(g) == Last(h).(jobs := Do(Last(h).jobs, job.id, RejectByIndexer(IndexerRejected)), tasks := map[])
  {
    var s := Last(h);
    FailedIsRejected(JobQuery(job));
    Itself(h);
    g := Extend(h, h, AskIndexer(0, Found(FailedTransaction(job.transactionId.value))), s.(tasks := map[0 := Rejecting(job.id, IndexerRejected)]));
    g := Extend(h, g, CommitRejection(0), s.(jobs := Do(s.jobs, job.id, RejectByIndexer(IndexerRejected)), tasks := map[]));
  }

  /** The indexer reports a submitted transaction as failed. */
  lemma RejectOne(h: History, id: Text) returns (g: History)
    requires IsRun(h) && Last(h) == Wiped(Last(h)) && id in Last(h).jobs && Last(h).jobs[id].transactionId.Some?
    requires Last(h).jobs[id].status.Submitted? || Last(h).jobs[id].status.IndexerPending?
    ensures Continues(h, g) && Idle(Last(g)) && Last(g).jobs == Do(Last(h).jobs, id, RejectByIndexer(IndexerRejected)) && Last(g).log == Last(h).log
  {
    var job := Last(h).jobs[id];
    assert job.id == id && job.transactionId.value != [] by { InvAlways(h, |h.states| - 1); assert Lawful(job); }
    var g1 := ReadForReconcile(h, id);
    g := RejectResolving(g1, job);
    OnwardTransitive(h, g1, g);
  }

  lemma ConfirmResolving(h: History, job: Job, tx: IndexedTransaction) returns (g: History)
    requires IsRun(h) && Last(h).tasks == map[0 := Resolving(job)] && job.transactionId.Some? && Resolve(Found(tx), JobQuery(job)).Resolved?
    ensures Onward(h, g)
    ensures Last(g) == Last(h).(jobs := Do(Last(h).jobs, job.id, Confirm(Resolve(Found(tx), JobQuery(job)).receipt)), tasks := map[])
  {
    var s, r := Last(h), Resolve(Found(tx), JobQuery(job)).receipt;
    Itself(h);
    g := Extend(h, h, AskIndexer(0, Found(tx)), s.(tasks := map[0 := Confirming(job.id, r)]));
    g := Extend(h, g, CommitReceipt(0), s.(jobs := Do(s.jobs, job.id, Confirm(r)), tasks := map[]));
  }

  lemma ConfirmedRow(jobs: Jobs, id: Text, tx: IndexedTransaction)
    requires Keyed(jobs) && id in jobs && jobs[id].transactionId.Some? && Resolve(Found(tx), JobQuery(jobs[id])).Resolved?
    requires jobs[id].status.Submitted? || jobs[id].status.IndexerPending?
    ensures var jobs' := Do(jobs, id, Confirm(Resolve(Found(tx), JobQuery(jobs[id])).receipt)); id in jobs' && jobs'[id].status.Confirmed?
  {
    assert Lawful(jobs[id]);
    ResolvedReceiptIsTrue(Found(tx), JobQuery(jobs[id]));
  }

  /** A submitted job with a transaction id can be confirmed, after any restart, by every indexed transaction that
      carries the id, succeeded, touches the contract and has the receipt's fields. */
  lemma ConfirmationIsReachable(h: History, id: Text, tx: IndexedTransaction) returns (g: History)
    requires IsRun(h) && id in Last(h).jobs && Last(h).jobs[id].transactionId.Some?
    requires Last(h).jobs[id].status.Submitted? || Last(h).jobs[id].status.IndexerPending?
    requires var q := JobQuery(Last(h).jobs[id]);
             q.transactionId in tx.identifiers && tx.status == U("SUCCESS") && q.contractAddress in tx.contracts && Receiptable(tx, q)
    ensures Continues(h, g) && id in Last(g).jobs && Last(g).jobs[id].status.Confirmed?
  {
    var job := Last(h).jobs[id];
    AnswersDecide(Found(tx), JobQuery(job));
    assert Keyed(Last(h).jobs) by { InvAlways(h, |h.states| - 1); }
    assert job.id == id && job.transactionId.value != [] by { assert Lawful(job); }
    ConfirmedRow(Last(h).jobs, id, tx);
    var g1 := Crashing(h);
    var g2 := ReadForReconcile(g1, id);
    ContinuesTransitive(h, g1, g2);
    g := ConfirmResolving(g2, job, tx);
    ContinuesTransitive(h, g2, g);
  }

  // ------------------------------------------------------ a retry after a crash

  /** An exact retry of an authorized job, up to its admission. */
  lemma RetryAdmission(h: History, req: Request, token: Token, now: int) returns (g: History)
    requires IsRun(h) && Last(h).tasks == map[] && Presentable(req, token, now) && req.actionId in Last(h).jobs
    requires Last(h).jobs[req.actionId].requestHash == RequestHashOf(req)
    ensures Onward(h, g) && Last(g) == Last(h).(tasks := map[0 := KeyChecking(req, token, Last(h).jobs[req.actionId], false)])
  {
    var s, j := Last(h), Last(h).jobs[req.actionId];
    assert j.id == req.actionId by { InvAlways(h, |h.states| - 1); }
    Itself(h);
    g := Extend(h, h, Accept(0, req, token, true, now), s.(tasks := map[0 := Admitting(req, token)]));
    assert SameRow(j, InputOf(req, token));
    g := Extend(h, g, Admit(0, Existing(j)), s.(tasks := map[0 := KeyChecking(req, token, j, false)]));
  }

  lemma NoKeyClash(h: History, req: Request, token: Token)
    requires IsRun(h) && req.actionId in Last(h).jobs && Last(h).jobs[req.actionId].idempotencyKey == req.idempotencyKey
    requires Last(h).jobs[req.actionId].requestHash == RequestHashOf(req) && Last(h).jobs[req.actionId].capabilityDigest == CapabilityDigest(token)
    ensures !KeyClash(Last(h).jobs, req, token)
  {
    InvAlways(h, |h.states| - 1);
    forall id | id in Last(h).jobs && Last(h).jobs[id].idempotencyKey == req.idempotencyKey ensures id == req.actionId {}
  }

  lemma RetryChecked(h: History, req: Request, token: Token, j: Job) returns (g: History)
    requires IsRun(h) && Last(h).tasks == map[0 := KeyChecking(req, token, j, false)] && j.capabilityDigest == CapabilityDigest(token)
    requires !KeyClash(Last(h).jobs, req, token)
    ensures Onward(h, g)
    ensures Last(g) == Last(h).(caps := Consume(Last(h).caps, ReservationOf(req, token)).1, tasks := map[0 := Attaching(req, token, j, false)])
  {
    var s := Last(h);
    Itself(h);
    g := Extend(h, h, CheckKey(0), s.(tasks := map[0 := Consuming(req, token, j, false)]));
    g := Extend(h, g, ConsumeCapability(0),
                s.(caps := Consume(s.caps, ReservationOf(req, token)).1, tasks := map[0 := Attaching(req, token, j, false)]));
  }

  lemma RetryAttached(h: History, req: Request, token: Token, j: Job) returns (g: History)
    requires IsRun(h) && Last(h).tasks == map[0 := Attaching(req, token, j, false)] && j.status.Authorized? && j.id !in Last(h).running
    ensures Onward(h, g)
    ensures Last(g) == Last(h).(transient := Last(h).transient[j.id := Bytes(req.tx, None)], running := Last(h).running + {j.id},
                                queue := Last(h).queue + [j.id], tasks := map[])
  {
    var s := Last(h);
    g := OneStep(h, Attach(0), s.(transient := s.transient[j.id := Bytes(req.tx, None)], running := s.running + {j.id},
                                  queue := s.queue + [j.id], tasks := map[]));
  }

  /** A crash before the wallet stage loses no authorized job: its exact retry, with the same capability, brings the
      bytes back and the job is validated. */
  lemma RetryResumes(h: History, req: Request, token: Token, now: int) returns (g: History)
    requires IsRun(h) && Presentable(req, token, now) && req.actionId in Last(h).jobs
    requires var j := Last(h).jobs[req.actionId];
             && j.status.Authorized? && j.idempotencyKey == req.idempotencyKey && j.requestHash == RequestHashOf(req)
             && j.capabilityDigest == CapabilityDigest(token)
    ensures Continues(h, g) && req.actionId in Last(g).jobs && Last(g).jobs[req.actionId].status.Validated?
  {
    var j := Last(h).jobs[req.actionId];
    var g1 := Crashing(h);
    assert j.id == req.actionId by { InvAlways(h, |h.states| - 1); }
    var g2 := RetryAdmission(g1, req, token, now);
    ContinuesTransitive(h, g1, g2);
    NoKeyClash(g2, req, token);
    var g3 := RetryChecked(g2, req, token, j);
    ContinuesTransitive(h, g2, g3);
    var g4 := RetryAttached(g3, req, token, j);
    ContinuesTransitive(h, g3, g4);
    var g5 := Beginning(g4, j.id);
    ContinuesTransitive(h, g4, g5);
    g := Validation(g5, j.id, req.tx);
    ContinuesTransitive(h, g5, g);
  }

  predicate NoneLeased(jobs: Jobs) { forall id | id in jobs :: !Leased(jobs[id].status) }

  /** Ending the one leased job frees the lease. */
  lemma EndingFrees(h: History, id: Text, c: Call)
    requires IsRun(h) && id in Last(h).jobs && Leased(Last(h).jobs[id].status) && Last(h).jobs[id].status in Expected(c) && !c.Confirm? && Terminal(Target(c))
    ensures NoneLeased(Do(Last(h).jobs, id, c))
  {
    InvAlways(h, |h.states| - 1);
    MoveHits(h, id, c);
  }

  /** After a crash that strands nothing, the lease can be freed. */
  lemma FreeLease(h: History) returns (g: History)
    requires IsRun(h) && Last(h) == Wiped(Last(h)) && Clear(Last(h).jobs)
    ensures Continues(h, g) && Idle(Last(g)) && NoneLeased(Last(g).jobs) && Last(g).log == Last(h).log
  {
    if id :| id in Last(h).jobs && Leased(Last(h).jobs[id].status) {
      if PreSubmit(Last(h).jobs[id].status) {
        EndingFrees(h, id, Recover);
        g := RecoverOne(h, id);
      } else {
        InvAlways(h, |h.states| - 1);
        assert Lawful(Last(h).jobs[id]);
        EndingFrees(h, id, RejectByIndexer(IndexerRejected));
        g := RejectOne(h, id);
      }
    } else {
      Itself(h);
      g := h;
    }
  }

  // ------------------------------------------------------------ a new request

  function Zeros(n: nat): Text { seq(n, _ => 48) }

  lemma ZerosAreHex(n: nat)
    requires n > 0
    ensures IsLower(Zeros(n)) && !Blank(Zeros(n)) && (n % 2 == 0 ==> HexText(Zeros(n)))
  {
    assert Lower(Zeros(n)) == Zeros(n);
    assert !Space(Zeros(n)[0]);
  }

  /** A length that no id, key or transaction of the table reaches. */
  lemma {:induction false} Longer(jobs: Jobs, ids: set<Text>) returns (n: nat)
    requires ids <= jobs.Keys && forall id | id in jobs :: jobs[id].txDigest.TxDigest?
    ensures forall id | id in ids :: |id| < n && |jobs[id].idempotencyKey| < n && |jobs[id].txDigest.tx| < n
    decreases |ids|
  {
    n := 0;
    if ids != {} {
      var id :| id in ids;
      var m := Longer(jobs, ids - {id});
      n := m + |id| + |jobs[id].idempotencyKey| + |jobs[id].txDigest.tx| + 1;
    }
  }

  lemma TableShape(h: History)
    requires IsRun(h)
    ensures forall id | id in Last(h).jobs ::
              var j := Last(h).jobs[id];
              j.txDigest.TxDigest? && j.id == id && j.requestHash.RequestHash? && j.requestHash.fields.tx == j.txDigest.tx
  {
    InvAlways(h, |h.states| - 1);
    var jobs := Last(h).jobs;
    forall id | id in jobs
      ensures var j := jobs[id]; j.txDigest.TxDigest? && j.id == id && j.requestHash.RequestHash? && j.requestHash.fields.tx == j.txDigest.tx
    {
      assert Lawful(jobs[id]);
    }
  }

  function Renamed(like: Request, zeros: Text): Request { like.(actionId := zeros, idempotencyKey := zeros, tx := zeros) }

  lemma RenamedIsParsed(like: Request, zeros: Text)
    requires WellShaped(like) && IsLower(zeros) && !Blank(zeros) && HexText(zeros)
    ensures Parsed(Renamed(like, zeros))
  {
  }

  lemma ZerosIsParsed(like: Request, n: nat)
    requires WellShaped(like)
    ensures Parsed(Renamed(like, Zeros(2 * n + 2)))
  {
    ZerosAreHex(2 * n + 2);
    RenamedIsParsed(like, Zeros(2 * n + 2));
  }

  lemma LongerIsUnused(jobs: Jobs, req: Request, n: nat)
    requires forall id | id in jobs :: jobs[id].id == id && jobs[id].txDigest.TxDigest?
                                       && jobs[id].requestHash.RequestHash? && jobs[id].requestHash.fields.tx == jobs[id].txDigest.tx
    requires forall id | id in jobs :: |id| < n && |jobs[id].idempotencyKey| < n && |jobs[id].txDigest.tx| < n
    requires n <= |req.actionId| && n <= |req.idempotencyKey| && n <= |req.tx|
    ensures Unused(jobs, req)
  {
    assert |RequestHashOf(req).fields.tx| == |req.tx|;
  }

  /** Whatever the table holds, there is a well-shaped request for the same contract and circuit that is new to it. */
  lemma NewRequest(h: History, like: Request) returns (req: Request, token: Token)
    requires IsRun(h) && WellShaped(like)
    ensures Presentable(req, token, 0) && Unused(Last(h).jobs, req)
    ensures req.network == like.network && req.contractAddress == like.contractAddress && req.circuit == like.circuit && req.action == like.action
  {
    TableShape(h);
    var n := Longer(Last(h).jobs, Last(h).jobs.Keys);
    req := Renamed(like, Zeros(2 * n + 2));
    token := Token(ClaimsFor(req), 1, []);
    assert Parsed(req) by { ZerosIsParsed(like, n); }
    LongerIsUnused(Last(h).jobs, req, n);
  }

  /** An idle relay with a free lease takes a new request to the wallet. */
  lemma ServeNew(h: History, req: Request, token: Token, now: int) returns (g: History)
    requires IsRun(h) && Idle(Last(h)) && NoneLeased(Last(h).jobs) && Presentable(req, token, now) && Unused(Last(h).jobs, req)
    ensures Continues(h, g) && CallsWallet(Last(g).log, |Last(h).log|)
  {
    var id := req.actionId;
    var h1 := Acceptance(h, 1, req, token, now);
    var h2 := Beginning(h1, id);
    OnwardTransitive(h, h1, h2);
    var h3 := Validation(h2, id, req.tx);
    OnwardTransitive(h, h2, h3);
    var h4 := Leasing(h3, id, req.tx, [48]);
    OnwardTransitive(h, h3, h4);
    g := BalanceCall(h4, id, req.tx);
    OnwardTransitive(h, h4, g);
    assert Last(g).log[|Last(h).log|] == Balance(id, req.tx);
  }

  // ------------------------------------------------------------- main results

  /** As long as nothing is stranded, some continuation calls the wallet again, if need be for a new request to
      any given contract and circuit. */
  lemma GoesOn(h: History, like: Request) returns (g: History)
    requires IsRun(h) && WellShaped(like) && forall id :: !Stranded(Last(h), id)
    ensures Continues(h, g) && CallsWallet(Last(g).log, |Last(h).log|)
  {
    g := Unclog(h);
    if !CallsWallet(Last(g).log, |Last(h).log|) {
      var g1 := Crashing(g);
      ContinuesTransitive(h, g, g1);
      var g2 := FreeLease(g1);
      ContinuesTransitive(h, g1, g2);
      var req, token := NewRequest(g2, like);
      var g3 := ServeNew(g2, req, token, 0);
      ContinuesTransitive(h, g2, g3);
      var i :| |Last(g2).log| <= i < |Last(g3).log| && (Last(g3).log[i].Balance? || Last(g3).log[i].Submit?);
      g := g3;
    }
  }

  /** The relay can call its wallet again if and only if no submission is stranded. */
  lemma WalletGoesOnIff(h: History)
    requires IsRun(h)
    ensures CanGoOn(h) <==> forall id :: !Stranded(Last(h), id)
  {
    if CanGoOn(h) {
      var g :| Continues(h, g) && CallsWallet(Last(g).log, |Last(h).log|);
      forall id ensures !Stranded(Last(h), id) {
        if Stranded(Last(h), id) { StrandedForGood(h, g, id); }
      }
    }
    if forall id :: !Stranded(Last(h), id) {
      var like := SampleRequest();
      var g := GoesOn(h, like);
    }
  }

  lemma SampleRequest() returns (like: Request)
    ensures WellShaped(like)
  {
    like := Request([48], [48], [48], [48], U("castVote"), Vote, [48, 48]);
    assert !Space(48) && [48 as CodeUnit][0] == 48;
    assert U("castVote")[0] == 99 && !Space(99);
  }

  lemma StrandedForGood(h: History, g: History, id: Text)
    requires IsRun(h) && Continues(h, g) && Stranded(Last(h), id)
    ensures Last(g).log == Last(h).log
  {
    var c := |h.states| - 1;
    assert g.states[c] == Last(h);
    StrandedJobWedgesRelay(g, c, |g.states| - 1, id);
  }
}
