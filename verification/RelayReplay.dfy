/** When an `accept` refuses the very job it created, as `capability_replayed`
    (relayer/src/v2-service.ts:111-203). */
module RelayReplay {
  import opened Wrappers
  import opened JsText
  import opened RelayTypes
  import opened RelayTable
  import opened RelayJobs
  import opened RelayProtocol
  import opened RelaySafety
  import opened RelayTheorems

  /** An `accept` that created its job and has not yet tried to consume its capability. */
  predicate Exposed(t: Task) { (t.KeyChecking? || t.Consuming?) && t.created }

  /** An `accept` that may still consume its capability. */
  predicate MayConsume(t: Task) { t.Admitting? || t.KeyChecking? || t.Consuming? }

  /** `ConsumeCapability` of this task writes the capability, unless it is there already. */
  predicate Consumes(t: Task) { t.Consuming? && (t.created || t.job.capabilityDigest == CapabilityDigest(t.token)) }

  // --------------------------------------------------------- how tasks move

  /** What an exposed or refusing task was one step before. */
  predicate TaskMoves(s: State, e: Event, s': State, t: nat)
  {
    t in s'.tasks && !(t in s.tasks && s.tasks[t] == s'.tasks[t]) ==>
      var a := s'.tasks[t];
      && (a.Refusing? ==> && e == ConsumeCapability(t) && t in s.tasks && s.tasks[t].Consuming? && Exposed(s.tasks[t])
                          && s.tasks[t].job.id == a.id && CapabilityDigest(s.tasks[t].token) in s.caps)
      && (a.Consuming? ==> t in s.tasks && s.tasks[t] == KeyChecking(a.req, a.token, a.job, a.created))
      && (a.KeyChecking? && a.created ==> e == Admit(t, Created(a.job)) && t in s.tasks && s.tasks[t] == Admitting(a.req, a.token))
      && (a.Rejecting? ==> a.code != CapabilityReplayed)
  }

  /** A capability appears only when a task consumes it. */
  predicate CapsMove(s: State, e: Event, s': State)
  {
    && (forall d | d in s.caps :: d in s'.caps)
    && (forall d | d in s'.caps && d !in s.caps ::
          e.ConsumeCapability? && e.t in s.tasks && Consumes(s.tasks[e.t]) && d == CapabilityDigest(s.tasks[e.t].token))
  }

  lemma ConsumeMoves(s: State, e: Event, s': State, t: nat)
    requires e.ConsumeCapability? && TaskStep(s, e, s')
    ensures TaskMoves(s, e, s', t)
  {
  }

  lemma TaskEventMoves(s: State, e: Event, s': State, t: nat)
    requires IsTaskEvent(e) && TaskStep(s, e, s')
    ensures TaskMoves(s, e, s', t)
  {
    match e
    case Accept(_, _, _, _, _) =>
    case Admit(_, _) =>
    case CheckKey(_) =>
    case ConsumeCapability(_) => ConsumeMoves(s, e, s', t);
    case Refuse(_) =>
    case Attach(_) =>
  }

  lemma TaskEventCaps(s: State, e: Event, s': State)
    requires IsTaskEvent(e) && TaskStep(s, e, s')
    ensures CapsMove(s, e, s')
  {
    if !e.ConsumeCapability? { assert s'.caps == s.caps; }
  }

  lemma BackgroundEventMoves(s: State, e: Event, s': State, t: nat)
    requires IsBackgroundEvent(e) && BackgroundStep(s, e, s')
    ensures TaskMoves(s, e, s', t) && s'.caps == s.caps
  {
    match e
    case Reconcile(_, _) =>
    case ReadJob(_) =>
    case AskIndexer(_, _) =>
    case CommitReceipt(_) =>
    case CommitRejection(_) =>
    case Start(_) =>
    case List(_, _) =>
    case RecoverNext(_) =>
  }

  lemma ControlEventMoves(s: State, e: Event, s': State, t: nat)
    requires IsControlEvent(e) && ControlStep(s, e, s')
    ensures TaskMoves(s, e, s', t) && s'.caps == s.caps
  {
  }

  lemma WalletEventMoves(s: State, e: Event, s': State)
    requires IsWalletEvent(e) && WalletStep(s, e, s')
    ensures s'.tasks == s.tasks && s'.caps == s.caps
  {
  }

  lemma StepMoves(s: State, e: Event, s': State, t: nat)
    requires Step(s, e, s')
    ensures TaskMoves(s, e, s', t) && CapsMove(s, e, s')
  {
    if IsTaskEvent(e) { TaskEventMoves(s, e, s', t); TaskEventCaps(s, e, s'); }
    else if IsBackgroundEvent(e) { BackgroundEventMoves(s, e, s', t); }
    else if IsControlEvent(e) { ControlEventMoves(s, e, s', t); }
    else { WalletEventMoves(s, e, s'); }
  }

  lemma MovesAt(h: History, k: nat, t: nat)
    requires IsRun(h) && k < |h.events|
    ensures TaskMoves(h.states[k], h.events[k], h.states[k + 1], t) && CapsMove(h.states[k], h.events[k], h.states[k + 1])
  {
    StepMoves(h.states[k], h.events[k], h.states[k + 1], t);
  }

  // ---------------------------------------------------- where they come from

  /** Task `t` presents the token at state k, having created the job. */
  predicate ExposedAt(h: History, k: nat, t: nat, token: Token, job: Job)
  {
    k < |h.states| && t in h.states[k].tasks && Exposed(h.states[k].tasks[t]) && h.states[k].tasks[t].token == token && h.states[k].tasks[t].job == job
  }

  /** Step i is the insertion of the job by task `t`. */
  predicate CreatedAt(h: History, i: nat, t: nat, token: Token, job: Job)
  {
    && i < |h.events| && i < |h.states| && h.events[i] == Admit(t, Created(job))
    && t in h.states[i].tasks && h.states[i].tasks[t].Admitting? && h.states[i].tasks[t].token == token
  }

  /** Step m is the consumption of the token's capability by task `u`. */
  predicate ConsumedAt(h: History, m: nat, u: nat, token: Token)
  {
    && m < |h.events| && m < |h.states| && h.events[m] == ConsumeCapability(u)
    && u in h.states[m].tasks && Consumes(h.states[m].tasks[u]) && h.states[m].tasks[u].token == token
  }

  /** An exposed task stands exposed since the step in which it created its job. */
  lemma {:induction false} ExposedSince(h: History, k: nat, t: nat, token: Token, job: Job) returns (i: nat)
    requires IsRun(h) && ExposedAt(h, k, t, token, job)
    ensures i < k && CreatedAt(h, i, t, token, job) && forall j | i < j <= k :: ExposedAt(h, j, t, token, job)
    decreases k
  {
    assert Init(h.states[0]);
    MovesAt(h, k - 1, t);
    var s, s' := h.states[k - 1], h.states[k];
    if t in s.tasks && (s.tasks[t] == s'.tasks[t] || s.tasks[t].KeyChecking?) {
      i := ExposedSince(h, k - 1, t, token, job);
    } else {
      i := k - 1;
    }
  }

  /** A capability that was not there and then is was consumed in between. */
  lemma {:induction false} ConsumedBetween(h: History, a: nat, b: nat, d: Digest) returns (m: nat, u: nat, token: Token)
    requires IsRun(h) && a <= b < |h.states| && d !in h.states[a].caps && d in h.states[b].caps
    ensures a <= m < b && ConsumedAt(h, m, u, token) && d == CapabilityDigest(token)
    decreases b
  {
    MovesAt(h, b - 1, 0);
    if d in h.states[b - 1].caps {
      m, u, token := ConsumedBetween(h, a, b - 1, d);
    } else {
      m, u := b - 1, h.events[b - 1].t;
      token := h.states[m].tasks[u].token;
    }
  }

  lemma {:induction false} CapsStay(h: History, a: nat, b: nat, d: Digest)
    requires IsRun(h) && a <= b < |h.states| && d in h.states[a].caps
    ensures d in h.states[b].caps
    decreases b
  {
    if a < b {
      CapsStay(h, a, b - 1, d);
      MovesAt(h, b - 1, 0);
    }
  }

  /** A job's own capability is unused when the job is inserted. */
  lemma UnusedAtCreation(h: History, i: nat, t: nat, token: Token, job: Job)
    requires IsRun(h) && CreatedAt(h, i, t, token, job)
    ensures CapabilityDigest(token) !in h.states[i].caps && CapabilityDigest(token) !in h.states[i + 1].caps
    ensures token.claims.actionId == job.id
  {
    InvAlways(h, i);
    var s := h.states[i];
    assert TaskOk(s.jobs, s.tasks[t]);
    assert Step(s, h.events[i], h.states[i + 1]);
    assert job.id == token.claims.actionId && job.id !in s.jobs;
  }

  // ------------------------------------------------------------ main results

  /** Between its insert and its own consume, another `accept` of the same token consumed the capability. */
  ghost predicate Overtaken(h: History, k: nat, t: nat, token: Token, job: Job)
  {
    exists i, m, u ::
      && 0 <= i < m < k && CreatedAt(h, i, t, token, job) && ConsumedAt(h, m, u, token) && u != t
      && (forall j | i < j <= k :: ExposedAt(h, j, t, token, job))
  }

  /** The exact condition: an `accept` that created its job refuses it if and only if it was overtaken. */
  lemma RefusedIffOvertaken(h: History, k: nat, t: nat, token: Token, job: Job)
    requires IsRun(h) && k < |h.events| && h.events[k] == ConsumeCapability(t)
    requires ExposedAt(h, k, t, token, job) && h.states[k].tasks[t].Consuming?
    ensures t in h.states[k + 1].tasks
    ensures h.states[k + 1].tasks[t] == Refusing(job.id) <==> Overtaken(h, k, t, token, job)
    ensures h.states[k + 1].tasks[t] == Refusing(job.id) <==> CapabilityDigest(token) in h.states[k].caps
  {
    var d := CapabilityDigest(token);
    assert Step(h.states[k], h.events[k], h.states[k + 1]);
    if d in h.states[k].caps {
      OvertakenIfUsed(h, k, t, token, job);
    }
    if Overtaken(h, k, t, token, job) {
      UsedIfOvertaken(h, k, t, token, job);
    }
  }

  lemma OvertakenIfUsed(h: History, k: nat, t: nat, token: Token, job: Job)
    requires IsRun(h) && ExposedAt(h, k, t, token, job) && CapabilityDigest(token) in h.states[k].caps
    ensures Overtaken(h, k, t, token, job)
  {
    var i := ExposedSince(h, k, t, token, job);
    UnusedAtCreation(h, i, t, token, job);
    var m, u, token' := ConsumedBetween(h, i + 1, k, CapabilityDigest(token));
    assert token' == token;
    assert ExposedAt(h, m + 1, t, token, job) && ExposedAt(h, m, t, token, job);
    if u == t { StopsBeingExposed(h, m, t); }
  }

  lemma StopsBeingExposed(h: History, m: nat, t: nat)
    requires IsRun(h) && m < |h.events| && h.events[m] == ConsumeCapability(t) && t in h.states[m].tasks
    ensures t in h.states[m + 1].tasks && !Exposed(h.states[m + 1].tasks[t])
  {
    assert Step(h.states[m], h.events[m], h.states[m + 1]);
  }

  lemma UsedIfOvertaken(h: History, k: nat, t: nat, token: Token, job: Job)
    requires IsRun(h) && k < |h.states| && Overtaken(h, k, t, token, job)
    ensures CapabilityDigest(token) in h.states[k].caps
  {
    var i, m, u :| 0 <= i < m < k && CreatedAt(h, i, t, token, job) && ConsumedAt(h, m, u, token) && u != t;
    UsedSince(h, m, u, k, token);
  }

  lemma UsedSince(h: History, m: nat, u: nat, k: nat, token: Token)
    requires IsRun(h) && m < k < |h.states| && ConsumedAt(h, m, u, token)
    ensures CapabilityDigest(token) in h.states[k].caps
  {
    ConsumeWrites(h, m, u, token);
    CapsStay(h, m + 1, k, CapabilityDigest(token));
  }

  lemma ConsumeWrites(h: History, m: nat, u: nat, token: Token)
    requires IsRun(h) && ConsumedAt(h, m, u, token)
    ensures CapabilityDigest(token) in h.states[m + 1].caps
  {
    assert Step(h.states[m], h.events[m], h.states[m + 1]);
  }

  /** A refusal comes from a consume that failed. */
  lemma {:induction false} RefusingSince(h: History, k: nat, t: nat) returns (n: nat)
    requires IsRun(h) && k < |h.states| && t in h.states[k].tasks && h.states[k].tasks[t].Refusing?
    ensures n < k && h.events[n] == ConsumeCapability(t) && t in h.states[n].tasks && h.states[n].tasks[t].Consuming? && Exposed(h.states[n].tasks[t])
    ensures h.states[n].tasks[t].job.id == h.states[k].tasks[t].id && CapabilityDigest(h.states[n].tasks[t].token) in h.states[n].caps
    decreases k
  {
    assert Init(h.states[0]);
    MovesAt(h, k - 1, t);
    if t in h.states[k - 1].tasks && h.states[k - 1].tasks[t] == h.states[k].tasks[t] {
      n := RefusingSince(h, k - 1, t);
    } else {
      n := k - 1;
    }
  }

  predicate CarriesReplay(s: State, id: Text) { id in s.jobs && s.jobs[id].errorCode == Some(CapabilityReplayed) }

  lemma {:induction false} RejectionsAreTheIndexers(h: History, k: nat, t: nat)
    requires IsRun(h) && k < |h.states| && t in h.states[k].tasks && h.states[k].tasks[t].Rejecting?
    ensures h.states[k].tasks[t].code != CapabilityReplayed
    decreases k
  {
    assert Init(h.states[0]);
    MovesAt(h, k - 1, t);
    if t in h.states[k - 1].tasks && h.states[k - 1].tasks[t] == h.states[k].tasks[t] { RejectionsAreTheIndexers(h, k - 1, t); }
  }

  lemma ReplayIsWritten(jobs: Jobs, ch: Change, jobs': Jobs, id: Text)
    requires Changed(jobs, ch, jobs') && id in jobs' && jobs'[id].errorCode == Some(CapabilityReplayed)
    requires !(id in jobs && jobs[id].errorCode == Some(CapabilityReplayed))
    ensures ch.Move? && ch.id == id && (ch.call.Replayed? || ch.call == RejectByIndexer(CapabilityReplayed))
  {
  }

  /** Every job that carries `capability_replayed` was overtaken: some `accept` created it, another one of the
      same token consumed its capability first, and only then did the creator try. */
  lemma {:induction false} ReplayedMeansOvertaken(h: History, k: nat, id: Text) returns (n: nat, t: nat, token: Token, job: Job)
    requires IsRun(h) && k < |h.states| && CarriesReplay(h.states[k], id)
    ensures n < k && h.events[n] == ConsumeCapability(t) && ExposedAt(h, n, t, token, job) && job.id == id
    ensures Overtaken(h, n, t, token, job)
    decreases k
  {
    assert Init(h.states[0]);
    if CarriesReplay(h.states[k - 1], id) {
      n, t, token, job := ReplayedMeansOvertaken(h, k - 1, id);
    } else {
      t := RefusedAt(h, k - 1, id);
      n := RefusingSince(h, k - 1, t);
      token, job := h.states[n].tasks[t].token, h.states[n].tasks[t].job;
      OvertakenIfUsed(h, n, t, token, job);
    }
  }

  lemma RefusedAt(h: History, k: nat, id: Text) returns (t: nat)
    requires IsRun(h) && k < |h.events| && CarriesReplay(h.states[k + 1], id) && !CarriesReplay(h.states[k], id)
    ensures t in h.states[k].tasks && h.states[k].tasks[t] == Refusing(id)
  {
    var ch := ChangeAt(h, k);
    var s := h.states[k];
    ReplayIsWritten(s.jobs, ch, h.states[k + 1].jobs, id);
    if ch.call.RejectByIndexer? {
      var u :| u in s.tasks && s.tasks[u] == Rejecting(id, CapabilityReplayed);
      RejectionsAreTheIndexers(h, k, u);
    }
    t :| t in s.tasks && s.tasks[t] == Refusing(id);
  }

  /** Two `accept` calls of one token overlap while one of them is exposed. */
  predicate Overlap(s: State, t: nat, u: nat)
  {
    t != u && t in s.tasks && u in s.tasks && Exposed(s.tasks[t]) && MayConsume(s.tasks[u]) && s.tasks[u].token == s.tasks[t].token
  }

  /** Without such an overlap an exact retry is idempotent: no job ever carries `capability_replayed`. */
  lemma NoOverlapNoReplay(h: History, k: nat, id: Text)
    requires IsRun(h) && k < |h.states|
    requires forall j, t, u | 0 <= j < |h.states| :: !Overlap(h.states[j], t, u)
    ensures !CarriesReplay(h.states[k], id)
  {
    if CarriesReplay(h.states[k], id) {
      var n, t, token, job := ReplayedMeansOvertaken(h, k, id);
      var i, m, u :| 0 <= i < m < n && CreatedAt(h, i, t, token, job) && ConsumedAt(h, m, u, token) && u != t
                     && (forall j | i < j <= n :: ExposedAt(h, j, t, token, job));
      assert ExposedAt(h, m, t, token, job);
      assert Overlap(h.states[m], t, u);
      assert false;
    }
  }
}
