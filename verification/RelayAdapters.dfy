/** Every store call that any run of the service makes draws the same answer from both adapters. */
module RelayAdapters {
  import opened Wrappers
  import opened JsText
  import opened RelayTypes
  import opened RelayTable
  import opened RelayJobs
  import opened RelayPostgres
  import opened RelayProtocol
  import opened RelaySafety
  import opened RelayTheorems
  import opened RelayReplay

  /** The calls the service makes carry real transaction ids and sanitised receipts. */
  lemma CausedCallsAreTidy(s: State, id: Text, c: Call)
    requires Inv(s) && Caused(s, Move(id, c))
    ensures TidyCall(c)
  {
    if c.Confirm? {
      var t :| t in s.tasks && s.tasks[t] == Confirming(id, c.receipt);
      assert TaskOk(s.jobs, s.tasks[t]);
    }
  }

  function TablesOf(s: State): Tables { Tables(s.jobs, s.caps) }

  function ChangeOp(ch: Change): Option<Op>
  {
    match ch
    case Move(id, c) => Some(DoCall(id, c))
    case Lease(id, r) => Some(DoReserve(id, r))
    case _ => None
  }

  function ConsumeOp(s: State, t: nat): Option<Op>
  {
    if t in s.tasks && Consumes(s.tasks[t]) then Some(DoConsume(ReservationOf(s.tasks[t].req, s.tasks[t].token))) else None
  }

  /** The write that a step asks of the store, other than `createOrGet`, if it asks for one. */
  function OpOf(s: State, e: Event): Option<Op>
  {
    if e.ConsumeCapability? then ConsumeOp(s, e.t) else ChangeOp(ChangeOf(s, e))
  }

  /** The tables after a write that may be absent, as the in-memory adapter leaves them. */
  function Written(t: Tables, op: Option<Op>): Tables { if op.Some? then MemoryStep(t, op.value).1 else t }

  lemma ConsumeApplied(s: State, e: Event, s': State)
    requires e.ConsumeCapability? && Step(s, e, s')
    ensures TablesOf(s') == Written(TablesOf(s), ConsumeOp(s, e.t))
  {
  }

  lemma ChangeApplied(jobs: Jobs, caps: Capabilities, ch: Change, jobs': Jobs)
    requires Changed(jobs, ch, jobs') && !ch.Insert?
    ensures Tables(jobs', caps) == Written(Tables(jobs, caps), ChangeOp(ch))
  {
  }

  /** In every run, the write that each step makes, whether it hits or misses, draws the same answer from
      PostgreSQL as from memory, and the next tables are what either adapter leaves; a step that makes none
      leaves the tables alone. */
  lemma RunsAgreeOnAdapters(h: History, k: nat)
    requires IsRun(h) && k < |h.events| && !h.events[k].Admit?
    ensures match OpOf(h.states[k], h.events[k])
            case Some(op) =>
              && PgStep(TablesOf(h.states[k]), op) == MemoryStep(TablesOf(h.states[k]), op)
              && TablesOf(h.states[k + 1]) == PgStep(TablesOf(h.states[k]), op).1
            case None => TablesOf(h.states[k + 1]) == TablesOf(h.states[k])
  {
    var s, e := h.states[k], h.events[k];
    var ch := ChangeAt(h, k);
    assert Step(s, e, h.states[k + 1]);
    StepChange(s, e, h.states[k + 1]);
    if e.ConsumeCapability? { ConsumeApplied(s, e, h.states[k + 1]); }
    else { ChangeApplied(s.jobs, s.caps, ch, h.states[k + 1].jobs); }
    if OpOf(s, e).Some? { OpsAgree(s, e); }
  }

  lemma OpsAgree(s: State, e: Event)
    requires Inv(s) && Caused(s, ChangeOf(s, e)) && OpOf(s, e).Some?
    ensures PgStep(TablesOf(s), OpOf(s, e).value) == MemoryStep(TablesOf(s), OpOf(s, e).value)
  {
    var ch := ChangeOf(s, e);
    GoodJobsAreTidy(s.jobs);
    if ch.Move? { CausedCallsAreTidy(s, ch.id, ch.call); }
    StepsAgree(TablesOf(s), OpOf(s, e).value);
  }

  /** ... and `createOrGet` leaves the tables as one of the two adapters' answers allows: one insertion or none. */
  lemma AdmissionsAgree(h: History, k: nat)
    requires IsRun(h) && k < |h.events| && h.events[k].Admit?
    ensures ChangeOf(h.states[k], h.events[k]).Insert? && h.states[k + 1].caps == h.states[k].caps
    ensures var n, out := ChangeOf(h.states[k], h.events[k]).n, h.events[k].out;
            h.states[k + 1].jobs == if out.Created? then h.states[k].jobs[n.id := Fresh(n)] else h.states[k].jobs
  {
    var _ := ChangeAt(h, k);
    assert Step(h.states[k], h.events[k], h.states[k + 1]);
  }
}
