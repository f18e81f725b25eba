/** The credential issuer: one serial queue of issuances over the durable stores, with crashes at every await
    (cico-service/src/credential-issuer-service.ts:74-181). */
module Issuance {
  import opened Wrappers
  import opened DurableStores

  datatype Request = Request(enrollmentId: string, material: Material)

  datatype Outcome = Issued(result: DurableStores.Issuance) | Conflict | Refused

  /** Where `issueOnce` stands: the last await it passed. */
  datatype Phase =
    | Queued
    | Validating
    | Claiming(blind: seq<Byte>)
    | Joining(blind: seq<Byte>)
    | Adding(blind: seq<Byte>)
    | Putting(result: DurableStores.Issuance)
    | Ended(outcome: Outcome)

  datatype Operation = Operation(request: Request, phase: Phase)

  datatype Entry = Entry(material: Material, operation: nat)

  /** A caller of `issueCredential` awaiting an operation; `starter` is the one that queued it. */
  datatype Caller = Caller(request: Request, operation: nat, starter: bool)

  /** A call of `addCredential` with the private state built for this request and blind. */
  datatype Added = Added(request: Request, blind: seq<Byte>)

  datatype Reply = Reply(request: Request, outcome: Outcome)

  datatype Disk = Disk(claims: Authorizations, journal: Journal)

  /** The operation at `head` runs; those after it wait in the queue. */
  datatype Memory = Memory(issuances: map<string, Entry>, operations: seq<Operation>, head: nat, callers: seq<Caller>)

  /** Calls of `addCredential`, those whose result was put in the journal and those whose result was lost. */
  datatype Ledger = Ledger(added: multiset<Added>, stored: multiset<Added>, lost: multiset<Added>)

  datatype State = State(registry: string, disk: Disk, mem: Memory, ledger: Ledger, replies: seq<Reply>)

  /** Everything the service does not decide is in the event. `ok` is false when a store update was written but
      its call failed afterwards; `Fail` is any other failure of the running operation. */
  datatype Event =
    | Issue(request: Request)
    | Read
    | Validate(authorized: bool, blind: seq<Byte>)
    | Claim(ok: bool)
    | Add
    | Receive(receipt: Receipt, leaf: seq<Byte>)
    | Put(ok: bool)
    | Fail
    | Deliver(caller: nat)
    | Crash

  predicate Runs(m: Memory) { m.head < |m.operations| && !m.operations[m.head].phase.Ended? }

  function Running(m: Memory): Operation
    requires Runs(m)
  {
    m.operations[m.head]
  }

  function At(m: Memory, p: Phase): Memory
    requires Runs(m)
  {
    m.(operations := m.operations[m.head := m.operations[m.head].(phase := p)])
  }

  /** The operation is over and the queue moves on. */
  function End(m: Memory, o: Outcome): Memory
    requires Runs(m)
  {
    At(m, Ended(o)).(head := m.head + 1)
  }

  function Flight(op: Operation): multiset<Added>
  {
    match op.phase
    case Adding(b) => multiset{Added(op.request, b)}
    case Putting(r) => multiset{Added(op.request, r.credentialBlind)}
    case _ => multiset{}
  }

  function InFlight(m: Memory): multiset<Added>
  {
    if Runs(m) then Flight(Running(m)) else multiset{}
  }

  /** The running operation fails; a credential it may have added is lost. */
  function Abandon(s: State): State
    requires Runs(s.mem)
  {
    s.(mem := End(s.mem, Refused), ledger := s.ledger.(lost := s.ledger.lost + InFlight(s.mem)))
  }

  function Issuing(s: State, request: Request): State
  {
    var e := request.enrollmentId;
    if e in s.mem.issuances && s.mem.issuances[e].material != request.material
    then s.(replies := s.replies + [Reply(request, Conflict)])
    else s.(mem := Queueing(s.mem, request))
  }

  /** Joins the operation already running for the enrollment, or queues a new one. */
  function Queueing(m: Memory, request: Request): Memory
  {
    var e := request.enrollmentId;
    if e in m.issuances then m.(callers := m.callers + [Caller(request, m.issuances[e].operation, false)])
    else Memory(m.issuances[e := Entry(request.material, |m.operations|)], m.operations + [Operation(request, Queued)],
                m.head, m.callers + [Caller(request, |m.operations|, true)])
  }

  function Reading(s: State): State
    requires Runs(s.mem)
  {
    var request := Running(s.mem).request;
    if request.enrollmentId == "" then Abandon(s)
    else match Looked(s.disk.journal, request.enrollmentId)
      case Found(hash, result) =>
        s.(mem := End(s.mem, if hash == IssuanceDigest(request.material) then Issued(result) else Conflict))
      case _ => s.(mem := At(s.mem, Validating))
  }

  function ClaimStep(s: State, ok: bool): State
    requires Runs(s.mem) && Running(s.mem).phase.Claiming?
  {
    var op := Running(s.mem);
    var (answer, claims) := ClaimOutcome(s.disk.claims, op.request.material.evidenceAuthorization, op.request.enrollmentId,
                                         Some(op.request.material));
    var s' := s.(disk := s.disk.(claims := claims));
    if answer == Answered(true) && ok then s'.(mem := At(s.mem, Joining(op.phase.blind))) else Abandon(s')
  }

  function Add(s: State): State
    requires Runs(s.mem) && Running(s.mem).phase.Joining?
  {
    var m := At(s.mem, Adding(Running(s.mem).phase.blind));
    s.(mem := m, ledger := s.ledger.(added := s.ledger.added + InFlight(m)))
  }

  predicate Canonical(registry: string, r: Receipt)
  {
    r.confirmed && r.action == "credential" && r.circuit == "addCredential" && r.contractAddress == registry && r.network == "preview"
  }

  function Receiving(s: State, receipt: Receipt, leaf: seq<Byte>): State
    requires Runs(s.mem) && Running(s.mem).phase.Adding?
  {
    if Canonical(s.registry, receipt)
    then s.(mem := At(s.mem, Putting(DurableStores.Issuance("credential:" + receipt.transactionId, Running(s.mem).phase.blind, leaf, receipt))))
    else Abandon(s)
  }

  function PutStep(s: State, ok: bool): State
    requires Runs(s.mem) && Running(s.mem).phase.Putting?
  {
    var op := Running(s.mem);
    match PutOutcome(s.disk.journal, op.request.enrollmentId, IssuanceDigest(op.request.material), op.phase.result)
    case Stored(journal) => Stores(s, journal, if ok then Issued(op.phase.result) else Refused)
    case Kept => if ok then Stores(s, s.disk.journal, Issued(op.phase.result)) else Abandon(s)
    case _ => Abandon(s)
  }

  function Stores(s: State, journal: Journal, o: Outcome): State
    requires Runs(s.mem)
  {
    s.(disk := s.disk.(journal := journal), mem := End(s.mem, o), ledger := s.ledger.(stored := s.ledger.stored + InFlight(s.mem)))
  }

  predicate Deliverable(m: Memory, c: nat)
  {
    c < |m.callers| && m.callers[c].operation < |m.operations| && m.operations[m.callers[c].operation].phase.Ended?
  }

  /** An awaiting caller gets its answer; after a failure the starter forgets the operation. */
  function Delivering(s: State, c: nat): State
    requires Deliverable(s.mem, c)
  {
    var caller := s.mem.callers[c];
    var outcome := s.mem.operations[caller.operation].phase.outcome;
    var e := caller.request.enrollmentId;
    var forgets := caller.starter && !outcome.Issued? && e in s.mem.issuances && s.mem.issuances[e].operation == caller.operation;
    s.(mem := s.mem.(callers := s.mem.callers[..c] + s.mem.callers[c + 1..],
                     issuances := if forgets then s.mem.issuances - {e} else s.mem.issuances),
       replies := s.replies + [Reply(caller.request, outcome)])
  }

  const RESTARTED: Memory := Memory(map[], [], 0, [])

  function Restarted(s: State): State
  {
    s.(mem := RESTARTED, ledger := s.ledger.(lost := s.ledger.lost + InFlight(s.mem)))
  }

  /** One step; an event that is not enabled changes nothing. */
  function Next(s: State, e: Event): State
  {
    match e
    case Issue(request) => Issuing(s, request)
    case Read => if Runs(s.mem) && Running(s.mem).phase.Queued? then Reading(s) else s
    case Validate(authorized, blind) =>
      if !(Runs(s.mem) && Running(s.mem).phase.Validating?) then s
      else if authorized && |blind| == 32 then s.(mem := At(s.mem, Claiming(blind))) else Abandon(s)
    case Claim(ok) => if Runs(s.mem) && Running(s.mem).phase.Claiming? then ClaimStep(s, ok) else s
    case Add => if Runs(s.mem) && Running(s.mem).phase.Joining? then Add(s) else s
    case Receive(receipt, leaf) => if Runs(s.mem) && Running(s.mem).phase.Adding? then Receiving(s, receipt, leaf) else s
    case Put(ok) => if Runs(s.mem) && Running(s.mem).phase.Putting? then PutStep(s, ok) else s
    case Fail => if Runs(s.mem) then Abandon(s) else s
    case Deliver(c) => if Deliverable(s.mem, c) then Delivering(s, c) else s
    case Crash => Restarted(s)
  }

  function Run(s: State, events: seq<Event>): State
    decreases |events|
  {
    if events == [] then s else Run(Next(s, events[0]), events[1..])
  }

  /** A fresh process over whatever the stores hold. */
  predicate Start(s: State)
  {
    s.mem == RESTARTED && s.ledger == Ledger(multiset{}, multiset{}, multiset{}) && s.replies == []
  }

  // --------------------------------------------------------------- invariant

  /** The authorization belongs to this enrollment and this material. */
  predicate Bound(claims: Authorizations, r: Request)
  {
    var key := EvidenceDigest(r.material.evidenceAuthorization);
    && r.enrollmentId != "" && r.material.evidenceAuthorization != ""
    && key in claims && claims[key] == Grant(EnrollmentDigest(r.enrollmentId), Some(MaterialDigest(r.material)))
  }

  /** An answer that is in the journal. */
  predicate Backed(journal: Journal, r: Request, o: Outcome)
  {
    o.Issued? ==> Looked(journal, r.enrollmentId) == Found(IssuanceDigest(r.material), o.result)
  }

  predicate Journaled(journal: Journal, e: string) { EnrollmentDigest(e) in journal }

  /** An operation ends with an answer that is in the journal, or in conflict with one that is. */
  predicate Settled(journal: Journal, r: Request, o: Outcome)
  {
    && Backed(journal, r, o)
    && (o.Conflict? ==> Looked(journal, r.enrollmentId).Found? && Looked(journal, r.enrollmentId).fingerprintHash != IssuanceDigest(r.material))
  }

  /** Operations end in order, and are settled by then. */
  predicate QueueInv(m: Memory, journal: Journal)
  {
    && m.head <= |m.operations|
    && (forall i | m.head <= i < |m.operations| :: !m.operations[i].phase.Ended? && (i > m.head ==> m.operations[i].phase.Queued?))
    && (forall i | 0 <= i < m.head :: m.operations[i].phase.Ended? && Settled(journal, m.operations[i].request, m.operations[i].phase.outcome))
  }

  /** An operation past its read works on an enrollment that is not in the journal, and past its claim on an
      authorization that is its own. */
  predicate RunningInv(op: Operation, d: Disk)
  {
    !op.phase.Queued? && !op.phase.Ended? ==>
      && op.request.enrollmentId != "" && !Journaled(d.journal, op.request.enrollmentId)
      && (op.phase.Joining? || op.phase.Adding? || op.phase.Putting? ==> Bound(d.claims, op.request))
  }

  predicate CallersInv(m: Memory)
  {
    && (forall e | e in m.issuances ::
          && m.issuances[e].operation < |m.operations|
          && m.operations[m.issuances[e].operation].request == Request(e, m.issuances[e].material))
    && (forall c | 0 <= c < |m.callers| ::
          m.callers[c].operation < |m.operations| && m.operations[m.callers[c].operation].request == m.callers[c].request)
  }

  predicate MemoryInv(m: Memory, d: Disk)
  {
    QueueInv(m, d.journal) && CallersInv(m) && (Runs(m) ==> RunningInv(Running(m), d))
  }

  predicate RepliesInv(replies: seq<Reply>, journal: Journal)
  {
    forall i | 0 <= i < |replies| :: Backed(journal, replies[i].request, replies[i].outcome)
  }

  /** Every call of `addCredential` is stored, lost or in flight; at most one per enrollment is stored. */
  predicate Accounts(l: Ledger, flight: multiset<Added>, d: Disk)
  {
    && l.added == l.stored + l.lost + flight
    && (forall x | x in l.added :: Bound(d.claims, x.request))
    && (forall x | x in l.stored :: l.stored[x] == 1 && Journaled(d.journal, x.request.enrollmentId))
    && (forall x, y | x in l.stored && y in l.stored && x.request.enrollmentId == y.request.enrollmentId :: x == y)
  }

  predicate Inv(s: State)
  {
    MemoryInv(s.mem, s.disk) && RepliesInv(s.replies, s.disk.journal) && Accounts(s.ledger, InFlight(s.mem), s.disk)
  }

  /** Nothing durable is rewritten: journal records stay, and complete claims stay. */
  predicate Extends(d: Disk, d': Disk)
  {
    && (forall k | k in d.journal :: k in d'.journal && d'.journal[k] == d.journal[k])
    && (forall k | k in d.claims && d.claims[k].materialKey.Some? :: k in d'.claims && d'.claims[k] == d.claims[k])
  }

  // ------------------------------------------------------- it is an invariant

  lemma PhaseKeepsMemory(m: Memory, p: Phase, d: Disk)
    requires MemoryInv(m, d) && Runs(m) && !p.Ended?
    requires RunningInv(Running(m).(phase := p), d)
    ensures MemoryInv(At(m, p), d)
  {
  }

  lemma EndKeepsMemory(m: Memory, o: Outcome, d: Disk)
    requires MemoryInv(m, d) && Runs(m) && Settled(d.journal, Running(m).request, o)
    ensures MemoryInv(End(m, o), d) && InFlight(End(m, o)) == multiset{}
  {
    var m' := End(m, o);
    assert CallersInv(m');
    assert Runs(m') ==> Running(m') == m.operations[m'.head];
  }

  lemma QueueingKeepsMemory(m: Memory, request: Request, d: Disk)
    requires MemoryInv(m, d)
    requires request.enrollmentId in m.issuances ==> m.issuances[request.enrollmentId].material == request.material
    ensures MemoryInv(Queueing(m, request), d) && InFlight(Queueing(m, request)) == InFlight(m)
  {
    var m' := Queueing(m, request);
    assert CallersInv(m');
    assert QueueInv(m', d.journal);
    assert Runs(m) ==> Running(m') == Running(m);
    assert Runs(m') && !Runs(m) ==> Running(m') == Operation(request, Queued);
  }

  lemma AbandonKeepsInv(s: State)
    requires Inv(s) && Runs(s.mem)
    ensures Inv(Abandon(s))
  {
    EndKeepsMemory(s.mem, Refused, s.disk);
  }

  lemma ReadKeepsInv(s: State)
    requires Inv(s) && Runs(s.mem) && Running(s.mem).phase.Queued?
    ensures Inv(Reading(s))
  {
    var request := Running(s.mem).request;
    if request.enrollmentId == "" { AbandonKeepsInv(s); }
    else {
      match Looked(s.disk.journal, request.enrollmentId)
      case Found(hash, result) =>
        EndKeepsMemory(s.mem, if hash == IssuanceDigest(request.material) then Issued(result) else Conflict, s.disk);
      case _ => PhaseKeepsMemory(s.mem, Validating, s.disk);
    }
  }

  lemma GrowthKeepsAnswers(d: Disk, d': Disk, r: Request, o: Outcome)
    requires Extends(d, d')
    ensures Settled(d.journal, r, o) ==> Settled(d'.journal, r, o)
    ensures Backed(d.journal, r, o) ==> Backed(d'.journal, r, o)
    ensures Bound(d.claims, r) ==> Bound(d'.claims, r)
  {
  }

  lemma GrowthKeepsMemory(m: Memory, d: Disk, d': Disk)
    requires MemoryInv(m, d) && Extends(d, d')
    requires forall e | Journaled(d'.journal, e) :: Journaled(d.journal, e)
    ensures MemoryInv(m, d')
  {
    forall i | 0 <= i < m.head ensures Settled(d'.journal, m.operations[i].request, m.operations[i].phase.outcome) {
      GrowthKeepsAnswers(d, d', m.operations[i].request, m.operations[i].phase.outcome);
    }
    if Runs(m) { GrowthKeepsAnswers(d, d', Running(m).request, Refused); }
  }

  lemma GrowthKeepsAccounts(l: Ledger, flight: multiset<Added>, d: Disk, d': Disk)
    requires Accounts(l, flight, d) && Extends(d, d')
    ensures Accounts(l, flight, d')
  {
    forall x | x in l.added ensures Bound(d'.claims, x.request) { GrowthKeepsAnswers(d, d', x.request, Refused); }
  }

  lemma DiskGrowthKeepsInv(s: State, d: Disk)
    requires Inv(s) && Extends(s.disk, d)
    requires forall e | Journaled(d.journal, e) :: Journaled(s.disk.journal, e)
    ensures Inv(s.(disk := d))
  {
    GrowthKeepsMemory(s.mem, s.disk, d);
    GrowthKeepsAccounts(s.ledger, InFlight(s.mem), s.disk, d);
    forall i | 0 <= i < |s.replies| ensures Backed(d.journal, s.replies[i].request, s.replies[i].outcome) {
      GrowthKeepsAnswers(s.disk, d, s.replies[i].request, s.replies[i].outcome);
    }
  }

  lemma ClaimKeepsInv(s: State, ok: bool)
    requires Inv(s) && Runs(s.mem) && Running(s.mem).phase.Claiming?
    ensures Inv(ClaimStep(s, ok)) && Extends(s.disk, ClaimStep(s, ok).disk)
  {
    var op := Running(s.mem);
    var (answer, claims) := ClaimOutcome(s.disk.claims, op.request.material.evidenceAuthorization, op.request.enrollmentId,
                                         Some(op.request.material));
    var s' := s.(disk := s.disk.(claims := claims));
    DiskGrowthKeepsInv(s, s'.disk);
    if answer == Answered(true) && ok {
      assert Bound(claims, op.request);
      PhaseKeepsMemory(s.mem, Joining(op.phase.blind), s'.disk);
    } else {
      AbandonKeepsInv(s');
    }
  }

  lemma AddKeepsInv(s: State)
    requires Inv(s) && Runs(s.mem) && Running(s.mem).phase.Joining?
    ensures Inv(Add(s))
  {
    PhaseKeepsMemory(s.mem, Adding(Running(s.mem).phase.blind), s.disk);
  }

  lemma ReceiveKeepsInv(s: State, receipt: Receipt, leaf: seq<Byte>)
    requires Inv(s) && Runs(s.mem) && Running(s.mem).phase.Adding?
    ensures Inv(Receiving(s, receipt, leaf))
  {
    var s' := Receiving(s, receipt, leaf);
    if Canonical(s.registry, receipt) {
      PhaseKeepsMemory(s.mem, Putting(Running(s'.mem).phase.result), s.disk);
    } else {
      AbandonKeepsInv(s);
    }
  }

  lemma StoreKeepsMemory(m: Memory, d: Disk, journal: Journal, o: Outcome)
    requires MemoryInv(m, d) && Runs(m)
    requires Extends(d, d.(journal := journal)) && Settled(journal, Running(m).request, o)
    ensures MemoryInv(End(m, o), d.(journal := journal)) && InFlight(End(m, o)) == multiset{}
  {
    var m' := End(m, o);
    assert forall r, o' | Settled(d.journal, r, o') :: Settled(journal, r, o');
    assert CallersInv(m');
    assert Runs(m') ==> Running(m') == m.operations[m'.head];
  }

  lemma StoreKeepsReplies(replies: seq<Reply>, d: Disk, journal: Journal)
    requires RepliesInv(replies, d.journal) && Extends(d, d.(journal := journal))
    ensures RepliesInv(replies, journal)
  {
    forall i | 0 <= i < |replies| ensures Backed(journal, replies[i].request, replies[i].outcome) {
      assert Backed(d.journal, replies[i].request, replies[i].outcome);
    }
  }

  lemma StoreKeepsAccounts(l: Ledger, x: Added, d: Disk, journal: Journal)
    requires Accounts(l, multiset{x}, d) && !Journaled(d.journal, x.request.enrollmentId)
    requires Extends(d, d.(journal := journal)) && Journaled(journal, x.request.enrollmentId)
    ensures Accounts(l.(stored := l.stored + multiset{x}), multiset{}, d.(journal := journal))
  {
    assert x !in l.stored;
    forall y | y in l.stored ensures y.request.enrollmentId != x.request.enrollmentId {
      assert Journaled(d.journal, y.request.enrollmentId);
    }
  }

  lemma PutKeepsInv(s: State, ok: bool)
    requires Inv(s) && Runs(s.mem) && Running(s.mem).phase.Putting?
    ensures Inv(PutStep(s, ok)) && Extends(s.disk, PutStep(s, ok).disk)
  {
    var op := Running(s.mem);
    var hash := IssuanceDigest(op.request.material);
    var put := PutOutcome(s.disk.journal, op.request.enrollmentId, hash, op.phase.result);
    if put.Stored? {
      PutThenGet(s.disk.journal, op.request.enrollmentId, hash, op.phase.result, "");
      var d := s.disk.(journal := put.journal);
      assert Extends(s.disk, d);
      StoreKeepsMemory(s.mem, s.disk, put.journal, if ok then Issued(op.phase.result) else Refused);
      StoreKeepsAccounts(s.ledger, Added(op.request, op.phase.result.credentialBlind), s.disk, put.journal);
      StoreKeepsReplies(s.replies, s.disk, put.journal);
    } else {
      AbandonKeepsInv(s);
    }
  }

  lemma DeliverKeepsInv(s: State, c: nat)
    requires Inv(s) && Deliverable(s.mem, c)
    ensures Inv(Delivering(s, c))
  {
    var s' := Delivering(s, c);
    assert CallersInv(s'.mem);
    assert Runs(s.mem) ==> Running(s'.mem) == Running(s.mem);
    assert InFlight(s'.mem) == InFlight(s.mem);
  }

  lemma IssueKeepsInv(s: State, request: Request)
    requires Inv(s)
    ensures Inv(Issuing(s, request))
  {
    var s' := Issuing(s, request);
    if s'.replies == s.replies { QueueingKeepsMemory(s.mem, request, s.disk); }
  }

  lemma ValidateKeepsInv(s: State, authorized: bool, blind: seq<Byte>)
    requires Inv(s)
    ensures Inv(Next(s, Validate(authorized, blind)))
  {
    if Runs(s.mem) && Running(s.mem).phase.Validating? {
      if authorized && |blind| == 32 { PhaseKeepsMemory(s.mem, Claiming(blind), s.disk); } else { AbandonKeepsInv(s); }
    }
  }

  lemma CrashKeepsInv(s: State)
    requires Inv(s)
    ensures Inv(Restarted(s))
  {
  }

  lemma NextKeepsInv(s: State, e: Event)
    requires Inv(s)
    ensures Inv(Next(s, e))
  {
    var m := s.mem;
    match e
    case Issue(request) => IssueKeepsInv(s, request);
    case Read => if Runs(m) && Running(m).phase.Queued? { ReadKeepsInv(s); }
    case Validate(authorized, blind) => ValidateKeepsInv(s, authorized, blind);
    case Claim(ok) => if Runs(m) && Running(m).phase.Claiming? { ClaimKeepsInv(s, ok); }
    case Add => if Runs(m) && Running(m).phase.Joining? { AddKeepsInv(s); }
    case Receive(receipt, leaf) => if Runs(m) && Running(m).phase.Adding? { ReceiveKeepsInv(s, receipt, leaf); }
    case Put(ok) => if Runs(m) && Running(m).phase.Putting? { PutKeepsInv(s, ok); }
    case Fail => if Runs(m) { AbandonKeepsInv(s); }
    case Deliver(c) => if Deliverable(m, c) { DeliverKeepsInv(s, c); }
    case Crash => CrashKeepsInv(s);
  }

  /** Only a claim and a put write to the stores. */
  lemma OthersWriteNothing(s: State, e: Event)
    requires !e.Claim? && !e.Put?
    ensures Next(s, e).disk == s.disk
  {
    match e
    case Issue(_) =>
    case Read =>
    case Validate(_, _) =>
    case Add =>
    case Receive(_, _) =>
    case Fail =>
    case Deliver(_) =>
    case Crash =>
  }

  lemma ClaimExtends(s: State, ok: bool)
    ensures Extends(s.disk, Next(s, Claim(ok)).disk)
  {
    if Runs(s.mem) && Running(s.mem).phase.Claiming? {
      var request := Running(s.mem).request;
      var claims := ClaimOutcome(s.disk.claims, request.material.evidenceAuthorization, request.enrollmentId, Some(request.material)).1;
      assert ClaimStep(s, ok).disk == s.disk.(claims := claims);
    }
  }

  lemma PutExtends(s: State, ok: bool)
    ensures Extends(s.disk, Next(s, Put(ok)).disk)
  {
    if Runs(s.mem) && Running(s.mem).phase.Putting? {
      var op := Running(s.mem);
      var put := PutOutcome(s.disk.journal, op.request.enrollmentId, IssuanceDigest(op.request.material), op.phase.result);
      assert PutStep(s, ok).disk == if put.Stored? then s.disk.(journal := put.journal) else s.disk;
    }
  }

  lemma NextExtends(s: State, e: Event)
    ensures Extends(s.disk, Next(s, e).disk)
  {
    match e
    case Claim(ok) => ClaimExtends(s, ok);
    case Put(ok) => PutExtends(s, ok);
    case _ => OthersWriteNothing(s, e);
  }

  lemma OnlyAddAdds(s: State, e: Event)
    requires !e.Add?
    ensures Next(s, e).ledger.added == s.ledger.added
  {
  }

  /** A journaled enrollment is not added again in this step. */
  lemma NextAddsNothing(s: State, e: Event, x: Added)
    requires Inv(s) && Journaled(s.disk.journal, x.request.enrollmentId)
    ensures Next(s, e).ledger.added[x] == s.ledger.added[x]
  {
    if e.Add? {
      if Runs(s.mem) && Running(s.mem).phase.Joining? {
        assert RunningInv(Running(s.mem), s.disk);
        assert Running(s.mem).request != x.request;
      }
    } else {
      OnlyAddAdds(s, e);
    }
  }

  // -------------------------------------------------------------- whole runs

  lemma {:induction false} RunKeepsInv(s: State, events: seq<Event>)
    requires Inv(s)
    ensures Inv(Run(s, events)) && Extends(s.disk, Run(s, events).disk)
    decreases |events|
  {
    if events != [] {
      NextKeepsInv(s, events[0]);
      NextExtends(s, events[0]);
      RunKeepsInv(Next(s, events[0]), events[1..]);
    }
  }

  lemma Reached(start: State, events: seq<Event>) returns (s: State)
    requires Start(start)
    ensures s == Run(start, events) && Inv(s)
  {
    assert InFlight(start.mem) == multiset{};
    s := Run(start, events);
    RunKeepsInv(start, events);
  }

  /** Over every run, with crashes and restarts at any point, one evidence authorization reaches `addCredential`
      for one enrollment and one material only. */
  lemma OneEnrollmentPerAuthorization(start: State, events: seq<Event>, x: Added, y: Added)
    requires Start(start) && x in Run(start, events).ledger.added && y in Run(start, events).ledger.added
    requires x.request.material.evidenceAuthorization == y.request.material.evidenceAuthorization
    ensures x.request == y.request
  {
    var s := Reached(start, events);
    assert Bound(s.disk.claims, x.request) && Bound(s.disk.claims, y.request);
  }

  /** Once an enrollment is journaled, no continuation of the run calls `addCredential` for it again. */
  lemma {:induction false} JournaledIsNeverAddedAgain(s: State, more: seq<Event>, x: Added)
    requires Inv(s) && Journaled(s.disk.journal, x.request.enrollmentId)
    ensures Run(s, more).ledger.added[x] == s.ledger.added[x]
    decreases |more|
  {
    if more != [] {
      NextKeepsInv(s, more[0]);
      NextExtends(s, more[0]);
      NextAddsNothing(s, more[0], x);
      JournaledIsNeverAddedAgain(Next(s, more[0]), more[1..], x);
    }
  }

  /** Every credential handed out is the journaled one for its enrollment, whatever crashed before or after: an
      answer given at any point agrees with every answer given later, and with the later journal. */
  lemma AnswersNeverChange(start: State, events: seq<Event>, more: seq<Event>, i: nat, j: nat)
    requires Start(start)
    requires i < |Run(start, events).replies| && Run(start, events).replies[i].outcome.Issued?
    ensures var late := Run(Run(start, events), more);
            var r := Run(start, events).replies[i];
            && Looked(late.disk.journal, r.request.enrollmentId) == Found(IssuanceDigest(r.request.material), r.outcome.result)
            && (j < |late.replies| && late.replies[j].request.enrollmentId == r.request.enrollmentId && late.replies[j].outcome.Issued?
                ==> late.replies[j].outcome == r.outcome && late.replies[j].request == r.request)
  {
    var s := Reached(start, events);
    assert Backed(s.disk.journal, s.replies[i].request, s.replies[i].outcome);
    RunKeepsInv(s, more);
    var late := Run(s, more);
    assert RepliesInv(late.replies, late.disk.journal);
  }

  // ---------------------------------------------------------------- replays

  /** No operation for the enrollment has ended in failure. */
  predicate NoneRefused(m: Memory, e: string)
  {
    forall i | 0 <= i < |m.operations| && m.operations[i].request.enrollmentId == e && m.operations[i].phase.Ended? ::
      !m.operations[i].phase.outcome.Refused?
  }

  lemma AbandonSpares(s: State, e: string)
    requires Inv(s) && Runs(s.mem) && Running(s.mem).request.enrollmentId != e && NoneRefused(s.mem, e)
    ensures NoneRefused(Abandon(s).mem, e)
  {
  }

  lemma PhaseSpares(m: Memory, p: Phase, e: string)
    requires Runs(m) && !p.Ended? && NoneRefused(m, e)
    ensures NoneRefused(At(m, p), e)
  {
  }

  lemma EndSpares(m: Memory, o: Outcome, e: string)
    requires Runs(m) && NoneRefused(m, e) && (Running(m).request.enrollmentId == e ==> !o.Refused?)
    ensures NoneRefused(End(m, o), e)
  {
  }

  lemma ReadSpares(s: State, e: string)
    requires Inv(s) && Journaled(s.disk.journal, e) && e != "" && NoneRefused(s.mem, e) && Runs(s.mem) && Running(s.mem).phase.Queued?
    ensures NoneRefused(Reading(s).mem, e)
  {
    var request := Running(s.mem).request;
    if request.enrollmentId == "" { AbandonSpares(s, e); }
    else {
      match Looked(s.disk.journal, request.enrollmentId)
      case Found(hash, result) => EndSpares(s.mem, if hash == IssuanceDigest(request.material) then Issued(result) else Conflict, e);
      case _ => PhaseSpares(s.mem, Validating, e);
    }
  }

  /** An operation past its read works on another enrollment than a journaled one. */
  lemma WorksElsewhere(s: State, e: string)
    requires Inv(s) && Journaled(s.disk.journal, e) && Runs(s.mem) && !Running(s.mem).phase.Queued?
    ensures Running(s.mem).request.enrollmentId != e
  {
    assert RunningInv(Running(s.mem), s.disk);
  }

  lemma WorkSpares(s: State, ev: Event, e: string)
    requires Inv(s) && Journaled(s.disk.journal, e) && NoneRefused(s.mem, e) && Runs(s.mem) && !Running(s.mem).phase.Queued?
    requires ev.Validate? || ev.Claim? || ev.Add? || ev.Receive? || ev.Put?
    ensures NoneRefused(Next(s, ev).mem, e)
  {
    WorksElsewhere(s, e);
    var m := s.mem;
    AbandonSpares(s, e);
    match ev
    case Validate(_, blind) => PhaseSpares(m, Claiming(blind), e);
    case Claim(_) => if Running(m).phase.Claiming? { PhaseSpares(m, Joining(Running(m).phase.blind), e); }
    case Add => if Running(m).phase.Joining? { PhaseSpares(m, Adding(Running(m).phase.blind), e); }
    case Receive(receipt, leaf) =>
      if Running(m).phase.Adding? && Canonical(s.registry, receipt) {
        PhaseSpares(m, Running(Receiving(s, receipt, leaf).mem).phase, e);
      }
    case Put(ok) =>
      if Running(m).phase.Putting? {
        EndSpares(m, Issued(Running(m).phase.result), e);
        EndSpares(m, Refused, e);
      }
  }

  /** Once an enrollment is journaled, only a `Fail` makes an operation for it fail. */
  lemma NextSpares(s: State, ev: Event, e: string)
    requires Inv(s) && Journaled(s.disk.journal, e) && e != "" && NoneRefused(s.mem, e) && !ev.Fail?
    ensures NoneRefused(Next(s, ev).mem, e)
  {
    if ev.Read? {
      if Runs(s.mem) && Running(s.mem).phase.Queued? { ReadSpares(s, e); }
    } else if ev.Validate? || ev.Claim? || ev.Add? || ev.Receive? || ev.Put? {
      if Runs(s.mem) && !Running(s.mem).phase.Queued? { WorkSpares(s, ev, e); }
    }
  }

  /** Answers are only added, and none of the new ones for the enrollment is a failure. */
  predicate NoneRefusedSince(replies: seq<Reply>, replies': seq<Reply>, e: string)
  {
    && |replies| <= |replies'| && replies'[..|replies|] == replies
    && (forall i | |replies| <= i < |replies'| && replies'[i].request.enrollmentId == e :: !replies'[i].outcome.Refused?)
  }

  lemma NoneRefusedTransitive(a: seq<Reply>, b: seq<Reply>, c: seq<Reply>, e: string)
    requires NoneRefusedSince(a, b, e) && NoneRefusedSince(b, c, e)
    ensures NoneRefusedSince(a, c, e)
  {
    forall i | 0 <= i < |b| ensures c[i] == b[i] { assert c[..|b|][i] == c[i]; }
  }

  lemma OneMore(replies: seq<Reply>, r: Reply, e: string)
    requires r.request.enrollmentId == e ==> !r.outcome.Refused?
    ensures NoneRefusedSince(replies, replies + [r], e)
  {
  }

  lemma DeliverAnswers(s: State, c: nat, e: string)
    requires CallersInv(s.mem) && NoneRefused(s.mem, e) && Deliverable(s.mem, c)
    ensures NoneRefusedSince(s.replies, Delivering(s, c).replies, e)
  {
    var caller := s.mem.callers[c];
    assert s.mem.operations[caller.operation].request == caller.request;
    OneMore(s.replies, Reply(caller.request, s.mem.operations[caller.operation].phase.outcome), e);
  }

  lemma SilentSteps(s: State, ev: Event)
    requires !ev.Issue? && !ev.Deliver?
    ensures Next(s, ev).replies == s.replies
  {
    match ev
    case Read =>
    case Validate(_, _) =>
    case Claim(_) =>
    case Add =>
    case Receive(_, _) =>
    case Put(_) =>
    case Fail =>
    case Crash =>
  }

  lemma NextAnswers(s: State, ev: Event, e: string)
    requires CallersInv(s.mem) && NoneRefused(s.mem, e)
    ensures NoneRefusedSince(s.replies, Next(s, ev).replies, e)
  {
    if ev.Issue? { OneMore(s.replies, Reply(ev.request, Conflict), e); }
    else if ev.Deliver? { if Deliverable(s.mem, ev.caller) { DeliverAnswers(s, ev.caller, e); } }
    else { SilentSteps(s, ev); }
  }

  lemma {:induction false} NothingRefused(s: State, more: seq<Event>, e: string)
    requires Inv(s) && Journaled(s.disk.journal, e) && e != "" && NoneRefused(s.mem, e) && Fail !in more
    ensures NoneRefusedSince(s.replies, Run(s, more).replies, e)
    decreases |more|
  {
    if more != [] {
      NextKeepsInv(s, more[0]);
      assert Journaled(Next(s, more[0]).disk.journal, e) by { NextExtends(s, more[0]); }
      NextSpares(s, more[0], e);
      NextAnswers(s, more[0], e);
      NothingRefused(Next(s, more[0]), more[1..], e);
      NoneRefusedTransitive(s.replies, Next(s, more[0]).replies, Run(s, more).replies, e);
    }
  }

  /** Replays are answered from the journal: from any state of a run in which the enrollment is journaled,
      however often the process crashes, every later answer for it is the journaled result, given for the
      journaled material only, or a conflict; it is an error only after a failure of the service itself. */
  lemma ReplaysAnswerFromJournal(start: State, events: seq<Event>, more: seq<Event>, e: string, i: nat)
    requires Start(start) && Journaled(Run(start, events).disk.journal, e)
    requires |Run(start, events).replies| <= i < |Run(Run(start, events), more).replies|
    requires Run(Run(start, events), more).replies[i].request.enrollmentId == e
    ensures var s := Run(start, events);
            var r := Run(s, more).replies[i];
            && (r.outcome.Issued? ==> Looked(s.disk.journal, e) == Found(IssuanceDigest(r.request.material), r.outcome.result))
            && (e != "" && NoneRefused(s.mem, e) && Fail !in more ==> r.outcome.Issued? || r.outcome.Conflict?)
  {
    var s := Reached(start, events);
    RunKeepsInv(s, more);
    var late := Run(s, more);
    assert Backed(late.disk.journal, late.replies[i].request, late.replies[i].outcome);
    assert Looked(late.disk.journal, e) == Looked(s.disk.journal, e);
    if e != "" && NoneRefused(s.mem, e) && Fail !in more { NothingRefused(s, more, e); }
  }

  // ------------------------------------------------------------- conservation

  /** Conservation: every call of `addCredential` was journaled, was lost to a failure or a crash, or is in
      flight, and an enrollment none of whose calls was lost has been added at most once. */
  lemma CredentialsAccounted(start: State, events: seq<Event>, x: Added, y: Added)
    requires Start(start)
    ensures var s := Run(start, events);
            && s.ledger.added == s.ledger.stored + s.ledger.lost + InFlight(s.mem) && |InFlight(s.mem)| <= 1
            && (SafelyAdded(s.ledger, x) && SafelyAdded(s.ledger, y) && x.request.enrollmentId == y.request.enrollmentId
                ==> x == y && s.ledger.added[x] == 1)
  {
    var s := Reached(start, events);
    if SafelyAdded(s.ledger, x) && SafelyAdded(s.ledger, y) && x.request.enrollmentId == y.request.enrollmentId {
      NeverStoredAndInFlight(s, x, y);
      NeverStoredAndInFlight(s, y, x);
    }
  }

  predicate SafelyAdded(l: Ledger, x: Added) { x in l.added && x !in l.lost }

  lemma NeverStoredAndInFlight(s: State, x: Added, y: Added)
    requires Inv(s) && x.request.enrollmentId == y.request.enrollmentId
    ensures !(x in s.ledger.stored && y in InFlight(s.mem))
    ensures x in InFlight(s.mem) && y in InFlight(s.mem) ==> x == y
  {
  }

  // ------------------------------------------------------------ a lost result

  function Try(request: Request, blind: seq<Byte>): seq<Event>
  {
    [Issue(request), Read, Validate(true, blind), Claim(true), Event.Add]
  }

  predicate MayAdd(d: Disk, request: Request)
  {
    && request.enrollmentId != "" && request.material.evidenceAuthorization != "" && !Journaled(d.journal, request.enrollmentId)
    && Claimable(d.claims, request.material.evidenceAuthorization, request.enrollmentId, Some(request.material))
  }

  lemma RunFive(s: State, a: Event, b: Event, c: Event, d: Event, e: Event)
    ensures Run(s, [a, b, c, d, e]) == Next(Next(Next(Next(Next(s, a), b), c), d), e)
  {
    var s1 := Next(s, a);
    var s2 := Next(s1, b);
    var s3 := Next(s2, c);
    assert Run(s, [a, b, c, d, e]) == Run(s1, [b, c, d, e]);
    assert Run(s1, [b, c, d, e]) == Run(s2, [c, d, e]);
    assert Run(s2, [c, d, e]) == Run(s3, [d, e]);
    assert Run(s3, [d, e]) == Run(Next(s3, d), [e]);
    assert Run(Next(s3, d), [e]) == Run(Next(Next(s3, d), e), []);
  }

  lemma TryAdds(s: State, request: Request, blind: seq<Byte>)
    requires s.mem == RESTARTED && MayAdd(s.disk, request) && |blind| == 32
    ensures var t := Run(s, Try(request, blind));
            && t.ledger.added == s.ledger.added + multiset{Added(request, blind)}
            && MayAdd(t.disk, request)
  {
    RunFive(s, Issue(request), Read, Validate(true, blind), Claim(true), Event.Add);
    var s1 := Next(s, Issue(request));
    assert Running(s1.mem) == Operation(request, Queued);
    var s2 := Next(s1, Read);
    assert Running(s2.mem) == Operation(request, Validating);
    var s3 := Next(s2, Validate(true, blind));
    assert Running(s3.mem) == Operation(request, Claiming(blind));
    var s4 := Next(s3, Claim(true));
    assert Running(s4.mem) == Operation(request, Joining(blind));
  }

  lemma {:induction false} RunConcat(s: State, a: seq<Event>, b: seq<Event>)
    ensures Run(s, a + b) == Run(Run(s, a), b)
    decreases |a|
  {
    if a == [] { assert a + b == b; }
    else {
      assert (a + b)[1..] == a[1..] + b;
      RunConcat(Next(s, a[0]), a[1..], b);
    }
  }

  lemma CrashThenTry(s: State, request: Request, blind: seq<Byte>)
    requires MayAdd(s.disk, request) && |blind| == 32
    ensures var t := Run(s, [Crash] + Try(request, blind));
            t.ledger.added == s.ledger.added + multiset{Added(request, blind)} && MayAdd(t.disk, request)
  {
    RunConcat(s, [Crash], Try(request, blind));
    assert Run(s, [Crash]) == Run(Next(s, Crash), [Crash][1..]) == Restarted(s);
    TryAdds(Restarted(s), request, blind);
  }

  /** From any state, a crash between `addCredential` and the journal lets every claimable request be added a
      second time, with any second blind: the claim, being its own, is granted again. */
  lemma LostResultIsAddedTwice(s: State, request: Request, blind: seq<Byte>, blind': seq<Byte>)
    requires MayAdd(s.disk, request) && |blind| == |blind'| == 32
    ensures Run(s, ([Crash] + Try(request, blind)) + ([Crash] + Try(request, blind'))).ledger.added
            == s.ledger.added + multiset{Added(request, blind), Added(request, blind')}
  {
    CrashThenTry(s, request, blind);
    RunConcat(s, [Crash] + Try(request, blind), [Crash] + Try(request, blind'));
    CrashThenTry(Run(s, [Crash] + Try(request, blind)), request, blind');
  }

  /** Some continuation calls `addCredential` for the enrollment once more. */
  ghost predicate AddedAgain(s: State, e: string)
  {
    exists more: seq<Event>, y: Added :: y.request.enrollmentId == e && Run(s, more).ledger.added[y] > s.ledger.added[y]
  }

  /** The exact condition, readable from the journal: from any state of any run, an enrollment that has been added
      can be added again if and only if it is not journaled. */
  lemma AddedAgainIffNotJournaled(start: State, events: seq<Event>, x: Added)
    requires Start(start) && x in Run(start, events).ledger.added
    ensures var s := Run(start, events);
            AddedAgain(s, x.request.enrollmentId) <==> !Journaled(s.disk.journal, x.request.enrollmentId)
  {
    var s := Reached(start, events);
    var e := x.request.enrollmentId;
    if Journaled(s.disk.journal, e) {
      forall more: seq<Event>, y: Added | y.request.enrollmentId == e ensures Run(s, more).ledger.added[y] == s.ledger.added[y] {
        JournaledIsNeverAddedAgain(s, more, y);
      }
    } else {
      assert Bound(s.disk.claims, x.request);
      var blind := seq(32, _ => 0 as Byte);
      CrashThenTry(s, x.request, blind);
      var y := Added(x.request, blind);
      assert Run(s, [Crash] + Try(x.request, blind)).ledger.added[y] == s.ledger.added[y] + 1;
    }
  }
}
