/** What the issuer answers, and that it does: first issuances, replays and conflicts, across crashes
    (cico-service/src/credential-issuer-service.ts:74-181). */
module IssuanceAnswers {
  import opened Wrappers
  import opened DurableStores
  import opened Issuance

  // ----------------------------------------------------------- first issuance

  /** The result of an issuance, field by field. */
  function ResultOf(blind: seq<Byte>, leaf: seq<Byte>, receipt: Receipt): DurableStores.Issuance
  {
    DurableStores.Issuance("credential:" + receipt.transactionId, blind, leaf, receipt)
  }

  /** A receipt of a credential added on this registry, with every field that the journal asks for. */
  predicate Acceptable(registry: string, r: Receipt)
  {
    && r.confirmed && r.action == "credential" && r.circuit == "addCredential" && r.contractAddress == registry && registry != "" && r.network == "preview"
    && r.transactionId != "" && r.transactionHash != "" && 0 <= r.blockHeight <= 9007199254740991 && r.blockHash != "" && r.blockTimestamp != ""
  }

  lemma Serializes(registry: string, blind: seq<Byte>, leaf: seq<Byte>, receipt: Receipt)
    requires Acceptable(registry, receipt) && |blind| == |leaf| == 32
    ensures Serialized(ResultOf(blind, leaf, receipt)).Some? && Canonical(registry, receipt)
  {
  }

  /** The state after a try from a restart: one operation, whose credential is being added. */
  lemma TryStands(s: State, request: Request, blind: seq<Byte>)
    requires s.mem == RESTARTED && MayAdd(s.disk, request) && |blind| == 32
    ensures var t := Run(s, Try(request, blind));
            && t.registry == s.registry && t.disk.journal == s.disk.journal && t.replies == s.replies
            && t.mem == Memory(map[request.enrollmentId := Entry(request.material, 0)], [Operation(request, Adding(blind))], 0, [Caller(request, 0, true)])
  {
    RunFive(s, Issue(request), Read, Validate(true, blind), Claim(true), Event.Add);
    var s1 := Next(s, Issue(request));
    assert s1.mem.operations == [Operation(request, Queued)];
    var s2 := Next(s1, Read);
    assert s2.mem.operations == [Operation(request, Validating)];
    var s3 := Next(s2, Validate(true, blind));
    assert s3.mem.operations == [Operation(request, Claiming(blind))];
    var s4 := Next(s3, Claim(true));
    assert s4.mem.operations == [Operation(request, Joining(blind))];
  }

  lemma RunThree(s: State, a: Event, b: Event, c: Event)
    ensures Run(s, [a, b, c]) == Next(Next(Next(s, a), b), c)
  {
    var s1 := Next(s, a);
    var s2 := Next(s1, b);
    assert Run(s, [a, b, c]) == Run(s1, [b, c]);
    assert Run(s1, [b, c]) == Run(s2, [c]);
    assert Run(s2, [c]) == Run(Next(s2, c), []);
  }

  /** The rest of an issuance: the receipt, the journal, the answer. */
  lemma FinishAnswers(s: State, request: Request, blind: seq<Byte>, leaf: seq<Byte>, receipt: Receipt)
    requires s.mem == Memory(map[request.enrollmentId := Entry(request.material, 0)], [Operation(request, Adding(blind))], 0, [Caller(request, 0, true)])
    requires request.enrollmentId != "" && !Journaled(s.disk.journal, request.enrollmentId)
    requires Acceptable(s.registry, receipt) && |blind| == |leaf| == 32
    ensures var t := Run(s, [Receive(receipt, leaf), Put(true), Deliver(0)]);
            && t.replies == s.replies + [Reply(request, Issued(ResultOf(blind, leaf, receipt)))]
            && Looked(t.disk.journal, request.enrollmentId) == Found(IssuanceDigest(request.material), ResultOf(blind, leaf, receipt))
  {
    var result := ResultOf(blind, leaf, receipt);
    Serializes(s.registry, blind, leaf, receipt);
    RunThree(s, Receive(receipt, leaf), Put(true), Deliver(0));
    var s1 := Next(s, Receive(receipt, leaf));
    assert s1.mem.operations == [Operation(request, Putting(result))];
    PutThenGet(s.disk.journal, request.enrollmentId, IssuanceDigest(request.material), result, "");
    var s2 := Next(s1, Put(true));
    assert s2.mem.operations == [Operation(request, Ended(Issued(result)))];
  }

  /** From any state, after a restart, a request that may be added, is authorized and gets an acceptable receipt is
      answered with its credential, built from the request's blind and the receipt, and that is what is journaled. */
  lemma FirstIssueIsAnswered(s: State, request: Request, blind: seq<Byte>, leaf: seq<Byte>, receipt: Receipt)
    requires MayAdd(s.disk, request) && Acceptable(s.registry, receipt) && |blind| == |leaf| == 32
    ensures var t := Run(s, ([Crash] + Try(request, blind)) + [Receive(receipt, leaf), Put(true), Deliver(0)]);
            && t.replies == s.replies + [Reply(request, Issued(ResultOf(blind, leaf, receipt)))]
            && Looked(t.disk.journal, request.enrollmentId) == Found(IssuanceDigest(request.material), ResultOf(blind, leaf, receipt))
  {
    RunConcat(s, [Crash], Try(request, blind));
    assert Run(s, [Crash]) == Run(Next(s, Crash), [Crash][1..]) == Restarted(s);
    TryStands(Restarted(s), request, blind);
    RunConcat(s, [Crash] + Try(request, blind), [Receive(receipt, leaf), Put(true), Deliver(0)]);
    FinishAnswers(Run(s, [Crash] + Try(request, blind)), request, blind, leaf, receipt);
  }

  // ----------------------------------------------------------------- replays

  lemma ReadFromRestart(s: State, request: Request)
    requires s.mem == RESTARTED && request.enrollmentId != "" && Journaled(s.disk.journal, request.enrollmentId)
    ensures var found := Looked(s.disk.journal, request.enrollmentId);
            var t := Run(s, [Issue(request), Read, Deliver(0)]);
            && found.Found? && t.disk == s.disk && t.ledger == s.ledger
            && t.replies == s.replies + [Reply(request, if found.fingerprintHash == IssuanceDigest(request.material) then Issued(found.result) else Conflict)]
  {
    RunThree(s, Issue(request), Read, Deliver(0));
    var s1 := Next(s, Issue(request));
    assert s1.mem.operations == [Operation(request, Queued)] && s1.mem.callers == [Caller(request, 0, true)];
  }

  /** A holder who lost the answer gets it again: from any state in which the enrollment is journaled, a request for
      it after a restart is answered with the journaled result if its material is the journaled one, and with a
      conflict otherwise, and nothing is claimed, added or stored. */
  lemma ReplayIsAnswered(s: State, request: Request)
    requires request.enrollmentId != "" && Journaled(s.disk.journal, request.enrollmentId)
    ensures var found := Looked(s.disk.journal, request.enrollmentId);
            var t := Run(s, [Crash] + [Issue(request), Read, Deliver(0)]);
            && found.Found? && t.disk == s.disk && t.ledger.added == s.ledger.added && t.ledger.stored == s.ledger.stored
            && t.replies == s.replies + [Reply(request, if found.fingerprintHash == IssuanceDigest(request.material) then Issued(found.result) else Conflict)]
  {
    RunConcat(s, [Crash], [Issue(request), Read, Deliver(0)]);
    assert Run(s, [Crash]) == Run(Next(s, Crash), [Crash][1..]) == Restarted(s);
    ReadFromRestart(Restarted(s), request);
  }

  /** In memory the enrollment, if it is there, is there for this request. */
  predicate OwnEntry(m: Memory, r: Request) { r.enrollmentId in m.issuances ==> m.issuances[r.enrollmentId].material == r.material }

  /** Nobody asks for the enrollment with other material. */
  predicate OnlyOwn(e: Event, r: Request) { e.Issue? && e.request.enrollmentId == r.enrollmentId ==> e.request == r }

  lemma NextKeepsOwn(s: State, e: Event, r: Request)
    requires OwnEntry(s.mem, r) && OnlyOwn(e, r)
    ensures OwnEntry(Next(s, e).mem, r)
  {
    match e
    case Issue(_) =>
    case Read =>
    case Validate(_, _) =>
    case Claim(_) =>
    case Add =>
    case Receive(_, _) =>
    case Put(_) =>
    case Fail =>
    case Deliver(_) =>
    case Crash =>
  }

  /** Every new answer to the request is an issued one. */
  predicate IssuedSince(replies: seq<Reply>, replies': seq<Reply>, r: Request)
  {
    && |replies| <= |replies'| && replies'[..|replies|] == replies
    && (forall i | |replies| <= i < |replies'| && replies'[i].request == r :: replies'[i].outcome.Issued?)
  }

  lemma IssuedTransitive(a: seq<Reply>, b: seq<Reply>, c: seq<Reply>, r: Request)
    requires IssuedSince(a, b, r) && IssuedSince(b, c, r)
    ensures IssuedSince(a, c, r)
  {
    forall i | 0 <= i < |b| ensures c[i] == b[i] { assert c[..|b|][i] == c[i]; }
  }

  lemma OneMoreIssued(replies: seq<Reply>, x: Reply, r: Request)
    requires x.request == r ==> x.outcome.Issued?
    ensures IssuedSince(replies, replies + [x], r)
  {
  }

  /** The journal holds the request's own material. */
  predicate JournaledAs(journal: Journal, r: Request)
  {
    Looked(journal, r.enrollmentId).Found? && Looked(journal, r.enrollmentId).fingerprintHash == IssuanceDigest(r.material)
  }

  lemma EndedIsIssued(s: State, i: nat, r: Request)
    requires Inv(s) && JournaledAs(s.disk.journal, r) && NoneRefused(s.mem, r.enrollmentId)
    requires i < |s.mem.operations| && s.mem.operations[i].phase.Ended? && s.mem.operations[i].request == r
    ensures s.mem.operations[i].phase.outcome.Issued?
  {
    assert i < s.mem.head;
    assert Settled(s.disk.journal, r, s.mem.operations[i].phase.outcome);
  }

  lemma NextIssues(s: State, e: Event, r: Request)
    requires Inv(s) && JournaledAs(s.disk.journal, r) && NoneRefused(s.mem, r.enrollmentId) && OwnEntry(s.mem, r) && OnlyOwn(e, r)
    ensures IssuedSince(s.replies, Next(s, e).replies, r)
  {
    if e.Issue? { if e.request != r { OneMoreIssued(s.replies, Reply(e.request, Conflict), r); } }
    else if e.Deliver? {
      if Deliverable(s.mem, e.caller) {
        var caller := s.mem.callers[e.caller];
        var op := s.mem.operations[caller.operation];
        assert op.request == caller.request;
        if caller.request == r { EndedIsIssued(s, caller.operation, r); }
        OneMoreIssued(s.replies, Reply(caller.request, op.phase.outcome), r);
      }
    } else { SilentSteps(s, e); }
  }

  lemma JournaledStays(s: State, e: Event, r: Request)
    requires JournaledAs(s.disk.journal, r)
    ensures JournaledAs(Next(s, e).disk.journal, r) && Looked(Next(s, e).disk.journal, r.enrollmentId) == Looked(s.disk.journal, r.enrollmentId)
  {
    NextExtends(s, e);
  }

  lemma {:induction false} OwnReplaysIssue(s: State, more: seq<Event>, r: Request)
    requires Inv(s) && JournaledAs(s.disk.journal, r) && r.enrollmentId != "" && NoneRefused(s.mem, r.enrollmentId) && OwnEntry(s.mem, r)
    requires Fail !in more && forall i | 0 <= i < |more| :: OnlyOwn(more[i], r)
    ensures IssuedSince(s.replies, Run(s, more).replies, r)
    decreases |more|
  {
    if more != [] {
      var s' := Next(s, more[0]);
      NextKeepsInv(s, more[0]);
      JournaledStays(s, more[0], r);
      NextSpares(s, more[0], r.enrollmentId);
      NextKeepsOwn(s, more[0], r);
      NextIssues(s, more[0], r);
      OwnReplaysIssue(s', more[1..], r);
      IssuedTransitive(s.replies, s'.replies, Run(s', more[1..]).replies, r);
    }
  }

  /** Across crashes, while nobody asks for the enrollment with other material and the service itself does not fail,
      every answer to a request that is journaled is the journaled result: never a conflict, never an error. */
  lemma OwnReplaysAreIssued(start: State, events: seq<Event>, more: seq<Event>, r: Request, i: nat)
    requires Start(start)
    requires JournaledAs(Run(start, events).disk.journal, r) && r.enrollmentId != ""
    requires NoneRefused(Run(start, events).mem, r.enrollmentId) && OwnEntry(Run(start, events).mem, r)
    requires Fail !in more && forall k | 0 <= k < |more| :: OnlyOwn(more[k], r)
    requires |Run(start, events).replies| <= i < |Run(Run(start, events), more).replies| && Run(Run(start, events), more).replies[i].request == r
    ensures Run(Run(start, events), more).replies[i].outcome == Issued(Looked(Run(start, events).disk.journal, r.enrollmentId).result)
  {
    var s := Reached(start, events);
    OwnReplaysIssue(s, more, r);
    ReplaysAnswerFromJournal(start, events, more, r.enrollmentId, i);
  }

  /** Other material is never issued a journaled enrollment. */
  lemma OthersAreNeverIssued(start: State, events: seq<Event>, more: seq<Event>, e: string, i: nat)
    requires Start(start) && Journaled(Run(start, events).disk.journal, e)
    requires |Run(start, events).replies| <= i < |Run(Run(start, events), more).replies| && Run(Run(start, events), more).replies[i].request.enrollmentId == e
    requires Looked(Run(start, events).disk.journal, e).fingerprintHash != IssuanceDigest(Run(Run(start, events), more).replies[i].request.material)
    ensures !Run(Run(start, events), more).replies[i].outcome.Issued?
  {
    ReplaysAnswerFromJournal(start, events, more, e, i);
  }

  // -------------------------------------------------- decisions along the way

  /** `issueCredential` joins the operation in flight for the same material, refuses other material at once, and
      otherwise queues one operation behind those waiting. */
  lemma IssueDecides(s: State, r: Request)
    ensures var m, m' := s.mem, Next(s, Issue(r)).mem;
            if r.enrollmentId !in m.issuances then
              && m'.operations == m.operations + [Operation(r, Queued)] && m'.callers == m.callers + [Caller(r, |m.operations|, true)]
              && m'.issuances == m.issuances[r.enrollmentId := Entry(r.material, |m.operations|)] && Next(s, Issue(r)).replies == s.replies
            else if m.issuances[r.enrollmentId].material == r.material then
              && m'.operations == m.operations && m'.callers == m.callers + [Caller(r, m.issuances[r.enrollmentId].operation, false)]
              && m'.issuances == m.issuances && Next(s, Issue(r)).replies == s.replies
            else m' == m && Next(s, Issue(r)).replies == s.replies + [Reply(r, Conflict)]
  {
  }

  /** A caller is answered with its operation's outcome; a failed or conflicting operation is forgotten by its
      starter, so that the next request queues a new one, and an issued one stays in memory. */
  lemma DeliveryDecides(s: State, c: nat)
    requires Deliverable(s.mem, c)
    ensures var caller := s.mem.callers[c]; var o := s.mem.operations[caller.operation].phase.outcome; var e := caller.request.enrollmentId;
            var s' := Next(s, Deliver(c));
            && s'.replies == s.replies + [Reply(caller.request, o)] && s'.mem.operations == s.mem.operations
            && (o.Issued? || !caller.starter ==> s'.mem.issuances == s.mem.issuances)
            && (!o.Issued? && caller.starter && e in s.mem.issuances && s.mem.issuances[e].operation == caller.operation ==> s'.mem.issuances == s.mem.issuances - {e})
  {
  }

  /** The claim is granted to a running issuance exactly when its authorization is unclaimed, or claimed by the same
      enrollment with the same material or none; and a write whose call fails goes no further. */
  lemma ClaimDecides(s: State, ok: bool)
    requires Runs(s.mem) && Running(s.mem).phase.Claiming?
    ensures var r, s' := Running(s.mem).request, Next(s, Claim(ok)); var key := EvidenceDigest(r.material.evidenceAuthorization);
            var granted := && r.enrollmentId != "" && r.material.evidenceAuthorization != ""
                           && (key in s.disk.claims ==> && s.disk.claims[key].enrollmentKey == EnrollmentDigest(r.enrollmentId)
                                                        && (s.disk.claims[key].materialKey.None? || s.disk.claims[key].materialKey == Some(MaterialDigest(r.material))));
            && (s'.mem.operations[s.mem.head].phase == if granted && ok then Joining(Running(s.mem).phase.blind) else Ended(Refused))
            && (s'.disk.claims == if granted then s.disk.claims[key := Grant(EnrollmentDigest(r.enrollmentId), Some(MaterialDigest(r.material)))] else s.disk.claims)
  {
  }

  // ---------------------------------------------------- what reaches the registry

  predicate Blinded(p: Phase) { p.Claiming? || p.Joining? || p.Adding? }

  /** A blind at work was drawn in this step for authorized evidence, or was at work before. */
  predicate BlindFollows(s: State, e: Event, s': State)
  {
    Runs(s'.mem) && Blinded(Running(s'.mem).phase) ==>
      && Runs(s.mem) && Running(s.mem).request == Running(s'.mem).request
      && (|| (Blinded(Running(s.mem).phase) && Running(s.mem).phase.blind == Running(s'.mem).phase.blind)
          || (e == Validate(true, Running(s'.mem).phase.blind) && |Running(s'.mem).phase.blind| == 32))
  }

  lemma AfterEnd(s: State, o: Outcome)
    requires QueueInv(s.mem, s.disk.journal) && Runs(s.mem)
    ensures var m := End(s.mem, o); Runs(m) ==> Running(m).phase.Queued?
  {
  }

  lemma ReadBlinds(s: State)
    requires Inv(s) && Runs(s.mem)
    ensures BlindFollows(s, Read, Next(s, Read))
  {
    if Running(s.mem).phase.Queued? {
      AfterEnd(s, Refused);
      AfterEnd(s, Conflict);
      var found := Looked(s.disk.journal, Running(s.mem).request.enrollmentId);
      if found.Found? { AfterEnd(s, Issued(found.result)); }
    }
  }

  lemma WorkBlinds(s: State, e: Event)
    requires Inv(s) && Runs(s.mem) && (e.Validate? || e.Claim? || e.Add? || e.Receive? || e.Fail?)
    ensures BlindFollows(s, e, Next(s, e))
  {
    AfterEnd(s, Refused);
  }

  lemma PutBlinds(s: State, ok: bool)
    requires Inv(s) && Runs(s.mem)
    ensures BlindFollows(s, Put(ok), Next(s, Put(ok)))
  {
    AfterEnd(s, Refused);
    if Running(s.mem).phase.Putting? { AfterEnd(s, Issued(Running(s.mem).phase.result)); }
  }

  lemma NextBlinds(s: State, e: Event)
    requires Inv(s)
    ensures BlindFollows(s, e, Next(s, e))
  {
    if Runs(s.mem) {
      if e.Read? { ReadBlinds(s); }
      else if e.Put? { PutBlinds(s, e.ok); }
      else if e.Validate? || e.Claim? || e.Add? || e.Receive? || e.Fail? { WorkBlinds(s, e); }
    }
  }

  lemma NextAdds(s: State, e: Event, x: Added)
    requires x in Next(s, e).ledger.added && x !in s.ledger.added
    ensures Runs(s.mem) && Running(s.mem).phase.Joining? && x == Added(Running(s.mem).request, Running(s.mem).phase.blind)
  {
    if !e.Add? { OnlyAddAdds(s, e); }
  }

  /** Step i found the evidence of this request to authorize its material, and drew this blind for it. */
  predicate DrawnAt(start: State, events: seq<Event>, i: nat, x: Added)
  {
    && i < |events| && events[i] == Validate(true, x.blind) && |x.blind| == 32
    && Runs(Run(start, events[..i]).mem) && Running(Run(start, events[..i]).mem).request == x.request
  }

  lemma DrawnStays(start: State, events: seq<Event>, i: nat, x: Added)
    requires events != [] && DrawnAt(start, events[..|events| - 1], i, x)
    ensures DrawnAt(start, events, i, x)
  {
    assert events[..|events| - 1][..i] == events[..i];
  }

  lemma RunOneMore(s: State, events: seq<Event>)
    requires events != []
    ensures var before := Run(s, events[..|events| - 1]); Run(s, events) == Next(before, events[|events| - 1])
  {
    var e := events[|events| - 1];
    var before := Run(s, events[..|events| - 1]);
    assert events == events[..|events| - 1] + [e];
    RunConcat(s, events[..|events| - 1], [e]);
    assert Run(before, [e]) == Run(Next(before, e), [e][1..]);
  }

  lemma {:induction false} BlindAtWorkIsDrawn(start: State, events: seq<Event>) returns (i: nat)
    requires Start(start) && Runs(Run(start, events).mem) && Blinded(Running(Run(start, events).mem).phase)
    ensures DrawnAt(start, events, i, Added(Running(Run(start, events).mem).request, Running(Run(start, events).mem).phase.blind))
    decreases |events|
  {
    assert events == [] ==> Run(start, events) == start;
    var n := |events| - 1;
    var before := Reached(start, events[..n]);
    RunOneMore(start, events);
    NextBlinds(before, events[n]);
    var op := Running(Run(start, events).mem);
    if Blinded(Running(before.mem).phase) && Running(before.mem).phase.blind == op.phase.blind {
      i := BlindAtWorkIsDrawn(start, events[..n]);
      DrawnStays(start, events, i, Added(op.request, op.phase.blind));
    } else {
      i := n;
    }
  }

  /** Over every run, only authorized evidence reaches the registry: every credential added had its request's
      evidence validated in an earlier step, and carries the blind drawn then, of full length. */
  lemma {:induction false} OnlyAuthorizedAreAdded(start: State, events: seq<Event>, x: Added) returns (i: nat)
    requires Start(start) && x in Run(start, events).ledger.added
    ensures DrawnAt(start, events, i, x)
    decreases |events|
  {
    assert events == [] ==> Run(start, events) == start;
    var n := |events| - 1;
    var before := Reached(start, events[..n]);
    RunOneMore(start, events);
    if x in before.ledger.added {
      i := OnlyAuthorizedAreAdded(start, events[..n], x);
    } else {
      NextAdds(before, events[n], x);
      i := BlindAtWorkIsDrawn(start, events[..n]);
    }
    DrawnStays(start, events, i, x);
  }

  // -------------------------------------------------- what reaches the journal

  /** A result about to be put comes from a canonical receipt for this registry and the blind that was added. */
  predicate PutFollows(s: State, e: Event, s': State)
  {
    Runs(s'.mem) && Running(s'.mem).phase.Putting? && !(Runs(s.mem) && Running(s.mem) == Running(s'.mem)) ==>
      && Runs(s.mem) && Running(s.mem).phase.Adding? && e.Receive? && Canonical(s.registry, e.receipt)
      && Running(s'.mem) == Running(s.mem).(phase := Putting(ResultOf(Running(s.mem).phase.blind, e.leaf, e.receipt)))
  }

  lemma ReadPuts(s: State)
    requires Inv(s) && Runs(s.mem) && Running(s.mem).phase.Queued?
    ensures PutFollows(s, Read, Reading(s))
  {
    AfterEnd(s, Refused);
    AfterEnd(s, Conflict);
    var found := Looked(s.disk.journal, Running(s.mem).request.enrollmentId);
    if found.Found? { AfterEnd(s, Issued(found.result)); }
  }

  lemma PutPuts(s: State, ok: bool)
    requires Inv(s) && Runs(s.mem) && Running(s.mem).phase.Putting?
    ensures PutFollows(s, Put(ok), PutStep(s, ok))
  {
    AfterEnd(s, Refused);
    AfterEnd(s, Issued(Running(s.mem).phase.result));
  }

  lemma NextPuts(s: State, e: Event)
    requires Inv(s)
    ensures PutFollows(s, e, Next(s, e))
  {
    if Runs(s.mem) { AfterEnd(s, Refused); }
    match e
    case Issue(_) =>
    case Read => if Runs(s.mem) && Running(s.mem).phase.Queued? { ReadPuts(s); }
    case Validate(_, _) =>
    case Claim(_) =>
    case Add =>
    case Receive(_, _) =>
    case Put(ok) => if Runs(s.mem) && Running(s.mem).phase.Putting? { PutPuts(s, ok); }
    case Fail =>
    case Deliver(_) =>
    case Crash =>
  }

  lemma RegistryStays(s: State, e: Event)
    ensures Next(s, e).registry == s.registry
  {
    match e
    case Issue(_) =>
    case Read =>
    case Validate(_, _) =>
    case Claim(_) =>
    case Add =>
    case Receive(_, _) =>
    case Put(_) =>
    case Fail =>
    case Deliver(_) =>
    case Crash =>
  }

  /** A result whose receipt confirms, on the configured registry, the credential that it names. */
  predicate Genuine(registry: string, r: DurableStores.Issuance)
  {
    && r.issuanceId == "credential:" + r.receipt.transactionId
    && r.receipt.confirmed && r.receipt.action == "credential" && r.receipt.circuit == "addCredential"
    && r.receipt.contractAddress == registry && r.receipt.network == "preview"
  }

  predicate PuttingGenuine(s: State) { Runs(s.mem) && Running(s.mem).phase.Putting? ==> Genuine(s.registry, Running(s.mem).phase.result) }

  lemma NextPutsGenuine(s: State, e: Event)
    requires Inv(s) && PuttingGenuine(s)
    ensures PuttingGenuine(Next(s, e))
  {
    NextPuts(s, e);
    RegistryStays(s, e);
  }

  lemma {:induction false} AlwaysPutsGenuine(start: State, events: seq<Event>)
    requires Start(start)
    ensures PuttingGenuine(Run(start, events)) && Run(start, events).registry == start.registry
    decreases |events|
  {
    if events != [] {
      var n := |events| - 1;
      AlwaysPutsGenuine(start, events[..n]);
      var before := Reached(start, events[..n]);
      RunOneMore(start, events);
      NextPutsGenuine(before, events[n]);
      RegistryStays(before, events[n]);
    }
  }

  lemma PutJournals(s: State, ok: bool, id: string)
    requires Runs(s.mem) && Running(s.mem).phase.Putting?
    requires Journaled(PutStep(s, ok).disk.journal, id) && !Journaled(s.disk.journal, id)
    ensures Running(s.mem).request.enrollmentId == id
    ensures Looked(PutStep(s, ok).disk.journal, id) == Found(IssuanceDigest(Running(s.mem).request.material), Running(s.mem).phase.result)
  {
    var op := Running(s.mem);
    if PutOutcome(s.disk.journal, op.request.enrollmentId, IssuanceDigest(op.request.material), op.phase.result).Stored? {
      PutThenGet(s.disk.journal, op.request.enrollmentId, IssuanceDigest(op.request.material), op.phase.result, id);
    }
  }

  lemma NextJournals(s: State, e: Event, id: string)
    requires Inv(s) && Journaled(Next(s, e).disk.journal, id) && !Journaled(s.disk.journal, id)
    ensures Runs(s.mem) && Running(s.mem).phase.Putting? && Running(s.mem).request.enrollmentId == id
    ensures Looked(Next(s, e).disk.journal, id) == Found(IssuanceDigest(Running(s.mem).request.material), Running(s.mem).phase.result)
  {
    if e.Claim? { ClaimLeavesJournal(s, e.ok); }
    else if !e.Put? { OthersWriteNothing(s, e); }
    else if Runs(s.mem) && Running(s.mem).phase.Putting? { PutJournals(s, e.ok, id); }
  }

  lemma ClaimLeavesJournal(s: State, ok: bool)
    ensures Next(s, Claim(ok)).disk.journal == s.disk.journal
  {
  }

  /** Over every run, whatever the issuer journals is genuine: a confirmed `addCredential` on its own registry. */
  lemma {:induction false} OnlyGenuineAreJournaled(start: State, events: seq<Event>, id: string)
    requires Start(start) && Journaled(Run(start, events).disk.journal, id) && !Journaled(start.disk.journal, id)
    ensures Looked(Run(start, events).disk.journal, id).Found? && Genuine(start.registry, Looked(Run(start, events).disk.journal, id).result)
    decreases |events|
  {
    if events != [] {
      var n := |events| - 1;
      var before := Reached(start, events[..n]);
      RunOneMore(start, events);
      AlwaysPutsGenuine(start, events[..n]);
      if Journaled(before.disk.journal, id) {
        OnlyGenuineAreJournaled(start, events[..n], id);
        NextExtends(before, events[n]);
      } else {
        NextJournals(before, events[n], id);
      }
    }
  }
}
