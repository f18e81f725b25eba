/** Freezing a credential epoch against enrollment
    (cico-service/src/credential-epoch-coordinator.ts:110-203). */
module EpochFreeze {
  import opened Wrappers
  import DurableStores

  /** A canonical read of the registry. */
  datatype Snapshot = Snapshot(
    registryContractAddress: string, registryId: seq<int>, issuerId: seq<int>, credentialEpoch: nat,
    currentRoot: int, credentialCount: nat, frozen: bool, frozenRoot: int)

  /** What the coordinator was built with; `reconciliationAttempts` is positive. */
  datatype Config = Config(
    registryContractAddress: string, registryId: seq<int>, issuerId: seq<int>, credentialEpoch: nat, reconciliationAttempts: nat)

  /** The result of `closeAndFreeze`; the reference repeats `after`'s identity and frozen root. `at` is the number
      of snapshots read when `before` was the latest. */
  datatype Freeze = Freeze(before: Snapshot, at: nat, after: Snapshot, already: bool)

  /** `readExpectedRegistry` on a read that may have failed. */
  function Expected(cfg: Config, read: Option<Snapshot>): Option<Snapshot>
  {
    if read.Some? && Matches(cfg, read.value) then read else None
  }

  predicate Matches(cfg: Config, s: Snapshot)
  {
    && s.registryContractAddress == cfg.registryContractAddress && s.registryId == cfg.registryId
    && s.issuerId == cfg.issuerId && s.credentialEpoch == cfg.credentialEpoch
  }

  predicate FreezeReceipt(cfg: Config, r: DurableStores.Receipt)
  {
    r.confirmed && r.action == "credential" && r.network == "preview" && r.circuit == "freeze" && r.contractAddress == cfg.registryContractAddress
  }

  /** The frozen state is the one the freeze was coordinated for. */
  predicate Pins(before: Snapshot, after: Snapshot)
  {
    && after.frozen && after.frozenRoot == before.currentRoot && after.currentRoot == before.currentRoot
    && after.credentialCount == before.credentialCount
  }

  // ----------------------------------------------------------- reconciliation

  /** `reconcileFrozen` from some attempt on: the first read that fails or is frozen decides. A read beyond
      the given ones fails. */
  function Reconciled(cfg: Config, before: Snapshot, answers: seq<Option<Snapshot>>, attempt: nat): Option<Snapshot>
    decreases cfg.reconciliationAttempts - attempt
  {
    if attempt >= cfg.reconciliationAttempts || attempt >= |answers| then None
    else
      var read := Expected(cfg, answers[attempt]);
      if read.None? then None
      else if read.value.frozen then (if Pins(before, read.value) then read else None)
      else Reconciled(cfg, before, answers, attempt + 1)
  }

  /** Attempts made. */
  method ReconcileFrozen(cfg: Config, before: Snapshot, answers: seq<Option<Snapshot>>) returns (after: Option<Snapshot>, made: nat)
    ensures made <= cfg.reconciliationAttempts
    ensures after == Reconciled(cfg, before, answers, 0)
    ensures after.Some? ==> 0 < made <= |answers| && answers[made - 1] == after && Matches(cfg, after.value) && Pins(before, after.value)
    ensures forall k | 0 <= k < made - 1 && k < |answers| :: answers[k].Some? && Matches(cfg, answers[k].value) && !answers[k].value.frozen
  {
    made := 0;
    while made < cfg.reconciliationAttempts
      invariant made <= cfg.reconciliationAttempts
      invariant Reconciled(cfg, before, answers, 0) == Reconciled(cfg, before, answers, made)
      invariant made <= |answers|
      invariant forall k | 0 <= k < made :: answers[k].Some? && Matches(cfg, answers[k].value) && !answers[k].value.frozen
    {
      var attempt := made;
      made := made + 1;
      if attempt >= |answers| || Expected(cfg, answers[attempt]).None? {
        return None, made;
      }
      var read := answers[attempt].value;
      if read.frozen {
        if read.frozenRoot != before.currentRoot {
          return None, made;
        }
        if read.currentRoot != before.currentRoot {
          return None, made;
        }
        if read.credentialCount != before.credentialCount {
          return None, made;
        }
        return Some(read), made;
      }
    }
    return None, made;
  }

  // ---------------------------------------------------------- the coordinator

  datatype Phase =
    | Waiting
    | Mutating
    | Joining(before: Snapshot, at: nat)
    | Freezing(before: Snapshot, at: nat)
    | Reconciling(before: Snapshot, at: nat, attempt: nat)
    | Ended

  /** One call: an enrollment mutation or a close; `made` counts its reads. */
  datatype Operation = Operation(closes: bool, phase: Phase, made: nat)

  /** The operation at `head` runs. Each effect says how many snapshots had been read by then. */
  datatype State = State(cfg: Config, operations: seq<Operation>, head: nat, snapshots: seq<Snapshot>, effects: seq<Effect>)

  datatype Effect =
    | Mutated(seen: nat)
    | FreezeCalled(seen: nat, root: int)
    | Returned(seen: nat, freeze: Freeze)

  datatype Event =
    | Enqueue(closes: bool)
    | Read(answer: Option<Snapshot>)
    | Joined
    | FreezeAnswered(receipt: DurableStores.Receipt)
    | Finished
    | Failed
    | Crash

  predicate Runs(s: State) { s.head < |s.operations| }

  function At(s: State, p: Phase): State
    requires Runs(s)
  {
    s.(operations := s.operations[s.head := s.operations[s.head].(phase := p)])
  }

  function End(s: State): State
    requires Runs(s)
  {
    At(s, Ended).(head := s.head + 1)
  }

  function Emit(s: State, e: Effect): State { s.(effects := s.effects + [e]) }

  /** A read is counted, and kept if it answered. */
  function Counted(s: State, answer: Option<Snapshot>): State
    requires Runs(s)
  {
    var op := s.operations[s.head];
    s.(operations := s.operations[s.head := op.(made := op.made + 1)],
       snapshots := if answer.Some? then s.snapshots + [answer.value] else s.snapshots)
  }

  function ReadEnroll(s: State, read: Option<Snapshot>): State
    requires Runs(s)
  {
    if read.None? || read.value.frozen then End(s) else Emit(At(s, Mutating), Mutated(|s.snapshots|))
  }

  function ReadClose(s: State, read: Option<Snapshot>): State
    requires Runs(s)
  {
    var n := |s.snapshots|;
    if read.None? then End(s)
    else if read.value.frozen then
      if read.value.frozenRoot != read.value.currentRoot then End(s)
      else Emit(End(s), Returned(n, Freeze(read.value, n, read.value, true)))
    else if read.value.credentialCount == 0 then End(s)
    else At(s, Joining(read.value, n))
  }

  function ReadReconcile(s: State, before: Snapshot, at: nat, attempt: nat, read: Option<Snapshot>): State
    requires Runs(s)
  {
    if read.None? then End(s)
    else if read.value.frozen then
      if !Pins(before, read.value) then End(s)
      else Emit(End(s), Returned(|s.snapshots|, Freeze(before, at, read.value, false)))
    else if attempt + 1 < s.cfg.reconciliationAttempts then At(s, Reconciling(before, at, attempt + 1))
    else End(s)
  }

  function OnRead(s: State, answer: Option<Snapshot>): State
    requires Runs(s)
  {
    var op := s.operations[s.head];
    var read := Expected(s.cfg, answer);
    match op.phase
    case Waiting => if op.closes then ReadClose(Counted(s, answer), read) else ReadEnroll(Counted(s, answer), read)
    case Reconciling(before, at, attempt) => ReadReconcile(Counted(s, answer), before, at, attempt, read)
    case _ => s
  }

  /** One step; an event that is not enabled changes nothing. A crash drops the queue, the running operation
      included; the history stays. */
  function Next(s: State, e: Event): State
  {
    if e.Enqueue? then s.(operations := s.operations + [Operation(e.closes, Waiting, 0)])
    else if e.Crash? then s.(operations := [], head := 0)
    else if !Runs(s) then s
    else
      var phase := s.operations[s.head].phase;
      match e
      case Read(answer) => OnRead(s, answer)
      case Joined =>
        if !phase.Joining? then s
        else Emit(At(s, Freezing(phase.before, phase.at)), FreezeCalled(|s.snapshots|, phase.before.currentRoot))
      case FreezeAnswered(receipt) =>
        if !phase.Freezing? then s
        else if FreezeReceipt(s.cfg, receipt) then At(s, Reconciling(phase.before, phase.at, 0)) else End(s)
      case Finished => if phase.Mutating? then End(s) else s
      case Failed => End(s)
  }

  function Run(s: State, events: seq<Event>): State
    decreases |events|
  {
    if events == [] then s else Run(Next(s, events[0]), events[1..])
  }

  predicate Start(s: State)
  {
    s.cfg.reconciliationAttempts >= 1 && s.operations == [] && s.head == 0 && s.snapshots == [] && s.effects == []
  }

  // --------------------------------------------------------------- invariant

  /** A snapshot that a freeze may be asked for: expected, open and not empty. */
  predicate Freezable(cfg: Config, before: Snapshot)
  {
    Matches(cfg, before) && !before.frozen && before.credentialCount > 0
  }

  predicate ReadAt(snapshots: seq<Snapshot>, before: Snapshot, at: nat)
  {
    0 < at <= |snapshots| && snapshots[at - 1] == before
  }

  /** How many reads an operation may have made. */
  predicate Frugal(cfg: Config, op: Operation)
  {
    match op.phase
    case Waiting => op.made == 0
    case Reconciling(_, _, attempt) => op.closes && op.made <= 1 + attempt && attempt < cfg.reconciliationAttempts
    case Ended => op.made <= if op.closes then 1 + cfg.reconciliationAttempts else 1
    case Mutating => op.made <= 1
    case _ => op.closes && op.made <= 1
  }

  predicate QueueInv(s: State)
  {
    && s.cfg.reconciliationAttempts >= 1 && s.head <= |s.operations|
    && (forall i | 0 <= i < |s.operations| :: Frugal(s.cfg, s.operations[i]))
    && (forall i | 0 <= i < |s.operations| :: s.operations[i].phase.Ended? <==> i < s.head)
    && (forall i | s.head < i < |s.operations| :: s.operations[i].phase.Waiting?)
  }

  /** Every mutation was let through on a read before position `at`. */
  predicate MutatedBefore(effects: seq<Effect>, at: nat)
  {
    forall i | 0 <= i < |effects| && effects[i].Mutated? :: effects[i].seen < at
  }

  /** The freeze of the root of this snapshot was called while the snapshot was the latest. */
  predicate FreezeWasCalled(effects: seq<Effect>, before: Snapshot, at: nat)
  {
    FreezeCalled(at, before.currentRoot) in effects
  }

  predicate PhaseInv(s: State, p: Phase)
  {
    p.Joining? || p.Freezing? || p.Reconciling? ==>
      && Freezable(s.cfg, p.before) && ReadAt(s.snapshots, p.before, p.at) && MutatedBefore(s.effects, p.at)
      && (!p.Reconciling? ==> p.at == |s.snapshots|)
      && (!p.Joining? ==> FreezeWasCalled(s.effects, p.before, p.at))
  }

  /** What stands before a return in the history: mutations let through earlier than its snapshot, and, unless
      the epoch was frozen already, the call that froze it. */
  predicate Prepared(effects: seq<Effect>, f: Freeze)
  {
    MutatedBefore(effects, f.at) && (!f.already ==> FreezeWasCalled(effects, f.before, f.at))
  }

  /** An effect follows from the read it was decided on: the latest one at the time. */
  predicate Justified(cfg: Config, snapshots: seq<Snapshot>, e: Effect)
  {
    && 0 < e.seen <= |snapshots|
    && var latest := snapshots[e.seen - 1];
       Matches(cfg, latest) &&
       match e
       case Mutated(_) => !latest.frozen
       case FreezeCalled(_, root) => Freezable(cfg, latest) && root == latest.currentRoot
       case Returned(_, f) =>
         && f.after == latest && latest.frozen && latest.frozenRoot == latest.currentRoot && ReadAt(snapshots, f.before, f.at)
         && (if f.already then f.before == latest else Freezable(cfg, f.before) && Pins(f.before, latest))
  }

  predicate EffectsInv(s: State)
  {
    && (forall i | 0 <= i < |s.effects| :: Justified(s.cfg, s.snapshots, s.effects[i]))
    && (forall i, j | 0 <= i < j < |s.effects| :: s.effects[i].seen <= s.effects[j].seen)
    && (forall j | 0 <= j < |s.effects| && s.effects[j].Returned? :: Prepared(s.effects[..j], s.effects[j].freeze))
  }

  predicate Inv(s: State)
  {
    QueueInv(s) && EffectsInv(s) && (Runs(s) ==> PhaseInv(s, s.operations[s.head].phase))
  }

  lemma EmitKeepsEffects(s: State, e: Effect)
    requires EffectsInv(s) && Justified(s.cfg, s.snapshots, e) && e.seen == |s.snapshots|
    requires e.Returned? ==> Prepared(s.effects, e.freeze)
    ensures EffectsInv(Emit(s, e))
  {
    var s' := Emit(s, e);
    forall i, j | 0 <= i < j < |s'.effects| ensures s'.effects[i].seen <= s'.effects[j].seen {
      assert Justified(s.cfg, s.snapshots, s.effects[i]);
    }
    forall j | 0 <= j < |s'.effects| && s'.effects[j].Returned? ensures Prepared(s'.effects[..j], s'.effects[j].freeze) {
      if j < |s.effects| { assert s'.effects[..j] == s.effects[..j]; } else { assert s'.effects[..j] == s.effects; }
    }
  }

  lemma AtKeepsQueue(s: State, p: Phase)
    requires QueueInv(s) && Runs(s) && !p.Ended? && Frugal(s.cfg, s.operations[s.head].(phase := p))
    ensures QueueInv(At(s, p))
  {
  }

  lemma EndKeepsQueue(s: State)
    requires QueueInv(s) && Runs(s)
    ensures QueueInv(End(s)) && (Runs(End(s)) ==> End(s).operations[End(s).head].phase.Waiting?)
  {
  }

  /** After a read is counted: the queue as it was, but for the one read more, and the new snapshot last. */
  predicate JustRead(s: State, read: Option<Snapshot>)
  {
    && Runs(s) && s.cfg.reconciliationAttempts >= 1 && EffectsInv(s)
    && (forall i | 0 <= i < |s.operations| && i != s.head :: Frugal(s.cfg, s.operations[i]))
    && (forall i | 0 <= i < |s.operations| :: s.operations[i].phase.Ended? <==> i < s.head)
    && (forall i | s.head < i < |s.operations| :: s.operations[i].phase.Waiting?)
    && (read.Some? ==> Matches(s.cfg, read.value) && ReadAt(s.snapshots, read.value, |s.snapshots|) && MutatedBefore(s.effects, |s.snapshots|))
  }

  lemma CountedJustRead(s: State, answer: Option<Snapshot>)
    requires Inv(s) && Runs(s)
    ensures JustRead(Counted(s, answer), Expected(s.cfg, answer))
  {
    var s' := Counted(s, answer);
    forall i | 0 <= i < |s.effects|
      ensures Justified(s.cfg, s'.snapshots, s.effects[i]) && s.effects[i].seen <= |s.snapshots|
    {
      assert Justified(s.cfg, s.snapshots, s.effects[i]);
    }
  }

  lemma EndAfterRead(s: State, read: Option<Snapshot>)
    requires JustRead(s, read) && Frugal(s.cfg, s.operations[s.head].(phase := Ended))
    ensures Inv(End(s))
  {
    var s' := End(s);
    assert Runs(s') ==> s'.operations[s'.head] == s.operations[s'.head];
  }

  lemma MoveAfterRead(s: State, read: Option<Snapshot>, p: Phase)
    requires JustRead(s, read) && Frugal(s.cfg, s.operations[s.head].(phase := p)) && !p.Ended? && PhaseInv(s, p)
    ensures Inv(At(s, p))
  {
  }

  lemma ReadEnrollKeepsInv(s: State, read: Option<Snapshot>)
    requires JustRead(s, read) && s.operations[s.head].made == 1
    ensures Inv(ReadEnroll(s, read))
  {
    if read.None? || read.value.frozen { EndAfterRead(s, read); }
    else {
      MoveAfterRead(s, read, Mutating);
      EmitKeepsEffects(At(s, Mutating), Mutated(|s.snapshots|));
    }
  }

  lemma ReturnKeepsInv(s: State, read: Option<Snapshot>, f: Freeze)
    requires JustRead(s, read) && Frugal(s.cfg, s.operations[s.head].(phase := Ended))
    requires Justified(s.cfg, s.snapshots, Returned(|s.snapshots|, f)) && Prepared(s.effects, f)
    ensures Inv(Emit(End(s), Returned(|s.snapshots|, f)))
  {
    EndAfterRead(s, read);
    EmitKeepsEffects(End(s), Returned(|s.snapshots|, f));
  }

  lemma ReadCloseKeepsInv(s: State, read: Option<Snapshot>)
    requires JustRead(s, read) && s.operations[s.head].made == 1 && s.operations[s.head].closes
    ensures Inv(ReadClose(s, read))
  {
    var n := |s.snapshots|;
    if read.Some? && read.value.frozen && read.value.frozenRoot == read.value.currentRoot {
      ReturnKeepsInv(s, read, Freeze(read.value, n, read.value, true));
    } else if read.Some? && !read.value.frozen && read.value.credentialCount > 0 {
      MoveAfterRead(s, read, Joining(read.value, n));
    } else {
      EndAfterRead(s, read);
    }
  }

  lemma ReadReconcileKeepsInv(s: State, before: Snapshot, at: nat, attempt: nat, read: Option<Snapshot>)
    requires JustRead(s, read) && PhaseInv(s, Reconciling(before, at, attempt)) && attempt < s.cfg.reconciliationAttempts
    requires s.operations[s.head].closes && s.operations[s.head].made <= 2 + attempt
    ensures Inv(ReadReconcile(s, before, at, attempt, read))
  {
    if read.Some? && read.value.frozen && Pins(before, read.value) {
      ReturnKeepsInv(s, read, Freeze(before, at, read.value, false));
    } else if read.Some? && !read.value.frozen && attempt + 1 < s.cfg.reconciliationAttempts {
      MoveAfterRead(s, read, Reconciling(before, at, attempt + 1));
    } else {
      EndAfterRead(s, read);
    }
  }

  lemma ReadKeepsInv(s: State, answer: Option<Snapshot>)
    requires Inv(s) && Runs(s)
    ensures Inv(OnRead(s, answer))
  {
    var op := s.operations[s.head];
    assert Frugal(s.cfg, op);
    CountedJustRead(s, answer);
    var s' := Counted(s, answer);
    var read := Expected(s.cfg, answer);
    match op.phase
    case Waiting => if op.closes { ReadCloseKeepsInv(s', read); } else { ReadEnrollKeepsInv(s', read); }
    case Reconciling(before, at, attempt) => ReadReconcileKeepsInv(s', before, at, attempt, read);
    case _ =>
  }

  lemma JoinedKeepsInv(s: State)
    requires Inv(s) && Runs(s) && s.operations[s.head].phase.Joining?
    ensures Inv(Next(s, Joined))
  {
    var phase := s.operations[s.head].phase;
    assert Frugal(s.cfg, s.operations[s.head]);
    var t := At(s, Freezing(phase.before, phase.at));
    AtKeepsQueue(s, Freezing(phase.before, phase.at));
    var call := FreezeCalled(|s.snapshots|, phase.before.currentRoot);
    EmitKeepsEffects(t, call);
    assert (s.effects + [call])[|s.effects|] == call;
  }

  lemma EndKeepsInv(s: State)
    requires Inv(s) && Runs(s)
    ensures Inv(End(s))
  {
    EndKeepsQueue(s);
  }

  lemma NextKeepsInv(s: State, e: Event)
    requires Inv(s)
    ensures Inv(Next(s, e))
  {
    if !e.Enqueue? && !e.Crash? && Runs(s) {
      var op := s.operations[s.head];
      assert Frugal(s.cfg, op);
      match e
      case Read(answer) => ReadKeepsInv(s, answer);
      case Joined => if op.phase.Joining? { JoinedKeepsInv(s); }
      case FreezeAnswered(receipt) =>
        if op.phase.Freezing? {
          if FreezeReceipt(s.cfg, receipt) { AtKeepsQueue(s, Reconciling(op.phase.before, op.phase.at, 0)); } else { EndKeepsInv(s); }
        }
      case _ => EndKeepsInv(s);
    }
  }

  lemma {:induction false} RunKeepsInv(s: State, events: seq<Event>)
    requires Inv(s)
    ensures Inv(Run(s, events))
    decreases |events|
  {
    if events != [] {
      NextKeepsInv(s, events[0]);
      RunKeepsInv(Next(s, events[0]), events[1..]);
    }
  }

  // ----------------------------------------------------- what a step decides

  /** The read names the configured registry, issuer and epoch. */
  predicate OfEpoch(cfg: Config, s: Snapshot)
  {
    && s.registryContractAddress == cfg.registryContractAddress && s.registryId == cfg.registryId
    && s.issuerId == cfg.issuerId && s.credentialEpoch == cfg.credentialEpoch
  }

  /** An enrollment at its turn is let through exactly when its read answers, is of the epoch and is open; otherwise
      it ends without a mutation. */
  lemma EnrollmentDecides(s: State, answer: Option<Snapshot>)
    requires Runs(s) && s.operations[s.head].phase.Waiting? && !s.operations[s.head].closes
    ensures var s' := Next(s, Read(answer));
            if answer.Some? && OfEpoch(s.cfg, answer.value) && !answer.value.frozen
            then s'.effects == s.effects + [Mutated(|s.snapshots| + 1)] && s'.head == s.head && s'.operations[s.head].phase.Mutating?
            else s'.effects == s.effects && s'.head == s.head + 1
  {
  }

  /** A close at its turn returns a frozen epoch with its current root as it is, goes on to freeze an open one that
      holds a credential, and ends otherwise. */
  lemma CloseDecides(s: State, answer: Option<Snapshot>)
    requires Runs(s) && s.operations[s.head].phase.Waiting? && s.operations[s.head].closes
    ensures var s', n := Next(s, Read(answer)), |s.snapshots| + 1;
            if answer.None? || !OfEpoch(s.cfg, answer.value) then s'.effects == s.effects && s'.head == s.head + 1
            else if answer.value.frozen && answer.value.frozenRoot == answer.value.currentRoot
            then s'.effects == s.effects + [Returned(n, Freeze(answer.value, n, answer.value, true))] && s'.head == s.head + 1
            else if !answer.value.frozen && answer.value.credentialCount > 0
            then s'.effects == s.effects && s'.head == s.head && s'.operations[s.head].phase == Joining(answer.value, n)
            else s'.effects == s.effects && s'.head == s.head + 1
  {
  }

  /** A freeze is followed up exactly on a confirmed freeze receipt of this registry. */
  lemma ReceiptDecides(s: State, receipt: DurableStores.Receipt)
    requires Runs(s) && s.operations[s.head].phase.Freezing?
    ensures var s', p := Next(s, FreezeAnswered(receipt)), s.operations[s.head].phase;
            && s'.effects == s.effects
            && (if receipt.confirmed && receipt.action == "credential" && receipt.network == "preview" && receipt.circuit == "freeze"
                   && receipt.contractAddress == s.cfg.registryContractAddress
                then s'.head == s.head && s'.operations[s.head].phase == Reconciling(p.before, p.at, 0)
                else s'.head == s.head + 1)
  {
  }

  /** Reconciliation finds the frozen epoch exactly when, within the configured attempts, some read is of the epoch,
      frozen with the coordinated root and count, and every read before it is of the epoch and still open. */
  predicate FoundAt(cfg: Config, before: Snapshot, answers: seq<Option<Snapshot>>, from: nat, k: nat)
  {
    && from <= k < |answers| && k < cfg.reconciliationAttempts
    && (forall j | from <= j < k :: answers[j].Some? && OfEpoch(cfg, answers[j].value) && !answers[j].value.frozen)
    && answers[k].Some? && OfEpoch(cfg, answers[k].value) && answers[k].value.frozen && answers[k].value.frozenRoot == before.currentRoot
    && answers[k].value.currentRoot == before.currentRoot && answers[k].value.credentialCount == before.credentialCount
  }

  lemma {:induction false} ReconciledIff(cfg: Config, before: Snapshot, answers: seq<Option<Snapshot>>, from: nat, x: Snapshot)
    ensures Reconciled(cfg, before, answers, from) == Some(x) <==> exists k: nat :: FoundAt(cfg, before, answers, from, k) && answers[k] == Some(x)
    decreases cfg.reconciliationAttempts - from
  {
    if from < cfg.reconciliationAttempts && from < |answers| {
      var read := answers[from];
      if read.Some? && OfEpoch(cfg, read.value) && !read.value.frozen {
        ReconciledIff(cfg, before, answers, from + 1, x);
        if k: nat :| FoundAt(cfg, before, answers, from + 1, k) && answers[k] == Some(x) { assert FoundAt(cfg, before, answers, from, k); }
        if k: nat :| FoundAt(cfg, before, answers, from, k) && answers[k] == Some(x) { assert FoundAt(cfg, before, answers, from + 1, k); }
      } else if Reconciled(cfg, before, answers, from) == Some(x) {
        assert FoundAt(cfg, before, answers, from, from);
      }
    }
  }

  /** A turn ends with its mutation, or with a failure at any point, and passes to the next operation in the queue;
      no call is made for it. Whoever queues waits behind all others. */
  lemma TurnsPass(s: State, closes: bool)
    requires QueueInv(s)
    ensures Next(s, Enqueue(closes)).operations == s.operations + [Operation(closes, Waiting, 0)] && Next(s, Enqueue(closes)).head == s.head
    ensures Runs(s) ==> Next(s, Failed).head == s.head + 1 && Next(s, Failed).effects == s.effects
    ensures Runs(s) && s.operations[s.head].phase.Mutating? ==> Next(s, Finished) == Next(s, Failed)
    ensures var t := Next(s, Failed); Runs(s) && Runs(t) ==> t.operations[t.head] == s.operations[s.head + 1] && t.operations[t.head].phase.Waiting?
  {
  }

  lemma RunFour(s: State, a: Event, b: Event, c: Event, d: Event)
    ensures Run(s, [a, b, c, d]) == Next(Next(Next(Next(s, a), b), c), d)
  {
    var s1 := Next(s, a);
    var s2 := Next(s1, b);
    var s3 := Next(s2, c);
    assert Run(s, [a, b, c, d]) == Run(s1, [b, c, d]);
    assert Run(s1, [b, c, d]) == Run(s2, [c, d]);
    assert Run(s2, [c, d]) == Run(s3, [d]);
    assert Run(s3, [d]) == Run(Next(s3, d), []);
  }

  predicate Reaches(s: State, s': State, p: Phase, snapshots: seq<Snapshot>, effects: seq<Effect>)
  {
    Runs(s') && s'.cfg == s.cfg && s'.operations[s'.head].phase == p && s'.snapshots == snapshots && s'.effects == effects
  }

  lemma OpenReadJoins(s: State, before: Snapshot)
    requires Runs(s) && s.operations[s.head].phase.Waiting? && s.operations[s.head].closes
    requires OfEpoch(s.cfg, before) && !before.frozen && before.credentialCount > 0
    ensures Reaches(s, Next(s, Read(Some(before))), Joining(before, |s.snapshots| + 1), s.snapshots + [before], s.effects)
  {
  }

  lemma JoinedFreezes(s: State, before: Snapshot, at: nat)
    requires Runs(s) && s.operations[s.head].phase == Joining(before, at)
    ensures Reaches(s, Next(s, Joined), Freezing(before, at), s.snapshots, s.effects + [FreezeCalled(|s.snapshots|, before.currentRoot)])
  {
  }

  lemma ReceiptFollowed(s: State, before: Snapshot, at: nat, receipt: DurableStores.Receipt)
    requires Runs(s) && s.operations[s.head].phase == Freezing(before, at) && FreezeReceipt(s.cfg, receipt)
    ensures Reaches(s, Next(s, FreezeAnswered(receipt)), Reconciling(before, at, 0), s.snapshots, s.effects)
  {
  }

  lemma FrozenReadReturns(s: State, before: Snapshot, at: nat, after: Snapshot)
    requires Runs(s) && s.operations[s.head].phase == Reconciling(before, at, 0) && OfEpoch(s.cfg, after) && after.frozen
    requires after.frozenRoot == after.currentRoot == before.currentRoot && after.credentialCount == before.credentialCount
    ensures Next(s, Read(Some(after))).effects == s.effects + [Returned(|s.snapshots| + 1, Freeze(before, at, after, false))]
  {
  }

  lemma FromFreezing(s: State, before: Snapshot, at: nat, receipt: DurableStores.Receipt, after: Snapshot)
    requires Runs(s) && s.operations[s.head].phase == Freezing(before, at) && FreezeReceipt(s.cfg, receipt) && OfEpoch(s.cfg, after)
    requires after.frozen && after.frozenRoot == after.currentRoot == before.currentRoot && after.credentialCount == before.credentialCount
    ensures Next(Next(s, FreezeAnswered(receipt)), Read(Some(after))).effects
            == s.effects + [Returned(|s.snapshots| + 1, Freeze(before, at, after, false))]
  {
    ReceiptFollowed(s, before, at, receipt);
    FrozenReadReturns(Next(s, FreezeAnswered(receipt)), before, at, after);
  }

  lemma FromJoining(s: State, before: Snapshot, at: nat, receipt: DurableStores.Receipt, after: Snapshot)
    requires Runs(s) && s.operations[s.head].phase == Joining(before, at) && FreezeReceipt(s.cfg, receipt) && OfEpoch(s.cfg, after)
    requires after.frozen && after.frozenRoot == after.currentRoot == before.currentRoot && after.credentialCount == before.credentialCount
    ensures Next(Next(Next(s, Joined), FreezeAnswered(receipt)), Read(Some(after))).effects
            == s.effects + [FreezeCalled(|s.snapshots|, before.currentRoot), Returned(|s.snapshots| + 1, Freeze(before, at, after, false))]
  {
    JoinedFreezes(s, before, at);
    FromFreezing(Next(s, Joined), before, at, receipt, after);
  }

  /** A close whose turn it is, on an open epoch with credentials, freezes it and returns when the receipt is good
      and the first read shows the coordinated root and count frozen. */
  lemma CloseReturns(s: State, before: Snapshot, receipt: DurableStores.Receipt, after: Snapshot)
    requires Runs(s) && s.operations[s.head].phase.Waiting? && s.operations[s.head].closes && s.cfg.reconciliationAttempts >= 1
    requires OfEpoch(s.cfg, before) && !before.frozen && before.credentialCount > 0
    requires receipt.confirmed && receipt.action == "credential" && receipt.network == "preview" && receipt.circuit == "freeze"
             && receipt.contractAddress == s.cfg.registryContractAddress
    requires OfEpoch(s.cfg, after) && after.frozen && after.frozenRoot == after.currentRoot == before.currentRoot && after.credentialCount == before.credentialCount
    ensures var n := |s.snapshots|;
            Run(s, [Read(Some(before)), Joined, FreezeAnswered(receipt), Read(Some(after))]).effects
            == s.effects + [FreezeCalled(n + 1, before.currentRoot), Returned(n + 2, Freeze(before, n + 1, after, false))]
  {
    RunFour(s, Read(Some(before)), Joined, FreezeAnswered(receipt), Read(Some(after)));
    OpenReadJoins(s, before);
    FromJoining(Next(s, Read(Some(before))), before, |s.snapshots| + 1, receipt, after);
  }

  // ------------------------------------------- the loop and the interleaving

  /** The running close reads on until it ends, or the answers do. */
  function Drive(s: State, answers: seq<Option<Snapshot>>, k: nat): State
    decreases |answers| - k
  {
    if k < |answers| && Runs(s) && s.operations[s.head].phase.Reconciling? then
      var s' := Next(s, Read(answers[k]));
      if s'.head == s.head then Drive(s', answers, k + 1) else s'
    else s
  }

  /** Interleaved or not, the reconciling reads return exactly what the loop returns. */
  lemma {:induction false} DriveIsReconciled(s: State, answers: seq<Option<Snapshot>>, k: nat)
    requires Runs(s) && s.operations[s.head].phase.Reconciling?
    requires k == s.operations[s.head].phase.attempt < s.cfg.reconciliationAttempts
    ensures var p := s.operations[s.head].phase;
            var s' := Drive(s, answers, k);
            var after := Reconciled(s.cfg, p.before, answers, k);
            s'.effects == s.effects + if after.Some? then [Returned(|s'.snapshots|, Freeze(p.before, p.at, after.value, false))] else []
    decreases |answers| - k
  {
    if k < |answers| {
      var s' := Next(s, Read(answers[k]));
      if s'.head == s.head { DriveIsReconciled(s', answers, k + 1); }
    }
  }

  // ------------------------------------------------------------ main results

  /** Reads never go back: after a frozen snapshot only frozen ones are read. */
  predicate Forward(snapshots: seq<Snapshot>)
  {
    forall i, j | 0 <= i < j < |snapshots| && snapshots[i].frozen :: snapshots[j].frozen
  }

  /** Over every interleaving of enrollments, closes, crashes and restarts: once `closeAndFreeze` has returned no enrollment
      mutation runs any more, and none was let through since the snapshot the freeze was coordinated on. */
  lemma FreezeEndsEnrollment(start: State, events: seq<Event>, r: nat, m: nat)
    requires Start(start)
    requires var s := Run(start, events);
             Forward(s.snapshots) && r < |s.effects| && m < |s.effects| && s.effects[r].Returned? && s.effects[m].Mutated?
    ensures var s := Run(start, events);
            m < r && s.effects[m].seen < s.effects[r].freeze.at
  {
    RunKeepsInv(start, events);
    var s := Run(start, events);
    assert Justified(s.cfg, s.snapshots, s.effects[r]) && Justified(s.cfg, s.snapshots, s.effects[m]);
    assert m < r;
    assert s.effects[..r][m] == s.effects[m];
  }

  /** Whatever is returned is a read of the configured, frozen registry; a freeze carried out now pins the root
      and the count of a snapshot, open and not empty, that was the latest one when `freeze` was called for it,
      and was read before the one returned. */
  lemma ReferencePinsCoordinatedRoot(start: State, events: seq<Event>, r: nat)
    requires Start(start) && r < |Run(start, events).effects| && Run(start, events).effects[r].Returned?
    ensures var s := Run(start, events);
            var f := s.effects[r].freeze;
            && Matches(s.cfg, f.after) && f.after.frozen && f.after.frozenRoot == f.after.currentRoot && f.after in s.snapshots
            && f.before in s.snapshots && f.before.currentRoot == f.after.frozenRoot && f.before.credentialCount == f.after.credentialCount
            && (!f.already ==> !f.before.frozen && f.before.credentialCount > 0)
    ensures var s := Run(start, events);
            var f := s.effects[r].freeze;
            !f.already ==> exists k :: 0 <= k < r && s.effects[k] == FreezeCalled(f.at, f.before.currentRoot)
                                       && f.at < s.effects[r].seen && ReadAt(s.snapshots, f.before, f.at)
  {
    RunKeepsInv(start, events);
    var s := Run(start, events);
    var f := s.effects[r].freeze;
    assert Justified(s.cfg, s.snapshots, s.effects[r]);
    if !f.already {
      assert Prepared(s.effects[..r], f);
      var k :| 0 <= k < r && s.effects[..r][k] == FreezeCalled(f.at, f.before.currentRoot);
      assert s.effects[k] == FreezeCalled(f.at, f.before.currentRoot);
      assert s.effects[k].seen <= s.effects[r].seen;
    }
  }

  /** `freeze` is only called for the root just read from an open epoch that holds a credential. */
  lemma EmptyEpochNeverFrozen(start: State, events: seq<Event>, k: nat)
    requires Start(start) && k < |Run(start, events).effects| && Run(start, events).effects[k].FreezeCalled?
    ensures var s := Run(start, events);
            var e := s.effects[k];
            && 0 < e.seen <= |s.snapshots|
            && var latest := s.snapshots[e.seen - 1];
               !latest.frozen && latest.credentialCount > 0 && e.root == latest.currentRoot && Matches(s.cfg, latest)
  {
    RunKeepsInv(start, events);
    assert Justified(Run(start, events).cfg, Run(start, events).snapshots, Run(start, events).effects[k]);
  }

  /** One read per enrollment, and one plus the configured attempts per close. */
  lemma ReadsAreBounded(start: State, events: seq<Event>, i: nat)
    requires Start(start) && i < |Run(start, events).operations|
    ensures var s := Run(start, events);
            s.operations[i].made <= if s.operations[i].closes then 1 + s.cfg.reconciliationAttempts else 1
  {
    RunKeepsInv(start, events);
    var s := Run(start, events);
    assert Frugal(s.cfg, s.operations[i]);
  }
}
