/** The batching publisher of credential roots (cico-service/src/credential-root-publisher.ts). */
module RootPublisher {
  import opened Wrappers

  // ------------------------------------------------------------------- data

  /** A canonical read of the registry: its root and how many credentials it holds. */
  datatype Registry = Registry(root: int, count: nat)

  datatype Referendum = Referendum(enrollmentClosed: bool, closesAtUnix: int)

  /** The options that `runCycle` consults; `minBatchSize` and `maxWaitMs` are positive. */
  datatype Config = Config(targets: seq<string>, minBatchSize: nat, maxWaitMs: nat)

  predicate ValidConfig(cfg: Config) { cfg.minBatchSize >= 1 && cfg.maxWaitMs >= 1 }

  /** How one target behaves in a cycle, should the publisher reach it. */
  datatype TargetBehaviour = TargetBehaviour(deadline: Option<Referendum>, joins: bool, publishes: bool)

  /** Everything the outside world contributes to one cycle; `None` is a read that throws. The four
      clock readings are taken where the code calls `now()`. */
  datatype Cycle = Cycle(
    read: Option<Registry>, pendNow: int, waitNow: int, deadlineNow: int, publishNow: int,
    registryJoins: bool, attests: bool, targets: seq<TargetBehaviour>)

  /** The fields `runCycle` updates. */
  datatype Memory = Memory(
    lastRoot: Option<int>, lastCount: nat, pendingRoot: Option<int>, pendingSince: Option<int>,
    observedBatch: Option<nat>, lastPublishedAt: Option<int>, registryJoined: bool, joined: set<string>)

  const BLANK: Memory := Memory(None, 0, None, None, None, None, false, {})

  datatype SkipReason = NoReferenda | Unchanged | NoNewCredentials | BelowMinimum | AttestationFailed

  datatype Outcome =
    | Threw
    | Skipped(reason: SkipReason, waiting: Option<nat>)
    | Published(root: int, batchSize: nat, belowMinimum: bool, delivered: seq<bool>)

  /** Contract calls, in order. */
  datatype Effect = Attest(root: int, ok: bool) | Publish(target: string, root: int, ok: bool)

  // ---------------------------------------------------------- specification

  /** Some open referendum closes its enrollment within the waiting time. */
  predicate Imminent(cfg: Config, c: Cycle)
    requires |c.targets| == |cfg.targets|
  {
    exists i :: 0 <= i < |cfg.targets| && ClosesSoon(cfg, c, i)
  }

  predicate ClosesSoon(cfg: Config, c: Cycle, i: nat)
    requires i < |c.targets|
  {
    && c.targets[i].deadline.Some? && !c.targets[i].deadline.value.enrollmentClosed
    && c.targets[i].deadline.value.closesAtUnix - c.deadlineNow / 1000 <= (cfg.maxWaitMs + 999) / 1000
  }

  datatype Delivery = Delivery(joined: set<string>, effects: seq<Effect>, delivered: seq<bool>)

  /** Publishing `root` to the first `n` targets: a failing target is recorded and passed over. */
  function Deliver(cfg: Config, c: Cycle, root: int, joined: set<string>, n: nat): Delivery
    requires n <= |cfg.targets| == |c.targets|
  {
    if n == 0 then Delivery(joined, [], [])
    else
      var d := Deliver(cfg, c, root, joined, n - 1);
      var (target, b) := (cfg.targets[n - 1], c.targets[n - 1]);
      if target !in d.joined && !b.joins then Delivery(d.joined, d.effects, d.delivered + [false])
      else Delivery(d.joined + {target}, d.effects + [Publish(target, root, b.publishes)], d.delivered + [b.publishes])
  }

  /** The memory once a root that is not the published one has been noted as pending. */
  function Noted(m: Memory, c: Cycle, r: Registry): Memory
  {
    var m1 := if m.pendingRoot != Some(r.root) then m.(pendingRoot := Some(r.root), pendingSince := Some(c.pendNow)) else m;
    m1.(observedBatch := Some(if r.count > m.lastCount then r.count - m.lastCount else 0))
  }

  predicate Waited(cfg: Config, m: Memory, c: Cycle)
  {
    c.waitNow - (if m.pendingSince.Some? then m.pendingSince.value else c.waitNow) >= cfg.maxWaitMs
  }

  datatype Turn = Turn(memory: Memory, outcome: Outcome, effects: seq<Effect>)

  /** Attestation in its own transaction, then one publication per target. */
  function AttestThenDeliver(cfg: Config, m: Memory, c: Cycle, r: Registry): Turn
    requires |c.targets| == |cfg.targets| && r.count > m.lastCount
  {
    if !m.registryJoined && !c.registryJoins then Turn(m, Skipped(AttestationFailed, None), [])
    else if !c.attests then Turn(m.(registryJoined := true), Skipped(AttestationFailed, None), [Attest(r.root, false)])
    else
      var d := Deliver(cfg, c, r.root, m.joined, |cfg.targets|);
      var batch := r.count - m.lastCount;
      Turn(Memory(Some(r.root), r.count, None, None, Some(0), Some(c.publishNow), true, d.joined),
           Published(r.root, batch, batch < cfg.minBatchSize, d.delivered),
           [Attest(r.root, true)] + d.effects)
  }

  /** `runCycle`. */
  function RunCycle(cfg: Config, m: Memory, c: Cycle): Turn
    requires |c.targets| == |cfg.targets|
  {
    if cfg.targets == [] then Turn(m, Skipped(NoReferenda, None), [])
    else if c.read.None? then Turn(m, Threw, [])
    else
      var r := c.read.value;
      if m.lastRoot == Some(r.root) then Turn(m.(observedBatch := Some(0)), Skipped(Unchanged, None), [])
      else
        var m1 := Noted(m, c, r);
        if r.count <= m.lastCount then Turn(m1, Skipped(NoNewCredentials, None), [])
        else if r.count - m.lastCount < cfg.minBatchSize && !Waited(cfg, m1, c) && !Imminent(cfg, c) then
          Turn(m1, Skipped(BelowMinimum, Some(r.count - m.lastCount)), [])
        else AttestThenDeliver(cfg, m1, c, r)
  }

  // ----------------------------------------------------------------- object

  class CredentialRootPublisher {
    const cfg: Config
    var lastPublishedRootField: Option<int>
    var lastPublishedCredentialCount: nat
    var pendingRootField: Option<int>
    var pendingSinceMs: Option<int>
    var lastObservedBatchSize: Option<nat>
    var lastPublishedAtMs: Option<int>
    var registryJoined: bool
    var joinedReferenda: set<string>
    /** The contract calls made so far. */
    ghost var log: seq<Effect>

    ghost function State(): Memory
      reads this
    {
      Memory(lastPublishedRootField, lastPublishedCredentialCount, pendingRootField, pendingSinceMs,
             lastObservedBatchSize, lastPublishedAtMs, registryJoined, joinedReferenda)
    }

    constructor (cfg: Config)
      requires ValidConfig(cfg)
      ensures this.cfg == cfg && State() == BLANK && log == []
    {
      this.cfg := cfg;
      lastPublishedRootField, lastPublishedCredentialCount := None, 0;
      pendingRootField, pendingSinceMs := None, None;
      lastObservedBatchSize, lastPublishedAtMs := None, None;
      registryJoined, joinedReferenda := false, {};
      log := [];
    }

    method IsEnrollmentDeadlineImminent(c: Cycle) returns (imminent: bool)
      requires |c.targets| == |cfg.targets|
      ensures imminent <==> Imminent(cfg, c)
    {
      var nowSeconds := c.deadlineNow / 1000;
      var thresholdSeconds := (cfg.maxWaitMs + 999) / 1000;
      for i := 0 to |cfg.targets|
        invariant forall k | 0 <= k < i :: !ClosesSoon(cfg, c, k)
      {
        var state := c.targets[i].deadline;
        if state.Some? && !state.value.enrollmentClosed {
          var remaining := state.value.closesAtUnix - nowSeconds;
          if remaining <= thresholdSeconds {
            assert ClosesSoon(cfg, c, i);
            return true;
          }
        }
      }
      imminent := false;
    }

    method PublishToReferenda(c: Cycle, root: int) returns (delivered: seq<bool>)
      requires |c.targets| == |cfg.targets|
      modifies this`joinedReferenda, this`log
      ensures var d := Deliver(cfg, c, root, old(joinedReferenda), |cfg.targets|);
              delivered == d.delivered && joinedReferenda == d.joined && log == old(log) + d.effects
    {
      delivered := [];
      for i := 0 to |cfg.targets|
        invariant var d := Deliver(cfg, c, root, old(joinedReferenda), i);
                  delivered == d.delivered && joinedReferenda == d.joined && log == old(log) + d.effects
      {
        var target := cfg.targets[i];
        if target !in joinedReferenda && !c.targets[i].joins {
          delivered := delivered + [false];
        } else {
          joinedReferenda := joinedReferenda + {target};
          log := log + [Publish(target, root, c.targets[i].publishes)];
          delivered := delivered + [c.targets[i].publishes];
        }
      }
    }

    /** The part of a cycle after its batch was found worth publishing. */
    method AttestAndPublish(c: Cycle, r: Registry) returns (outcome: Outcome)
      requires |c.targets| == |cfg.targets| && r.count > lastPublishedCredentialCount
      modifies this
      ensures var t := AttestThenDeliver(cfg, old(State()), c, r);
              State() == t.memory && outcome == t.outcome && log == old(log) + t.effects
    {
      var batchSize := r.count - lastPublishedCredentialCount;
      if !registryJoined {
        if !c.registryJoins { return Skipped(AttestationFailed, None); }
        registryJoined := true;
      }
      log := log + [Attest(r.root, c.attests)];
      if !c.attests { return Skipped(AttestationFailed, None); }
      var delivered := PublishToReferenda(c, r.root);
      lastPublishedRootField, lastPublishedCredentialCount := Some(r.root), r.count;
      pendingRootField, pendingSinceMs := None, None;
      lastObservedBatchSize, lastPublishedAtMs := Some(0), Some(c.publishNow);
      outcome := Published(r.root, batchSize, batchSize < cfg.minBatchSize, delivered);
    }

    /** One publish cycle, against its specification on values. */
    method PublishOnce(c: Cycle) returns (outcome: Outcome)
      requires |c.targets| == |cfg.targets|
      modifies this
      ensures var t := RunCycle(cfg, old(State()), c);
              State() == t.memory && outcome == t.outcome && log == old(log) + t.effects
    {
      if cfg.targets == [] { return Skipped(NoReferenda, None); }
      if c.read.None? { return Threw; }
      var r := c.read.value;
      if lastPublishedRootField == Some(r.root) {
        lastObservedBatchSize := Some(0);
        return Skipped(Unchanged, None);
      }
      if pendingRootField != Some(r.root) {
        pendingRootField, pendingSinceMs := Some(r.root), Some(c.pendNow);
      }
      lastObservedBatchSize := Some(if r.count > lastPublishedCredentialCount then r.count - lastPublishedCredentialCount else 0);
      assert State() == Noted(old(State()), c, r);
      if r.count <= lastPublishedCredentialCount { return Skipped(NoNewCredentials, None); }
      var batchSize := r.count - lastPublishedCredentialCount;
      var waitedMs := c.waitNow - (if pendingSinceMs.Some? then pendingSinceMs.value else c.waitNow);
      if batchSize < cfg.minBatchSize && waitedMs < cfg.maxWaitMs {
        var deadlineImminent := IsEnrollmentDeadlineImminent(c);
        if !deadlineImminent { return Skipped(BelowMinimum, Some(batchSize)); }
      }
      outcome := AttestAndPublish(c, r);
    }
  }

  // ------------------------------------------------------------------- runs

  predicate Fits(cfg: Config, cs: seq<Cycle>)
  {
    forall i | 0 <= i < |cs| :: |cs[i].targets| == |cfg.targets|
  }

  /** The memory before the k-th of a sequence of non-overlapping cycles. */
  function At(cfg: Config, cs: seq<Cycle>, k: nat): Memory
    requires Fits(cfg, cs) && k <= |cs|
  {
    if k == 0 then BLANK else RunCycle(cfg, At(cfg, cs, k - 1), cs[k - 1]).memory
  }

  function TurnAt(cfg: Config, cs: seq<Cycle>, k: nat): Turn
    requires Fits(cfg, cs) && k < |cs|
  {
    RunCycle(cfg, At(cfg, cs, k), cs[k])
  }

  // ------------------------------------------------- attest, then publish

  lemma {:induction false} DeliverPublishesOnlyRoot(cfg: Config, c: Cycle, root: int, joined: set<string>, n: nat)
    requires n <= |cfg.targets| == |c.targets|
    ensures var d := Deliver(cfg, c, root, joined, n);
            && |d.delivered| == n
            && (forall i | 0 <= i < |d.effects| :: d.effects[i].Publish? && d.effects[i].root == root)
  {
    if n > 0 { DeliverPublishesOnlyRoot(cfg, c, root, joined, n - 1); }
  }

  /** Every publication follows, in the same cycle, a successful attestation of the same root, and a
      cycle that fails to attest publishes nothing. */
  lemma AttestBeforePublish(cfg: Config, cs: seq<Cycle>, k: nat, i: nat)
    requires Fits(cfg, cs) && k < |cs| && i < |TurnAt(cfg, cs, k).effects| && TurnAt(cfg, cs, k).effects[i].Publish?
    ensures var t := TurnAt(cfg, cs, k);
            && t.outcome.Published? && t.effects[i].root == t.outcome.root
            && exists n :: 0 <= n < i && t.effects[n] == Attest(t.effects[i].root, true)
  {
    var m, c := At(cfg, cs, k), cs[k];
    var t := RunCycle(cfg, m, c);
    if t.outcome.Published? {
      DeliverPublishesOnlyRoot(cfg, c, t.outcome.root, m.joined, |cfg.targets|);
      assert t.effects[0] == Attest(t.outcome.root, true);
    }
  }

  /** Honest gating: a published batch is new, is as large as the counts say, met one of the three
      conditions, and is flagged exactly when it is undersized. */
  lemma HonestGating(cfg: Config, cs: seq<Cycle>, k: nat)
    requires Fits(cfg, cs) && k < |cs| && TurnAt(cfg, cs, k).outcome.Published?
    ensures var o := TurnAt(cfg, cs, k).outcome; var m := At(cfg, cs, k); var r := cs[k].read;
            && r.Some? && o.root == r.value.root && o.batchSize == r.value.count - m.lastCount > 0 && m.lastRoot != Some(o.root)
            && (o.belowMinimum <==> o.batchSize < cfg.minBatchSize)
            && (|| o.batchSize >= cfg.minBatchSize || Imminent(cfg, cs[k])
                || cs[k].waitNow - (if m.pendingRoot == Some(o.root) && m.pendingSince.Some? then m.pendingSince.value else cs[k].pendNow) >= cfg.maxWaitMs)
            && |o.delivered| == |cfg.targets|
  {
    PendingTogether(cfg, cs, k);
    DeliverPublishesOnlyRoot(cfg, cs[k], cs[k].read.value.root, At(cfg, cs, k).joined, |cfg.targets|);
  }

  lemma {:induction false} PendingTogether(cfg: Config, cs: seq<Cycle>, k: nat)
    requires Fits(cfg, cs) && k <= |cs|
    ensures At(cfg, cs, k).pendingRoot.Some? <==> At(cfg, cs, k).pendingSince.Some?
  {
    if k > 0 { PendingTogether(cfg, cs, k - 1); }
  }

  // ----------------------------------------------------- what a cycle decides

  /** How long the batch of this read has waited: since the root was first seen, or not at all. */
  function WaitedMs(m: Memory, c: Cycle, r: Registry): int
  {
    if m.pendingRoot == Some(r.root) && m.pendingSince.Some? then c.waitNow - m.pendingSince.value else c.waitNow - c.pendNow
  }

  /** Enrollment of some open referendum closes in no more seconds than the waiting time has, rounded up. */
  predicate ClosesInTime(cfg: Config, c: Cycle)
    requires |c.targets| == |cfg.targets|
  {
    exists i :: 0 <= i < |c.targets| && DeadlineNear(cfg, c, i)
  }

  predicate DeadlineNear(cfg: Config, c: Cycle, i: nat)
    requires i < |c.targets|
  {
    && c.targets[i].deadline.Some? && !c.targets[i].deadline.value.enrollmentClosed
    && 1000 * (c.targets[i].deadline.value.closesAtUnix - c.deadlineNow / 1000) < cfg.maxWaitMs + 1000
  }

  lemma DeadlinesAgree(cfg: Config, c: Cycle)
    requires |c.targets| == |cfg.targets|
    ensures Imminent(cfg, c) <==> ClosesInTime(cfg, c)
  {
    forall i | 0 <= i < |c.targets| ensures ClosesSoon(cfg, c, i) <==> DeadlineNear(cfg, c, i) {}
  }

  /** There is something to publish: a readable registry with an unpublished root and more credentials. */
  predicate HasBatch(cfg: Config, m: Memory, c: Cycle)
  {
    cfg.targets != [] && c.read.Some? && m.lastRoot != Some(c.read.value.root) && c.read.value.count > m.lastCount
  }

  /** It may go out: it is large enough, has waited long enough, or a deadline is near. */
  predicate MayGo(cfg: Config, m: Memory, c: Cycle)
    requires |c.targets| == |cfg.targets| && c.read.Some?
  {
    c.read.value.count - m.lastCount >= cfg.minBatchSize || WaitedMs(m, c, c.read.value) >= cfg.maxWaitMs || ClosesInTime(cfg, c)
  }

  /** Publication, both ways, over all histories: a cycle publishes exactly when there is a batch, it may go out, and
      the registry is joined and attests its root; then it publishes the root and batch that it read. */
  lemma PublishesIff(cfg: Config, cs: seq<Cycle>, k: nat)
    requires Fits(cfg, cs) && k < |cs|
    ensures var m, c, o := At(cfg, cs, k), cs[k], TurnAt(cfg, cs, k).outcome;
            && (o.Published? <==> HasBatch(cfg, m, c) && MayGo(cfg, m, c) && (m.registryJoined || c.registryJoins) && c.attests)
            && (o.Published? ==> o.root == c.read.value.root && o.batchSize == c.read.value.count - m.lastCount
                                 && (o.belowMinimum <==> o.batchSize < cfg.minBatchSize))
  {
    PendingTogether(cfg, cs, k);
    DeadlinesAgree(cfg, cs[k]);
  }

  /** Every other answer, and when it is given. */
  lemma SkipsIff(cfg: Config, cs: seq<Cycle>, k: nat)
    requires Fits(cfg, cs) && k < |cs|
    ensures var m, c, o := At(cfg, cs, k), cs[k], TurnAt(cfg, cs, k).outcome;
            && (o == Skipped(NoReferenda, None) <==> cfg.targets == [])
            && (o == Threw <==> cfg.targets != [] && c.read.None?)
            && (o == Skipped(Unchanged, None) <==> cfg.targets != [] && c.read.Some? && m.lastRoot == Some(c.read.value.root))
            && (o == Skipped(NoNewCredentials, None) <==>
                cfg.targets != [] && c.read.Some? && m.lastRoot != Some(c.read.value.root) && c.read.value.count <= m.lastCount)
            && ((o.Skipped? && o.reason.BelowMinimum?) <==> HasBatch(cfg, m, c) && !MayGo(cfg, m, c))
            && (o.Skipped? && o.reason.BelowMinimum? ==> o.waiting == Some(c.read.value.count - m.lastCount))
            && (o == Skipped(AttestationFailed, None) <==>
                HasBatch(cfg, m, c) && MayGo(cfg, m, c) && !((m.registryJoined || c.registryJoins) && c.attests))
  {
    PendingTogether(cfg, cs, k);
    DeadlinesAgree(cfg, cs[k]);
  }

  /** What the status shows after a cycle that read an unpublished root without publishing it: that root, waiting
      since it was first seen, and the credentials beyond the published ones. */
  lemma StatusAfterWaiting(cfg: Config, cs: seq<Cycle>, k: nat)
    requires Fits(cfg, cs) && k < |cs| && cfg.targets != [] && cs[k].read.Some? && !TurnAt(cfg, cs, k).outcome.Published?
    requires At(cfg, cs, k).lastRoot != Some(cs[k].read.value.root)
    ensures var m, m', r := At(cfg, cs, k), At(cfg, cs, k + 1), cs[k].read.value;
            && m'.pendingRoot == Some(r.root)
            && m'.pendingSince == (if m.pendingRoot == Some(r.root) then m.pendingSince else Some(cs[k].pendNow))
            && m'.observedBatch == Some(if r.count <= m.lastCount then 0 else r.count - m.lastCount)
            && m'.lastPublishedAt == m.lastPublishedAt && m'.joined == m.joined
  {
  }

  /** ... and after any other cycle: nothing waits after a publication or for a published root, and a cycle that
      could not read changes nothing. */
  lemma StatusOtherwise(cfg: Config, cs: seq<Cycle>, k: nat)
    requires Fits(cfg, cs) && k < |cs|
    ensures var m, m', o := At(cfg, cs, k), At(cfg, cs, k + 1), TurnAt(cfg, cs, k).outcome;
            && (o.Published? ==> m'.pendingRoot.None? && m'.pendingSince.None? && m'.observedBatch == Some(0)
                                 && m'.lastPublishedAt == Some(cs[k].publishNow) && m'.registryJoined)
            && (cfg.targets == [] || cs[k].read.None? ==> m' == m)
            && (cfg.targets != [] && cs[k].read.Some? && m.lastRoot == Some(cs[k].read.value.root) ==> m' == m.(observedBatch := Some(0)))
  {
  }

  /** A target is joined by now: earlier, or in this cycle. */
  predicate Reached(cfg: Config, c: Cycle, joined: set<string>, i: nat)
    requires i < |cfg.targets| == |c.targets|
  {
    cfg.targets[i] in joined || exists j :: 0 <= j <= i && cfg.targets[j] == cfg.targets[i] && c.targets[j].joins
  }

  lemma {:induction false} JoinedSoFar(cfg: Config, c: Cycle, root: int, joined: set<string>, n: nat)
    requires n <= |cfg.targets| == |c.targets|
    ensures forall t :: t in Deliver(cfg, c, root, joined, n).joined <==> t in joined || exists j :: 0 <= j < n && cfg.targets[j] == t && c.targets[j].joins
  {
    if n > 0 { JoinedSoFar(cfg, c, root, joined, n - 1); }
  }

  lemma DeliverOneMore(cfg: Config, c: Cycle, root: int, joined: set<string>, n: nat)
    requires 0 < n <= |cfg.targets| == |c.targets|
    ensures var d, d' := Deliver(cfg, c, root, joined, n - 1), Deliver(cfg, c, root, joined, n);
            var reached := Reached(cfg, c, joined, n - 1);
            && d'.delivered == d.delivered + [reached && c.targets[n - 1].publishes]
            && d'.effects == d.effects + if reached then [Publish(cfg.targets[n - 1], root, c.targets[n - 1].publishes)] else []
  {
    JoinedSoFar(cfg, c, root, joined, n - 1);
  }

  lemma {:induction false} DeliveredIff(cfg: Config, c: Cycle, root: int, joined: set<string>, n: nat)
    requires n <= |cfg.targets| == |c.targets|
    ensures var d := Deliver(cfg, c, root, joined, n);
            |d.delivered| == n && |d.effects| <= n && forall i | 0 <= i < n :: d.delivered[i] <==> Reached(cfg, c, joined, i) && c.targets[i].publishes
  {
    if n > 0 {
      DeliveredIff(cfg, c, root, joined, n - 1);
      DeliverOneMore(cfg, c, root, joined, n);
    }
  }

  /** Target i has its publication among the effects. */
  predicate HasPublication(cfg: Config, c: Cycle, root: int, effects: seq<Effect>, i: nat)
    requires i < |cfg.targets| == |c.targets|
  {
    Publish(cfg.targets[i], root, c.targets[i].publishes) in effects
  }

  /** The effect is the publication of one of the first n targets. */
  predicate IsPublication(cfg: Config, c: Cycle, root: int, joined: set<string>, n: nat, e: Effect)
    requires n <= |cfg.targets| == |c.targets|
  {
    exists i :: 0 <= i < n && Reached(cfg, c, joined, i) && e == Publish(cfg.targets[i], root, c.targets[i].publishes)
  }

  lemma {:induction false} PublishedIff(cfg: Config, c: Cycle, root: int, joined: set<string>, n: nat)
    requires n <= |cfg.targets| == |c.targets|
    ensures var d := Deliver(cfg, c, root, joined, n);
            && (forall i | 0 <= i < n && Reached(cfg, c, joined, i) :: HasPublication(cfg, c, root, d.effects, i))
            && (forall e | e in d.effects :: IsPublication(cfg, c, root, joined, n, e))
  {
    if n > 0 {
      PublishedIff(cfg, c, root, joined, n - 1);
      DeliverOneMore(cfg, c, root, joined, n);
      var d, d' := Deliver(cfg, c, root, joined, n - 1), Deliver(cfg, c, root, joined, n);
      forall i | 0 <= i < n && Reached(cfg, c, joined, i) ensures HasPublication(cfg, c, root, d'.effects, i) {
        if i < n - 1 { assert HasPublication(cfg, c, root, d.effects, i); }
      }
      forall e | e in d'.effects ensures IsPublication(cfg, c, root, joined, n, e) {
        if e in d.effects { assert IsPublication(cfg, c, root, joined, n - 1, e); }
      }
    }
  }

  /** Delivery is complete and reported honestly: every reachable target gets one publication of the root, whatever
      happened to the others, no other target gets one, and each is reported delivered exactly when its own
      publication succeeded. */
  lemma DeliveryIsComplete(cfg: Config, c: Cycle, root: int, joined: set<string>)
    requires |cfg.targets| == |c.targets|
    ensures var n := |cfg.targets|; var d := Deliver(cfg, c, root, joined, n);
            && |d.delivered| == n && |d.effects| <= n
            && (forall i | 0 <= i < n :: d.delivered[i] <==> Reached(cfg, c, joined, i) && c.targets[i].publishes)
            && (forall i | 0 <= i < n && Reached(cfg, c, joined, i) :: HasPublication(cfg, c, root, d.effects, i))
            && (forall e | e in d.effects :: IsPublication(cfg, c, root, joined, n, e))
  {
    DeliveredIff(cfg, c, root, joined, |cfg.targets|);
    PublishedIff(cfg, c, root, joined, |cfg.targets|);
  }

  predicate CalledIn(effects: seq<Effect>, target: string) { exists i :: 0 <= i < |effects| && effects[i].Publish? && effects[i].target == target }

  predicate AttestedIn(effects: seq<Effect>) { exists i :: 0 <= i < |effects| && effects[i].Attest? }

  lemma {:induction false} DeliveryJoins(cfg: Config, c: Cycle, root: int, joined: set<string>, n: nat, target: string)
    requires n <= |cfg.targets| == |c.targets|
    ensures var d := Deliver(cfg, c, root, joined, n); target in d.joined <==> target in joined || CalledIn(d.effects, target)
    ensures !AttestedIn(Deliver(cfg, c, root, joined, n).effects)
  {
    if n > 0 {
      DeliveryJoins(cfg, c, root, joined, n - 1, target);
      var before, after := Deliver(cfg, c, root, joined, n - 1).effects, Deliver(cfg, c, root, joined, n).effects;
      if |after| > |before| {
        assert after == before + [after[|before|]];
        CalledOneMore(before, after[|before|], target);
      }
    }
  }

  lemma {:induction false} CalledOneMore(effects: seq<Effect>, e: Effect, target: string)
    ensures CalledIn(effects + [e], target) <==> CalledIn(effects, target) || (e.Publish? && e.target == target)
    ensures AttestedIn(effects + [e]) <==> AttestedIn(effects) || e.Attest?
  {
    var all := effects + [e];
    assert all[|effects|] == e;
    if CalledIn(effects, target) {
      var i :| 0 <= i < |effects| && effects[i].Publish? && effects[i].target == target;
      assert all[i] == effects[i];
    }
    if AttestedIn(effects) {
      var i :| 0 <= i < |effects| && effects[i].Attest?;
      assert all[i] == effects[i];
    }
  }

  lemma {:induction false} CalledAfterAttest(e: Effect, effects: seq<Effect>, target: string)
    requires e.Attest?
    ensures CalledIn([e] + effects, target) <==> CalledIn(effects, target)
    ensures AttestedIn([e] + effects)
  {
    var all := [e] + effects;
    assert all[0] == e && all[1..] == effects;
    if CalledIn(effects, target) {
      var i :| 0 <= i < |effects| && effects[i].Publish? && effects[i].target == target;
      assert all[i + 1] == effects[i];
    }
  }

  lemma {:induction false} CycleJoins(cfg: Config, m: Memory, c: Cycle, target: string)
    requires |c.targets| == |cfg.targets|
    ensures var t := RunCycle(cfg, m, c);
            && (t.memory.registryJoined <==> m.registryJoined || AttestedIn(t.effects))
            && (target in t.memory.joined <==> target in m.joined || CalledIn(t.effects, target))
  {
    var t := RunCycle(cfg, m, c);
    if t.outcome.Published? {
      var d := Deliver(cfg, c, c.read.value.root, m.joined, |cfg.targets|);
      DeliveryJoins(cfg, c, c.read.value.root, m.joined, |cfg.targets|, target);
      CalledAfterAttest(Attest(c.read.value.root, true), d.effects, target);
    } else if t.effects != [] {
      assert t.effects[0].Attest?;
    }
  }

  lemma {:induction false} JoinsAt(cfg: Config, cs: seq<Cycle>, k: nat, target: string)
    requires Fits(cfg, cs) && k < |cs|
    ensures At(cfg, cs, k + 1).registryJoined <==> At(cfg, cs, k).registryJoined || AttestedIn(TurnAt(cfg, cs, k).effects)
    ensures target in At(cfg, cs, k + 1).joined <==> target in At(cfg, cs, k).joined || CalledIn(TurnAt(cfg, cs, k).effects, target)
  {
    CycleJoins(cfg, At(cfg, cs, k), cs[k], target);
  }

  predicate AttestedBefore(cfg: Config, cs: seq<Cycle>, k: nat)
    requires Fits(cfg, cs) && k <= |cs|
  {
    exists j :: 0 <= j < k && AttestedIn(TurnAt(cfg, cs, j).effects)
  }

  predicate CalledBefore(cfg: Config, cs: seq<Cycle>, k: nat, target: string)
    requires Fits(cfg, cs) && k <= |cs|
  {
    exists j :: 0 <= j < k && CalledIn(TurnAt(cfg, cs, j).effects, target)
  }

  lemma {:induction false} BeforeOneMore(cfg: Config, cs: seq<Cycle>, k: nat, target: string)
    requires Fits(cfg, cs) && k < |cs|
    ensures AttestedBefore(cfg, cs, k + 1) <==> AttestedBefore(cfg, cs, k) || AttestedIn(TurnAt(cfg, cs, k).effects)
    ensures CalledBefore(cfg, cs, k + 1, target) <==> CalledBefore(cfg, cs, k, target) || CalledIn(TurnAt(cfg, cs, k).effects, target)
  {
    if j :| 0 <= j < k + 1 && AttestedIn(TurnAt(cfg, cs, j).effects) { assert j < k || j == k; }
    if j :| 0 <= j < k + 1 && CalledIn(TurnAt(cfg, cs, j).effects, target) { assert j < k || j == k; }
  }

  /** Contracts are joined once: the registry counts as joined exactly after a first attestation call, and a target
      exactly after a first publication call to it, whether or not these succeeded. */
  lemma {:induction false} JoinedIffCalled(cfg: Config, cs: seq<Cycle>, k: nat, target: string)
    requires Fits(cfg, cs) && k <= |cs|
    ensures At(cfg, cs, k).registryJoined <==> AttestedBefore(cfg, cs, k)
    ensures target in At(cfg, cs, k).joined <==> CalledBefore(cfg, cs, k, target)
  {
    if k > 0 {
      JoinedIffCalled(cfg, cs, k - 1, target);
      JoinsAt(cfg, cs, k - 1, target);
      BeforeOneMore(cfg, cs, k - 1, target);
    }
  }

  /** What a cycle calls on the contracts: one attestation of the root it read, if it gets so far, and after a
      successful one the delivery. */
  lemma CallsOfCycle(cfg: Config, cs: seq<Cycle>, k: nat)
    requires Fits(cfg, cs) && k < |cs|
    ensures var m, c, t := At(cfg, cs, k), cs[k], TurnAt(cfg, cs, k);
            && (t.outcome.Published? ==> t.effects == [Attest(c.read.value.root, true)] + Deliver(cfg, c, c.read.value.root, m.joined, |cfg.targets|).effects
                                         && t.outcome.delivered == Deliver(cfg, c, c.read.value.root, m.joined, |cfg.targets|).delivered)
            && (!t.outcome.Published? ==> t.effects == if HasBatch(cfg, m, c) && MayGo(cfg, m, c) && (m.registryJoined || c.registryJoins)
                                                       then [Attest(c.read.value.root, false)] else [])
  {
    PendingTogether(cfg, cs, k);
    DeadlinesAgree(cfg, cs[k]);
  }

  // ------------------------------------------------------------ conservation

  /** The number of credentials admitted by the first `k` cycles. */
  function Admitted(cfg: Config, cs: seq<Cycle>, k: nat): nat
    requires Fits(cfg, cs) && k <= |cs|
  {
    if k == 0 then 0
    else Admitted(cfg, cs, k - 1) + (if TurnAt(cfg, cs, k - 1).outcome.Published? then TurnAt(cfg, cs, k - 1).outcome.batchSize else 0)
  }

  /** Conservation: the published batches add up to the published count, after any sequence of cycles. */
  lemma {:induction false} CredentialsConserved(cfg: Config, cs: seq<Cycle>, k: nat)
    requires Fits(cfg, cs) && k <= |cs|
    ensures Admitted(cfg, cs, k) == At(cfg, cs, k).lastCount
  {
    if k > 0 { CredentialsConserved(cfg, cs, k - 1); }
  }

  /** Bookkeeping moves exactly with publications: a publication raises the count and changes the root to
      what was read; any other cycle leaves both. */
  lemma PublicationsMoveBookkeeping(cfg: Config, cs: seq<Cycle>, k: nat)
    requires Fits(cfg, cs) && k < |cs|
    ensures var m, m' := At(cfg, cs, k), At(cfg, cs, k + 1);
            if TurnAt(cfg, cs, k).outcome.Published? then
              m'.lastCount > m.lastCount && m'.lastRoot != m.lastRoot && cs[k].read == Some(Registry(m'.lastRoot.value, m'.lastCount))
            else m'.lastCount == m.lastCount && m'.lastRoot == m.lastRoot
  {
  }

  lemma {:induction false} QuietBetween(cfg: Config, cs: seq<Cycle>, a: nat, b: nat)
    requires Fits(cfg, cs) && a <= b <= |cs| && forall k | a <= k < b :: !TurnAt(cfg, cs, k).outcome.Published?
    ensures At(cfg, cs, b).lastCount == At(cfg, cs, a).lastCount && At(cfg, cs, b).lastRoot == At(cfg, cs, a).lastRoot
    decreases b
  {
    if a < b {
      QuietBetween(cfg, cs, a, b - 1);
      PublicationsMoveBookkeeping(cfg, cs, b - 1);
    }
  }

  /** Two consecutive publications admit different roots, the later with a larger count. */
  lemma ConsecutiveRootsDiffer(cfg: Config, cs: seq<Cycle>, i: nat, j: nat)
    requires Fits(cfg, cs) && i < j < |cs| && TurnAt(cfg, cs, i).outcome.Published? && TurnAt(cfg, cs, j).outcome.Published?
    requires forall k | i < k < j :: !TurnAt(cfg, cs, k).outcome.Published?
    ensures TurnAt(cfg, cs, i).outcome.root != TurnAt(cfg, cs, j).outcome.root
    ensures cs[i].read.Some? && cs[j].read.Some? && cs[i].read.value.count < cs[j].read.value.count
  {
    PublicationsMoveBookkeeping(cfg, cs, i);
    QuietBetween(cfg, cs, i + 1, j);
    PublicationsMoveBookkeeping(cfg, cs, j);
  }

  // ------------------------------------------------------------ bounded wait

  /** An append-only registry: counts never fall, and root and count determine each other. */
  predicate AppendOnly(cs: seq<Cycle>)
  {
    forall i, j | 0 <= i < j < |cs| && cs[i].read.Some? && cs[j].read.Some? ::
      && cs[i].read.value.count <= cs[j].read.value.count
      && (cs[i].read.value.root == cs[j].read.value.root <==> cs[i].read.value.count == cs[j].read.value.count)
  }

  lemma {:induction false} LastPublishedWasRead(cfg: Config, cs: seq<Cycle>, k: nat)
    requires Fits(cfg, cs) && k <= |cs| && At(cfg, cs, k).lastRoot.Some?
    ensures exists j :: 0 <= j < k && cs[j].read == Some(Registry(At(cfg, cs, k).lastRoot.value, At(cfg, cs, k).lastCount))
  {
    PublicationsMoveBookkeeping(cfg, cs, k - 1);
    if !TurnAt(cfg, cs, k - 1).outcome.Published? { LastPublishedWasRead(cfg, cs, k - 1); }
  }

  predicate Below(cfg: Config, cs: seq<Cycle>, k: nat)
    requires Fits(cfg, cs) && k < |cs|
  {
    TurnAt(cfg, cs, k).outcome.Skipped? && TurnAt(cfg, cs, k).outcome.reason.BelowMinimum?
  }

  /** A cycle that read the registry and was not stopped by a failing attestation. */
  predicate Healthy(cfg: Config, cs: seq<Cycle>, k: nat)
    requires Fits(cfg, cs) && k < |cs|
  {
    !TurnAt(cfg, cs, k).outcome.Threw? && !(TurnAt(cfg, cs, k).outcome.Skipped? && TurnAt(cfg, cs, k).outcome.reason.AttestationFailed?)
  }

  /** The bookkeeping has not moved between two cycles. */
  predicate SameBook(cfg: Config, cs: seq<Cycle>, f: nat, k: nat)
    requires Fits(cfg, cs) && f <= k <= |cs|
  {
    At(cfg, cs, k).lastCount == At(cfg, cs, f).lastCount && At(cfg, cs, k).lastRoot == At(cfg, cs, f).lastRoot
  }

  /** Between publications, once a batch is pending every healthy cycle that does not publish answers
      `below-minimum-batch`. */
  lemma BelowContinues(cfg: Config, cs: seq<Cycle>, f: nat, k: nat)
    requires Fits(cfg, cs) && AppendOnly(cs) && f < k < |cs| && Below(cfg, cs, f) && Calm(cfg, cs, k) && SameBook(cfg, cs, f, k)
    ensures Below(cfg, cs, k)
  {
    var m := At(cfg, cs, k);
    if m.lastRoot.Some? {
      LastPublishedWasRead(cfg, cs, k);
      var j :| 0 <= j < k && cs[j].read == Some(Registry(m.lastRoot.value, m.lastCount));
      assert cs[f].read.value.count <= cs[k].read.value.count;
    }
  }

  /** Distinct sequence positions in a range of integers fit into that range. */
  lemma {:induction false} DistinctInRange(xs: seq<int>, lo: int, hi: int)
    requires lo <= hi && (forall i | 0 <= i < |xs| :: lo <= xs[i] < hi) && (forall i, j | 0 <= i < j < |xs| :: xs[i] != xs[j])
    ensures |xs| <= hi - lo
    decreases hi - lo
  {
    assert xs != [] ==> lo <= xs[0] < hi;
    if lo < hi && xs != [] {
      if k :| 0 <= k < |xs| && xs[k] == hi - 1 {
        var ys := xs[..k] + xs[k + 1..];
        assert forall i | 0 <= i < |ys| :: ys[i] == if i < k then xs[i] else xs[i + 1];
        DistinctInRange(ys, lo, hi - 1);
      } else {
        DistinctInRange(xs, lo, hi - 1);
      }
    }
  }

  /** Between two publications at most `minBatchSize - 1` distinct roots are answered below-minimum. */
  lemma FewRootsBelowMinimum(cfg: Config, cs: seq<Cycle>, a: nat, b: nat, ks: seq<nat>)
    requires ValidConfig(cfg) && Fits(cfg, cs) && AppendOnly(cs) && a <= b <= |cs|
    requires forall k | a <= k < b :: !TurnAt(cfg, cs, k).outcome.Published?
    requires forall i | 0 <= i < |ks| :: a <= ks[i] < b && Below(cfg, cs, ks[i])
    requires forall i, j | 0 <= i < j < |ks| :: cs[ks[i]].read.Some? && cs[ks[j]].read.Some? && cs[ks[i]].read.value.root != cs[ks[j]].read.value.root
    ensures |ks| <= cfg.minBatchSize - 1
  {
    var lo := At(cfg, cs, a).lastCount + 1;
    forall i | 0 <= i < |ks| ensures cs[ks[i]].read.Some? && lo <= cs[ks[i]].read.value.count < lo + cfg.minBatchSize - 1 {
      QuietBetween(cfg, cs, a, ks[i]);
    }
    var counts: seq<int> := seq(|ks|, i requires 0 <= i < |ks| => cs[ks[i]].read.value.count);
    forall i, j | 0 <= i < j < |ks| ensures counts[i] != counts[j] {
      var x, y := if ks[i] < ks[j] then ks[i] else ks[j], if ks[i] < ks[j] then ks[j] else ks[i];
      assert x < y ==> (cs[x].read.value.root == cs[y].read.value.root <==> cs[x].read.value.count == cs[y].read.value.count);
    }
    DistinctInRange(counts, lo, lo + cfg.minBatchSize - 1);
  }

  /** A healthy cycle that publishes nothing, on a clock that does not run back. */
  predicate Calm(cfg: Config, cs: seq<Cycle>, k: nat)
    requires Fits(cfg, cs) && k < |cs|
  {
    Healthy(cfg, cs, k) && !TurnAt(cfg, cs, k).outcome.Published? && cs[k].pendNow <= cs[k].waitNow
  }

  predicate Follows(cs: seq<Cycle>, k: nat, gap: nat)
    requires k + 1 < |cs|
  {
    cs[k].waitNow <= cs[k + 1].pendNow <= cs[k].waitNow + gap
  }

  /** Cycles f to l: healthy, on a monotone clock, at most `gap` apart, with nothing published. */
  predicate SteadyWait(cfg: Config, cs: seq<Cycle>, f: nat, l: nat, gap: nat)
    requires Fits(cfg, cs) && f <= l < |cs|
  {
    && (forall k {:trigger Calm(cfg, cs, k)} | f <= k <= l :: Calm(cfg, cs, k))
    && (forall k {:trigger Follows(cs, k, gap)} | f <= k < l :: Follows(cs, k, gap))
  }

  /** When the batch of cycle k started to wait. */
  function Since(cfg: Config, cs: seq<Cycle>, k: nat): int
    requires Fits(cfg, cs) && k < |cs|
  {
    if At(cfg, cs, k + 1).pendingSince.Some? then At(cfg, cs, k + 1).pendingSince.value else 0
  }

  /** One cycle to the next: the waiting start moves only with a new root, and then by less than a wait and a gap. */
  lemma SinceMoves(cfg: Config, cs: seq<Cycle>, k: nat, gap: nat)
    requires ValidConfig(cfg) && Fits(cfg, cs) && AppendOnly(cs) && k + 1 < |cs|
    requires Below(cfg, cs, k) && Below(cfg, cs, k + 1) && cs[k + 1].pendNow <= cs[k].waitNow + gap
    ensures cs[k].read.Some? && cs[k + 1].read.Some? && cs[k].read.value.count <= cs[k + 1].read.value.count
    ensures cs[k].waitNow < Since(cfg, cs, k) + cfg.maxWaitMs && cs[k + 1].waitNow < Since(cfg, cs, k + 1) + cfg.maxWaitMs
    ensures if cs[k].read.value.count == cs[k + 1].read.value.count then Since(cfg, cs, k + 1) == Since(cfg, cs, k)
            else Since(cfg, cs, k + 1) < Since(cfg, cs, k) + cfg.maxWaitMs + gap
  {
    PendingTogether(cfg, cs, k);
    PendingTogether(cfg, cs, k + 1);
  }

  /** How far the waiting start has been pushed from cycle f to cycle l: less than one wait and one gap
      for each credential that arrived in between. */
  predicate PushedAtMost(cfg: Config, cs: seq<Cycle>, f: nat, l: nat, gap: nat)
    requires Fits(cfg, cs) && f <= l < |cs|
  {
    && cs[f].read.Some? && cs[l].read.Some? && cs[f].read.value.count <= cs[l].read.value.count
    && Since(cfg, cs, l) <= Since(cfg, cs, f) + Times(cs[l].read.value.count - cs[f].read.value.count, cfg.maxWaitMs + gap)
  }

  lemma PushStep(cfg: Config, cs: seq<Cycle>, f: nat, l: nat, gap: nat)
    requires ValidConfig(cfg) && Fits(cfg, cs) && AppendOnly(cs) && f < l < |cs| && PushedAtMost(cfg, cs, f, l - 1, gap)
    requires Below(cfg, cs, l - 1) && Below(cfg, cs, l) && Follows(cs, l - 1, gap)
    ensures PushedAtMost(cfg, cs, f, l, gap)
  {
    SinceMoves(cfg, cs, l - 1, gap);
    TimesMonotone(cs[l - 1].read.value.count - cs[f].read.value.count, cs[l].read.value.count - cs[f].read.value.count, cfg.maxWaitMs + gap);
  }

  lemma BelowWaits(cfg: Config, cs: seq<Cycle>, k: nat)
    requires Fits(cfg, cs) && k < |cs| && Below(cfg, cs, k)
    ensures cs[k].read.Some? && cs[k].waitNow < Since(cfg, cs, k) + cfg.maxWaitMs
  {
    PendingTogether(cfg, cs, k);
  }

  predicate StillWaiting(cfg: Config, cs: seq<Cycle>, f: nat, l: nat, gap: nat)
    requires Fits(cfg, cs) && f <= l < |cs|
  {
    Below(cfg, cs, f) && Below(cfg, cs, l) && SameBook(cfg, cs, f, l) && PushedAtMost(cfg, cs, f, l, gap)
  }

  lemma WaitStep(cfg: Config, cs: seq<Cycle>, f: nat, l: nat, gap: nat)
    requires ValidConfig(cfg) && Fits(cfg, cs) && AppendOnly(cs) && f < l < |cs| && StillWaiting(cfg, cs, f, l - 1, gap)
    requires Calm(cfg, cs, l - 1) && Calm(cfg, cs, l) && Follows(cs, l - 1, gap)
    ensures StillWaiting(cfg, cs, f, l, gap)
  {
    PublicationsMoveBookkeeping(cfg, cs, l - 1);
    BelowContinues(cfg, cs, f, l);
    PushStep(cfg, cs, f, l, gap);
  }

  lemma {:induction false} WaitAccumulates(cfg: Config, cs: seq<Cycle>, f: nat, l: nat, gap: nat)
    requires ValidConfig(cfg) && Fits(cfg, cs) && AppendOnly(cs) && f <= l < |cs| && Below(cfg, cs, f) && SteadyWait(cfg, cs, f, l, gap)
    ensures StillWaiting(cfg, cs, f, l, gap)
    decreases l
  {
    if f == l {
      BelowWaits(cfg, cs, f);
    } else {
      SteadyPrefix(cfg, cs, f, l, gap);
      WaitAccumulates(cfg, cs, f, l - 1, gap);
      WaitStep(cfg, cs, f, l, gap);
    }
  }

  lemma SteadyPrefix(cfg: Config, cs: seq<Cycle>, f: nat, l: nat, gap: nat)
    requires Fits(cfg, cs) && f < l < |cs| && SteadyWait(cfg, cs, f, l, gap)
    ensures SteadyWait(cfg, cs, f, l - 1, gap) && Calm(cfg, cs, l - 1) && Calm(cfg, cs, l) && Follows(cs, l - 1, gap)
  {
  }

  /** `x` times `w`, by repeated addition. */
  function Times(x: nat, w: nat): nat { if x == 0 then 0 else Times(x - 1, w) + w }

  lemma {:induction false} TimesIsProduct(x: nat, w: nat)
    ensures Times(x, w) == x * w
  {
    if x > 0 {
      TimesIsProduct(x - 1, w);
      assert (x - 1) * w + w == x * w;
    }
  }

  lemma {:induction false} TimesMonotone(x: nat, y: nat, w: nat)
    requires x <= y
    ensures Times(y, w) >= Times(x, w) + (if x < y then w else 0)
  {
    if x < y { TimesMonotone(x, y - 1, w); }
  }

  /** Bounded wait: however often new enrollments restart the timer, the answers `below-minimum-batch` for one
      batch span less than (minBatchSize - 1) times the waiting time plus the cycle gap. */
  lemma BoundedWait(cfg: Config, cs: seq<Cycle>, f: nat, l: nat, gap: nat)
    requires ValidConfig(cfg) && Fits(cfg, cs) && AppendOnly(cs) && f <= l < |cs| && Below(cfg, cs, f) && SteadyWait(cfg, cs, f, l, gap)
    ensures cs[l].waitNow - Since(cfg, cs, f) < (cfg.minBatchSize - 1) * (cfg.maxWaitMs + gap)
  {
    WaitAccumulates(cfg, cs, f, l, gap);
    BelowWaits(cfg, cs, l);
    TimesMonotone(cs[l].read.value.count - cs[f].read.value.count + 1, cfg.minBatchSize - 1, cfg.maxWaitMs + gap);
    TimesIsProduct(cfg.minBatchSize - 1, cfg.maxWaitMs + gap);
  }

  /** While the root stays the same, the wait is bounded by `maxWaitMs` alone. */
  lemma SameRootWithinMaxWait(cfg: Config, cs: seq<Cycle>, f: nat, l: nat, gap: nat)
    requires ValidConfig(cfg) && Fits(cfg, cs) && AppendOnly(cs) && f <= l < |cs| && Below(cfg, cs, f) && SteadyWait(cfg, cs, f, l, gap)
    requires cs[f].read.Some? && cs[l].read.Some? && cs[f].read.value.root == cs[l].read.value.root
    ensures cs[l].waitNow < Since(cfg, cs, f) + cfg.maxWaitMs
  {
    WaitAccumulates(cfg, cs, f, l, gap);
    BelowWaits(cfg, cs, l);
  }

  /** A cycle that goes on waiting keeps the waiting start, unless it read another root: then the wait starts over. */
  lemma WaitRestarts(cfg: Config, cs: seq<Cycle>, k: nat)
    requires Fits(cfg, cs) && k + 1 < |cs| && Below(cfg, cs, k) && Below(cfg, cs, k + 1)
    ensures cs[k].read.Some? && cs[k + 1].read.Some?
    ensures Since(cfg, cs, k + 1) ==
            if cs[k].read.value.root == cs[k + 1].read.value.root then Since(cfg, cs, k) else cs[k + 1].pendNow
  {
    PendingTogether(cfg, cs, k);
    PendingTogether(cfg, cs, k + 1);
  }

  predicate NoLaterStart(cfg: Config, cs: seq<Cycle>, f: nat, l: nat)
    requires Fits(cfg, cs) && f <= l < |cs|
  {
    && cs[f].read.Some? && cs[l].read.Some? && cs[f].read.value.count <= cs[l].read.value.count
    && (if cs[f].read.value.root == cs[l].read.value.root then Since(cfg, cs, l) == Since(cfg, cs, f) else Since(cfg, cs, l) > Since(cfg, cs, f))
  }

  predicate After(cs: seq<Cycle>, k: nat, t: int) requires k < |cs| { cs[k].pendNow > t }

  /** The clock of every cycle after f, up to l, has moved beyond t. */
  predicate AllAfter(cs: seq<Cycle>, f: nat, l: nat, t: int)
    requires l < |cs|
  {
    forall k {:trigger After(cs, k, t)} | f < k <= l :: After(cs, k, t)
  }

  /** The promised time `pendingSince + maxWaitMs` of one batch stands exactly as long as the root does: on a
      clock that moves on, every new root moves the promise to a later time. */
  lemma {:induction false} PromiseMovesWithRoot(cfg: Config, cs: seq<Cycle>, f: nat, l: nat, gap: nat)
    requires ValidConfig(cfg) && Fits(cfg, cs) && AppendOnly(cs) && f <= l < |cs| && Below(cfg, cs, f) && SteadyWait(cfg, cs, f, l, gap)
    requires AllAfter(cs, f, l, Since(cfg, cs, f))
    ensures NoLaterStart(cfg, cs, f, l)
    decreases l
  {
    if f < l {
      StillBelow(cfg, cs, f, l, gap);
      SteadyPrefix(cfg, cs, f, l, gap);
      StillBelow(cfg, cs, f, l - 1, gap);
      PromiseMovesWithRoot(cfg, cs, f, l - 1, gap);
      assert After(cs, l, Since(cfg, cs, f));
      StartStep(cfg, cs, f, l);
    } else {
      BelowWaits(cfg, cs, f);
    }
  }

  lemma StillBelow(cfg: Config, cs: seq<Cycle>, f: nat, l: nat, gap: nat)
    requires ValidConfig(cfg) && Fits(cfg, cs) && AppendOnly(cs) && f <= l < |cs| && Below(cfg, cs, f) && SteadyWait(cfg, cs, f, l, gap)
    ensures Below(cfg, cs, l)
  {
    WaitAccumulates(cfg, cs, f, l, gap);
  }

  lemma StartStep(cfg: Config, cs: seq<Cycle>, f: nat, l: nat)
    requires Fits(cfg, cs) && AppendOnly(cs) && f < l < |cs| && NoLaterStart(cfg, cs, f, l - 1)
    requires Below(cfg, cs, l - 1) && Below(cfg, cs, l) && After(cs, l, Since(cfg, cs, f))
    ensures NoLaterStart(cfg, cs, f, l)
  {
    WaitRestarts(cfg, cs, l - 1);
    CountsDecideRoots(cs, f, l - 1, l);
  }

  lemma CountsDecideRoots(cs: seq<Cycle>, f: nat, k: nat, l: nat)
    requires AppendOnly(cs) && f <= k < l < |cs| && cs[f].read.Some? && cs[k].read.Some? && cs[l].read.Some?
    ensures cs[f].read.value.count <= cs[k].read.value.count <= cs[l].read.value.count
    ensures cs[f].read.value.root == cs[l].read.value.root ==>
            cs[f].read.value.root == cs[k].read.value.root
  {
    if f < k { assert cs[f].read.value.count <= cs[k].read.value.count; }
    assert cs[k].read.value.count <= cs[l].read.value.count;
    assert cs[f].read.value.root == cs[l].read.value.root <==> cs[f].read.value.count == cs[l].read.value.count;
    assert f < k ==> (cs[f].read.value.root == cs[k].read.value.root <==> cs[f].read.value.count == cs[k].read.value.count);
  }

  // --------------------------------------------------- when the promise is kept

  /** A later history of the same registry. */
  predicate GoesOn(cfg: Config, cs: seq<Cycle>, cs': seq<Cycle>) { Fits(cfg, cs') && AppendOnly(cs') && cs <= cs' }

  /** The promise given with the last answer of a history: in no steady continuation does the batch still wait
      when `pendingSince + maxWaitMs` has come. */
  ghost predicate PromiseKept(cfg: Config, cs: seq<Cycle>, gap: nat)
    requires cs != []
  {
    forall cs': seq<Cycle>, l: nat | GoesOn(cfg, cs, cs') && |cs| - 1 <= l < |cs'| && SteadyWait(cfg, cs', |cs| - 1, l, gap) ::
      cs'[l].waitNow < Since(cfg, cs', |cs| - 1) + cfg.maxWaitMs
  }

  lemma {:induction false} AtPrefix(cfg: Config, cs: seq<Cycle>, cs': seq<Cycle>, k: nat)
    requires Fits(cfg, cs) && Fits(cfg, cs') && cs <= cs' && k <= |cs|
    ensures At(cfg, cs', k) == At(cfg, cs, k)
  {
    if k > 0 { AtPrefix(cfg, cs, cs', k - 1); }
  }

  lemma {:induction false} CyclePrefix(cfg: Config, cs: seq<Cycle>, cs': seq<Cycle>, k: nat)
    requires Fits(cfg, cs) && Fits(cfg, cs') && cs <= cs' && k < |cs|
    ensures Below(cfg, cs', k) == Below(cfg, cs, k) && Calm(cfg, cs', k) == Calm(cfg, cs, k) && Since(cfg, cs', k) == Since(cfg, cs, k)
  {
    AtPrefix(cfg, cs, cs', k);
    AtPrefix(cfg, cs, cs', k + 1);
  }

  /** One short of the minimum, any further enrollment completes the batch: the root cannot change while it waits. */
  lemma {:induction false} OneShortKeepsRoot(cfg: Config, cs: seq<Cycle>, f: nat, l: nat, gap: nat)
    requires ValidConfig(cfg) && Fits(cfg, cs) && AppendOnly(cs) && f <= l < |cs| && Below(cfg, cs, f) && SteadyWait(cfg, cs, f, l, gap)
    requires cs[f].read.Some? && cs[f].read.value.count - At(cfg, cs, f).lastCount == cfg.minBatchSize - 1
    ensures cs[l].read.Some? && cs[l].read.value.root == cs[f].read.value.root
  {
    WaitAccumulates(cfg, cs, f, l, gap);
    assert cs[l].read.value.count - At(cfg, cs, l).lastCount < cfg.minBatchSize;
  }

  /** A calm cycle at time t that reads r; no deadline is near. */
  function Quiet(cfg: Config, r: Registry, t: int): Cycle
  {
    Cycle(Some(r), t, t, t, t, true, true, seq(|cfg.targets|, _ => TargetBehaviour(None, true, true)))
  }

  lemma {:induction false} QuietIsNotImminent(cfg: Config, r: Registry, t: int)
    ensures |Quiet(cfg, r, t).targets| == |cfg.targets| && !Imminent(cfg, Quiet(cfg, r, t))
  {
  }

  /** A history whose last cycle is still waiting, steadily since f. */
  predicate Waiting(cfg: Config, cs: seq<Cycle>, f: nat, gap: nat)
  {
    Fits(cfg, cs) && AppendOnly(cs) && f < |cs| && Below(cfg, cs, |cs| - 1) && SteadyWait(cfg, cs, f, |cs| - 1, gap)
  }

  lemma {:induction false} FreshRoot(cs: seq<Cycle>) returns (root: int)
    ensures forall i | 0 <= i < |cs| && cs[i].read.Some? :: cs[i].read.value.root < root
    decreases |cs|
  {
    root := 0;
    if cs != [] {
      var last := cs[|cs| - 1];
      root := FreshRoot(cs[..|cs| - 1]);
      forall i | 0 <= i < |cs| - 1 && cs[i].read.Some? ensures cs[i].read.value.root < root { assert cs[..|cs| - 1][i] == cs[i]; }
      if last.read.Some? && last.read.value.root >= root { root := last.read.value.root + 1; }
    }
  }

  /** The next cycle, one time unit later, is again answered below-minimum. */
  lemma {:induction false} AnotherCycle(cfg: Config, cs: seq<Cycle>, f: nat, gap: nat, c: Cycle)
    requires Waiting(cfg, cs, f, gap) && gap >= 1 && c.read.Some? && c == Quiet(cfg, c.read.value, cs[|cs| - 1].waitNow + 1)
    requires AppendOnly(cs + [c]) && Fits(cfg, cs + [c]) && Below(cfg, cs + [c], |cs|)
    ensures Waiting(cfg, cs + [c], f, gap) && cs <= cs + [c]
  {
    var cs' := cs + [c];
    forall k | f <= k <= |cs| ensures Calm(cfg, cs', k) {
      if k < |cs| { CyclePrefix(cfg, cs, cs', k); assert Calm(cfg, cs, k); }
    }
    forall k | f <= k < |cs| ensures Follows(cs', k, gap) {
      if k < |cs| - 1 { assert Follows(cs, k, gap); }
    }
  }

  /** The same root again, as long as its time has not come. */
  lemma {:induction false} StaysBelow(cfg: Config, cs: seq<Cycle>, f: nat, gap: nat) returns (cs': seq<Cycle>)
    requires ValidConfig(cfg) && Waiting(cfg, cs, f, gap) && gap >= 1
    requires cs[|cs| - 1].waitNow + 1 < Since(cfg, cs, |cs| - 1) + cfg.maxWaitMs
    ensures cs <= cs' && |cs'| == |cs| + 1 && Waiting(cfg, cs', f, gap)
    ensures cs'[|cs|].read == cs[|cs| - 1].read && cs'[|cs|].waitNow == cs[|cs| - 1].waitNow + 1
    ensures Since(cfg, cs', |cs|) == Since(cfg, cs, |cs| - 1) && At(cfg, cs', |cs|).lastCount == At(cfg, cs, |cs| - 1).lastCount
  {
    var k := |cs| - 1;
    var r, t := cs[k].read.value, cs[k].waitNow + 1;
    cs' := cs + [Quiet(cfg, r, t)];
    SameRootStillBelow(cfg, cs, r, t);
    AppendSame(cs, Quiet(cfg, r, t));
    AnotherCycle(cfg, cs, f, gap, Quiet(cfg, r, t));
  }

  lemma {:induction false} SameRootStillBelow(cfg: Config, cs: seq<Cycle>, r: Registry, t: int)
    requires ValidConfig(cfg) && Fits(cfg, cs) && cs != [] && Below(cfg, cs, |cs| - 1) && cs[|cs| - 1].read == Some(r)
    requires t < Since(cfg, cs, |cs| - 1) + cfg.maxWaitMs
    ensures var k, cs' := |cs| - 1, cs + [Quiet(cfg, r, t)];
            && Fits(cfg, cs') && Below(cfg, cs', k + 1) && Since(cfg, cs', k + 1) == Since(cfg, cs, k)
            && At(cfg, cs', k + 1).lastCount == At(cfg, cs, k).lastCount
  {
    var k, c := |cs| - 1, Quiet(cfg, r, t);
    PendingTogether(cfg, cs, k);
    QuietIsNotImminent(cfg, r, t);
    AtPrefix(cfg, cs, cs + [c], k + 1);
    SameRootBelow(cfg, At(cfg, cs, k), cs[k], c);
  }

  /** The same registry read again after a below-minimum answer, before its time has come. */
  lemma {:induction false} SameRootBelow(cfg: Config, m: Memory, before: Cycle, c: Cycle)
    requires |before.targets| == |c.targets| == |cfg.targets| && before.read.Some? && c.read == before.read
    requires RunCycle(cfg, m, before).outcome.Skipped? && RunCycle(cfg, m, before).outcome.reason.BelowMinimum?
    requires m.pendingRoot.Some? <==> m.pendingSince.Some?
    requires var since := RunCycle(cfg, m, before).memory.pendingSince; since.Some? ==> c.waitNow < since.value + cfg.maxWaitMs
    requires !Imminent(cfg, c)
    ensures var next := RunCycle(cfg, m, before).memory; var t := RunCycle(cfg, next, c);
            && t.outcome.Skipped? && t.outcome.reason.BelowMinimum? && next.pendingSince.Some? && t.memory.pendingSince == next.pendingSince
            && next.lastCount == m.lastCount
  {
  }

  lemma {:induction false} AppendSame(cs: seq<Cycle>, c: Cycle)
    requires cs != [] && AppendOnly(cs) && cs[|cs| - 1].read.Some? && c.read == cs[|cs| - 1].read
    ensures AppendOnly(cs + [c])
  {
    var k := |cs| - 1;
    forall i | 0 <= i < k && cs[i].read.Some?
      ensures cs[i].read.value.count <= c.read.value.count
              && (cs[i].read.value.root == c.read.value.root <==> cs[i].read.value.count == c.read.value.count)
    {
      assert cs[k].read.Some?;
    }
  }

  lemma {:induction false} AppendNew(cs: seq<Cycle>, c: Cycle)
    requires cs != [] && AppendOnly(cs) && cs[|cs| - 1].read.Some? && c.read.Some?
    requires c.read.value.count == cs[|cs| - 1].read.value.count + 1
    requires forall i | 0 <= i < |cs| && cs[i].read.Some? :: cs[i].read.value.root < c.read.value.root
    ensures AppendOnly(cs + [c])
  {
    var k := |cs| - 1;
    forall i | 0 <= i < k && cs[i].read.Some? ensures cs[i].read.value.count <= cs[k].read.value.count { assert cs[k].read.Some?; }
  }

  /** The registry with one credential more than the last one read, under a root above all roots read. */
  function Grown(cs: seq<Cycle>, root: int): Registry
    requires cs != [] && cs[|cs| - 1].read.Some?
  {
    Registry(root, cs[|cs| - 1].read.value.count + 1)
  }

  lemma {:induction false} GrownIsNew(cfg: Config, cs: seq<Cycle>, root: int, t: int)
    requires Fits(cfg, cs) && AppendOnly(cs) && cs != [] && cs[|cs| - 1].read.Some?
    requires forall i | 0 <= i < |cs| && cs[i].read.Some? :: cs[i].read.value.root < root
    ensures root != cs[|cs| - 1].read.value.root
    ensures At(cfg, cs, |cs| - 1).lastRoot != Some(root) && AppendOnly(cs + [Quiet(cfg, Grown(cs, root), t)])
  {
    AppendNew(cs, Quiet(cfg, Grown(cs, root), t));
    if At(cfg, cs, |cs| - 1).lastRoot.Some? { LastPublishedWasRead(cfg, cs, |cs| - 1); }
  }

  /** One enrollment more, with room for it: the batch starts to wait anew. */
  lemma {:induction false} WaitsAnew(cfg: Config, cs: seq<Cycle>, f: nat, gap: nat) returns (c: Cycle)
    requires ValidConfig(cfg) && Waiting(cfg, cs, f, gap) && gap >= 1
    requires cs[|cs| - 1].read.Some? && cs[|cs| - 1].read.value.count - At(cfg, cs, |cs| - 1).lastCount < cfg.minBatchSize - 1
    ensures c.waitNow == cs[|cs| - 1].waitNow + 1 && Waiting(cfg, cs + [c], f, gap)
  {
    var k := |cs| - 1;
    var t := cs[k].waitNow + 1;
    var root := FreshRoot(cs);
    GrownIsNew(cfg, cs, root, t);
    var r := Grown(cs, root);
    c := Quiet(cfg, r, t);
    NewRootStillBelow(cfg, cs, r, t);
    AnotherCycle(cfg, cs, f, gap, c);
  }

  lemma {:induction false} NewRootStillBelow(cfg: Config, cs: seq<Cycle>, r: Registry, t: int)
    requires ValidConfig(cfg) && Fits(cfg, cs) && cs != [] && Below(cfg, cs, |cs| - 1) && cs[|cs| - 1].read.Some?
    requires r.count == cs[|cs| - 1].read.value.count + 1 && r.root != cs[|cs| - 1].read.value.root
    requires r.count - At(cfg, cs, |cs| - 1).lastCount < cfg.minBatchSize && At(cfg, cs, |cs| - 1).lastRoot != Some(r.root)
    ensures Fits(cfg, cs + [Quiet(cfg, r, t)]) && Below(cfg, cs + [Quiet(cfg, r, t)], |cs|)
  {
    var k, c := |cs| - 1, Quiet(cfg, r, t);
    QuietIsNotImminent(cfg, r, t);
    AtPrefix(cfg, cs, cs + [c], k + 1);
    NewRootBelow(cfg, At(cfg, cs, k), cs[k], c);
  }

  /** A new root read right after a below-minimum answer, one credential larger and still too small. */
  lemma {:induction false} NewRootBelow(cfg: Config, m: Memory, before: Cycle, c: Cycle)
    requires ValidConfig(cfg) && |before.targets| == |c.targets| == |cfg.targets| && before.read.Some? && c.read.Some?
    requires RunCycle(cfg, m, before).outcome.Skipped? && RunCycle(cfg, m, before).outcome.reason.BelowMinimum?
    requires c.read.value.count == before.read.value.count + 1 && c.read.value.count - m.lastCount < cfg.minBatchSize
    requires c.read.value.root != before.read.value.root && c.pendNow == c.waitNow && !Imminent(cfg, c)
    requires m.lastRoot != Some(c.read.value.root)
    ensures var o := RunCycle(cfg, RunCycle(cfg, m, before).memory, c).outcome; o.Skipped? && o.reason.BelowMinimum?
  {
  }

  lemma {:induction false} PrefixOfPrefix(a: seq<Cycle>, b: seq<Cycle>, c: seq<Cycle>)
    requires a <= b <= c
    ensures a <= c
  {
  }

  /** The same root until just before its time. */
  lemma {:induction false} WaitsUntil(cfg: Config, cs: seq<Cycle>, f: nat, gap: nat, time: int) returns (cs': seq<Cycle>)
    requires ValidConfig(cfg) && Waiting(cfg, cs, f, gap) && gap >= 1
    requires cs[|cs| - 1].waitNow <= time < Since(cfg, cs, |cs| - 1) + cfg.maxWaitMs
    ensures Waiting(cfg, cs', f, gap) && cs <= cs' && cs'[|cs'| - 1].waitNow == time && cs'[|cs'| - 1].read == cs[|cs| - 1].read
    ensures At(cfg, cs', |cs'| - 1).lastCount == At(cfg, cs, |cs| - 1).lastCount
    decreases time - cs[|cs| - 1].waitNow
  {
    if cs[|cs| - 1].waitNow == time { cs' := cs; }
    else {
      var next := StaysBelow(cfg, cs, f, gap);
      assert next[|next| - 1] == next[|cs|];
      cs' := WaitsUntil(cfg, next, f, gap, time);
      PrefixOfPrefix(cs, next, cs');
    }
  }

  lemma {:induction false} BeginsToWait(cfg: Config, cs: seq<Cycle>, gap: nat)
    requires Fits(cfg, cs) && AppendOnly(cs) && cs != [] && Below(cfg, cs, |cs| - 1) && cs[|cs| - 1].pendNow <= cs[|cs| - 1].waitNow
    ensures Waiting(cfg, cs, |cs| - 1, gap)
  {
  }

  lemma {:induction false} Outlasted(cfg: Config, cs: seq<Cycle>, cs': seq<Cycle>, gap: nat)
    requires Fits(cfg, cs) && cs != [] && cs <= cs' && Waiting(cfg, cs', |cs| - 1, gap)
    requires cs'[|cs'| - 1].waitNow >= Since(cfg, cs, |cs| - 1) + cfg.maxWaitMs
    ensures GoesOn(cfg, cs, cs') && SteadyWait(cfg, cs', |cs| - 1, |cs'| - 1, gap) && Below(cfg, cs', |cs'| - 1)
    ensures cs'[|cs'| - 1].waitNow >= Since(cfg, cs', |cs| - 1) + cfg.maxWaitMs
  {
    CyclePrefix(cfg, cs, cs', |cs| - 1);
  }

  /** With room for one more enrollment the promise can be outlasted, at any pace of the cycles. */
  lemma {:induction false} RoomBreaksPromise(cfg: Config, cs: seq<Cycle>, gap: nat) returns (cs': seq<Cycle>)
    requires ValidConfig(cfg) && Fits(cfg, cs) && AppendOnly(cs) && cs != [] && gap >= 1
    requires Below(cfg, cs, |cs| - 1) && cs[|cs| - 1].pendNow <= cs[|cs| - 1].waitNow
    requires cs[|cs| - 1].read.Some? && cs[|cs| - 1].read.value.count - At(cfg, cs, |cs| - 1).lastCount < cfg.minBatchSize - 1
    ensures GoesOn(cfg, cs, cs') && SteadyWait(cfg, cs', |cs| - 1, |cs'| - 1, gap) && Below(cfg, cs', |cs'| - 1)
    ensures cs'[|cs'| - 1].waitNow >= Since(cfg, cs', |cs| - 1) + cfg.maxWaitMs
  {
    var f := |cs| - 1;
    BelowWaits(cfg, cs, f);
    BeginsToWait(cfg, cs, gap);
    var waited := WaitsUntil(cfg, cs, f, gap, Since(cfg, cs, f) + cfg.maxWaitMs - 1);
    var c := WaitsAnew(cfg, waited, f, gap);
    cs' := waited + [c];
    Outlasted(cfg, cs, cs', gap);
  }

  /** When the documented bound holds, readable from the status itself: the promise given with a below-minimum
      answer is kept, whatever is enrolled meanwhile, if and only if the batch is one short of the minimum. */
  lemma {:induction false} PromiseKeptIffOneShort(cfg: Config, cs: seq<Cycle>, gap: nat)
    requires ValidConfig(cfg) && Fits(cfg, cs) && AppendOnly(cs) && cs != [] && gap >= 1
    requires Below(cfg, cs, |cs| - 1) && cs[|cs| - 1].pendNow <= cs[|cs| - 1].waitNow
    ensures cs[|cs| - 1].read.Some?
    ensures PromiseKept(cfg, cs, gap) <==> cs[|cs| - 1].read.value.count - At(cfg, cs, |cs| - 1).lastCount == cfg.minBatchSize - 1
  {
    var f := |cs| - 1;
    if cs[f].read.value.count - At(cfg, cs, f).lastCount == cfg.minBatchSize - 1 {
      forall cs': seq<Cycle>, l: nat | GoesOn(cfg, cs, cs') && f <= l < |cs'| && SteadyWait(cfg, cs', f, l, gap)
        ensures cs'[l].waitNow < Since(cfg, cs', f) + cfg.maxWaitMs
      {
        CyclePrefix(cfg, cs, cs', f);
        AtPrefix(cfg, cs, cs', f);
        OneShortKeepsRoot(cfg, cs', f, l, gap);
        SameRootWithinMaxWait(cfg, cs', f, l, gap);
      }
    } else {
      var cs' := RoomBreaksPromise(cfg, cs, gap);
    }
  }

  /** A run in which one more enrollment restarts the clock of a credential already waiting, beyond the time the
      status had promised for it. */
  lemma {:induction false} WaitCanOutlastPromise() returns (cfg: Config, cs: seq<Cycle>)
    ensures ValidConfig(cfg) && Fits(cfg, cs) && AppendOnly(cs) && |cs| == 3
    ensures Below(cfg, cs, 0) && Below(cfg, cs, 2) && cs[2].waitNow > Since(cfg, cs, 0) + cfg.maxWaitMs
  {
    cfg := Config(["r"], 3, 10);
    var c0, c1, c2 := Quiet(cfg, Registry(1, 1), 0), Quiet(cfg, Registry(2, 2), 9), Quiet(cfg, Registry(2, 2), 18);
    cs := [c0, c1, c2];
    QuietIsNotImminent(cfg, Registry(1, 1), 0);
    QuietIsNotImminent(cfg, Registry(2, 2), 9);
    QuietIsNotImminent(cfg, Registry(2, 2), 18);
    assert At(cfg, cs, 0) == BLANK;
    assert At(cfg, cs, 1) == BLANK.(pendingRoot := Some(1), pendingSince := Some(0), observedBatch := Some(1));
    assert At(cfg, cs, 2) == BLANK.(pendingRoot := Some(2), pendingSince := Some(9), observedBatch := Some(2));
  }

  // ---------------------------------------------------------------- restarts

  /** The count published last by a sequence of process lives; each life starts from a blank memory. */
  function PublishedCount(cfg: Config, lives: seq<seq<Cycle>>): nat
    requires forall i | 0 <= i < |lives| :: Fits(cfg, lives[i])
  {
    if lives == [] then 0
    else
      var last := lives[|lives| - 1];
      if At(cfg, last, |last|).lastRoot.Some? then At(cfg, last, |last|).lastCount else PublishedCount(cfg, lives[..|lives| - 1])
  }

  /** How many credentials a publication admits that no publication of any life admitted before. */
  function NewlyAdmitted(cfg: Config, lives: seq<seq<Cycle>>, cs: seq<Cycle>, k: nat): int
    requires (forall i | 0 <= i < |lives| :: Fits(cfg, lives[i])) && Fits(cfg, cs) && k < |cs| && cs[k].read.Some?
  {
    cs[k].read.value.count - if At(cfg, cs, k).lastRoot.Some? then At(cfg, cs, k).lastCount else PublishedCount(cfg, lives)
  }

  lemma {:induction false} NoRootNoCount(cfg: Config, cs: seq<Cycle>, k: nat)
    requires Fits(cfg, cs) && k <= |cs| && At(cfg, cs, k).lastRoot.None?
    ensures At(cfg, cs, k).lastCount == 0
  {
    if k > 0 {
      PublicationsMoveBookkeeping(cfg, cs, k - 1);
      NoRootNoCount(cfg, cs, k - 1);
    }
  }

  /** Across restarts the undersized flag is honest exactly when this life has published before, or the registry
      is not one that holds the minimum with fewer than the minimum new since the last life. */
  lemma {:induction false} FlagHonestAcrossRestarts(cfg: Config, lives: seq<seq<Cycle>>, cs: seq<Cycle>, k: nat)
    requires (forall i | 0 <= i < |lives| :: Fits(cfg, lives[i])) && Fits(cfg, cs) && k < |cs| && TurnAt(cfg, cs, k).outcome.Published?
    ensures cs[k].read.Some?
    ensures (TurnAt(cfg, cs, k).outcome.belowMinimum <==> NewlyAdmitted(cfg, lives, cs, k) < cfg.minBatchSize)
            <==> (At(cfg, cs, k).lastRoot.Some?
                  || !(PublishedCount(cfg, lives) + cfg.minBatchSize > cs[k].read.value.count >= cfg.minBatchSize))
  {
    HonestGating(cfg, cs, k);
    if At(cfg, cs, k).lastRoot.None? { NoRootNoCount(cfg, cs, k); }
  }

  /** The dishonest case happens: whatever earlier lives published, a restarted publisher publishes a registry that
      holds the minimum at once and unflagged, and fewer than the minimum are new if the registry has not grown
      by the minimum since; if it has not grown, nothing is new. */
  lemma {:induction false} RestartPublishesUnflagged(cfg: Config, lives: seq<seq<Cycle>>, c: Cycle)
    requires forall i | 0 <= i < |lives| :: Fits(cfg, lives[i])
    requires cfg.targets != [] && |c.targets| == |cfg.targets| && c.read.Some? && c.read.value.count >= cfg.minBatchSize > 0
    requires c.registryJoins && c.attests
    ensures TurnAt(cfg, [c], 0).outcome.Published? && !TurnAt(cfg, [c], 0).outcome.belowMinimum
    ensures NewlyAdmitted(cfg, lives, [c], 0) < cfg.minBatchSize <==> c.read.value.count < PublishedCount(cfg, lives) + cfg.minBatchSize
    ensures NewlyAdmitted(cfg, lives, [c], 0) == 0 <==> c.read.value.count == PublishedCount(cfg, lives)
  {
    assert At(cfg, [c], 0) == BLANK && [c][0] == c;
  }
}
