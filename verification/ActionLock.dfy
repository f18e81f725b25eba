/** The promise-chain lock around private state and the vote de-duplication in front of it
    (api/src/passport-v2/midnight-civic-action-adapter.ts:107-136, 320-338). */
module ActionLock {
  import opened Wrappers

  /** Private-state providers, adapters, referenda, choices and authorization handles are opaque names. */
  type Name = nat

  datatype Vote = Vote(choice: Name, handle: Name, operation: nat)

  datatype Phase = Waiting | Running | Done

  /** One call of `withPrivateStateActionLock` made by `castVote`, in arrival order. `previous` is the promise
      it found in the tail map; its own promise is its position. */
  datatype Action = Action(key: Name, previous: Option<nat>, phase: Phase, adapter: Name, referendum: Name, vote: Vote)

  datatype State = State(actions: seq<Action>, tails: map<Name, nat>, pending: map<(Name, Name), Vote>)

  datatype Event =
    | Cast(adapter: Name, key: Name, referendum: Name, choice: Name, handle: Name)
    | Begin(i: nat)
    | Finish(i: nat)
    | Settle(i: nat)

  const INITIAL: State := State([], map[], map[])

  predicate Released(s: State, p: Option<nat>)
  {
    p.Some? ==> p.value < |s.actions| && s.actions[p.value].phase.Done?
  }

  /** What `castVote` does before its first await. */
  function CastVote(s: State, e: Event): State
    requires e.Cast?
  {
    if (e.adapter, e.referendum) in s.pending then s
    else
      var n := |s.actions|;
      var previous := if e.key in s.tails then Some(s.tails[e.key]) else None;
      var vote := Vote(e.choice, e.handle, n);
      State(s.actions + [Action(e.key, previous, Waiting, e.adapter, e.referendum, vote)],
            s.tails[e.key := n],
            s.pending[(e.adapter, e.referendum) := vote])
  }

  /** The `finally` of the lock: release, and drop the tail if it is still this action's. */
  function Finished(s: State, i: nat): State
    requires i < |s.actions|
  {
    var a := s.actions[i];
    s.(actions := s.actions[i := a.(phase := Done)],
       tails := if a.key in s.tails && s.tails[a.key] == i then s.tails - {a.key} else s.tails)
  }

  /** The `finally` of `castVote`. */
  function Settled(s: State, i: nat): State
    requires i < |s.actions|
  {
    var k := (s.actions[i].adapter, s.actions[i].referendum);
    if k in s.pending && s.pending[k].operation == i then s.(pending := s.pending - {k}) else s
  }

  predicate Step(s: State, e: Event, s': State)
  {
    match e
    case Cast(_, _, _, _, _) => s' == CastVote(s, e)
    case Begin(i) =>
      && i < |s.actions| && s.actions[i].phase.Waiting? && Released(s, s.actions[i].previous)
      && s' == s.(actions := s.actions[i := s.actions[i].(phase := Running)])
    case Finish(i) =>
      && i < |s.actions| && s.actions[i].phase.Running?
      && s' == Finished(s, i)
    case Settle(i) =>
      && i < |s.actions| && s.actions[i].phase.Done?
      && s' == Settled(s, i)
  }

  /** What `castVote` answers while a vote is pending: the pending operation for the same vote, a conflict
      for a different one, and a new operation otherwise. */
  datatype Answer = Joins(operation: nat) | Conflicts | Starts(operation: nat)

  function AnswerOf(s: State, e: Event): Answer
    requires e.Cast?
  {
    if (e.adapter, e.referendum) in s.pending then
      var v := s.pending[(e.adapter, e.referendum)];
      if v.choice == e.choice && v.handle == e.handle then Joins(v.operation) else Conflicts
    else Starts(|s.actions|)
  }

  // --------------------------------------------------------------- invariant

  /** `previous` is the latest earlier action on the key, unless all of them are done. */
  predicate Linked(s: State, i: nat)
    requires i < |s.actions|
  {
    var a := s.actions[i];
    match a.previous
    case None => forall j | 0 <= j < i && s.actions[j].key == a.key :: s.actions[j].phase.Done?
    case Some(p) => p < i && s.actions[p].key == a.key && forall j | p < j < i :: s.actions[j].key != a.key
  }

  /** Nobody overtakes. */
  predicate InOrder(s: State)
  {
    forall i, j | 0 <= i < j < |s.actions| && s.actions[i].key == s.actions[j].key && !s.actions[j].phase.Waiting? ::
      s.actions[i].phase.Done?
  }

  /** The tail map holds a key exactly while an action on it is unfinished, and then its latest action. */
  predicate TailsExact(s: State)
  {
    && (forall k | k in s.tails ::
          && s.tails[k] < |s.actions| && s.actions[s.tails[k]].key == k && !s.actions[s.tails[k]].phase.Done?
          && forall j | s.tails[k] < j < |s.actions| :: s.actions[j].key != k)
    && (forall i | 0 <= i < |s.actions| && !s.actions[i].phase.Done? :: s.actions[i].key in s.tails)
  }

  /** Every unfinished vote is the pending operation of its adapter and referendum. */
  predicate VotesPending(s: State)
  {
    && (forall i | 0 <= i < |s.actions| && !s.actions[i].phase.Done? ::
          var k := (s.actions[i].adapter, s.actions[i].referendum);
          k in s.pending && s.pending[k] == s.actions[i].vote && s.actions[i].vote.operation == i)
  }

  predicate Inv(s: State)
  {
    && (forall i | 0 <= i < |s.actions| :: Linked(s, i))
    && InOrder(s) && TailsExact(s) && VotesPending(s)
  }

  lemma CastKeepsLinks(s: State, e: Event, s': State)
    requires Inv(s) && e.Cast? && Step(s, e, s')
    ensures forall i | 0 <= i < |s'.actions| :: Linked(s', i)
  {
    forall i | 0 <= i < |s'.actions| ensures Linked(s', i) {
      if i < |s.actions| { assert Linked(s, i); }
    }
  }

  lemma CastKeepsTails(s: State, e: Event, s': State)
    requires Inv(s) && e.Cast? && Step(s, e, s')
    ensures TailsExact(s')
  {
  }

  lemma CastKeepsVotes(s: State, e: Event, s': State)
    requires Inv(s) && e.Cast? && Step(s, e, s')
    ensures InOrder(s') && VotesPending(s')
  {
  }

  lemma CastKeepsInv(s: State, e: Event, s': State)
    requires Inv(s) && e.Cast? && Step(s, e, s')
    ensures Inv(s')
  {
    CastKeepsLinks(s, e, s');
    CastKeepsTails(s, e, s');
    CastKeepsVotes(s, e, s');
  }

  lemma BeginKeepsInv(s: State, e: Event, s': State)
    requires Inv(s) && e.Begin? && Step(s, e, s')
    ensures Inv(s')
  {
    var i := e.i;
    assert Linked(s, i);
    forall j | 0 <= j < i && s.actions[j].key == s.actions[i].key ensures s.actions[j].phase.Done? {
      if s.actions[i].previous.Some? {
        var p := s.actions[i].previous.value;
        assert j <= p;
      }
    }
    forall k | 0 <= k < |s'.actions| ensures Linked(s', k) { assert Linked(s, k); }
  }

  lemma FinishKeepsTails(s: State, e: Event, s': State)
    requires Inv(s) && e.Finish? && Step(s, e, s')
    ensures TailsExact(s')
  {
  }

  lemma FinishKeepsInv(s: State, e: Event, s': State)
    requires Inv(s) && e.Finish? && Step(s, e, s')
    ensures Inv(s')
  {
    FinishKeepsTails(s, e, s');
    forall k | 0 <= k < |s'.actions| ensures Linked(s', k) { assert Linked(s, k); }
  }

  lemma StepKeepsInv(s: State, e: Event, s': State)
    requires Inv(s) && Step(s, e, s')
    ensures Inv(s')
  {
    match e
    case Cast(_, _, _, _, _) => CastKeepsInv(s, e, s');
    case Begin(_) => BeginKeepsInv(s, e, s');
    case Finish(_) => FinishKeepsInv(s, e, s');
    case Settle(i) =>
      forall k | 0 <= k < |s'.actions| ensures Linked(s', k) { assert Linked(s, k); }
  }

  // ------------------------------------------------------------ main results

  predicate IsRun(states: seq<State>, events: seq<Event>)
  {
    && |states| == |events| + 1 && states[0] == INITIAL
    && forall i {:trigger StepAt(states, events, i)} | 0 <= i < |events| :: StepAt(states, events, i)
  }

  predicate StepAt(states: seq<State>, events: seq<Event>, i: nat)
    requires i < |events| && |states| == |events| + 1
  {
    Step(states[i], events[i], states[i + 1])
  }

  lemma {:induction false} InvAlways(states: seq<State>, events: seq<Event>, k: nat)
    requires IsRun(states, events) && k < |states|
    ensures Inv(states[k])
  {
    if k > 0 {
      InvAlways(states, events, k - 1);
      assert StepAt(states, events, k - 1);
      StepKeepsInv(states[k - 1], events[k - 1], states[k]);
    }
  }

  /** On one private state, at most one action runs, actions start in arrival order, and the tail map has an
      entry exactly while some action is unfinished. */
  lemma LockIsFairAndExclusive(states: seq<State>, events: seq<Event>, k: nat)
    requires IsRun(states, events) && k < |states|
    ensures var s := states[k];
            && (forall i, j | 0 <= i < |s.actions| && 0 <= j < |s.actions| && s.actions[i].key == s.actions[j].key
                              && s.actions[i].phase.Running? && s.actions[j].phase.Running? :: i == j)
            && (forall i, j | 0 <= i < j < |s.actions| && s.actions[i].key == s.actions[j].key && !s.actions[j].phase.Waiting? :: s.actions[i].phase.Done?)
            && (forall key :: key in s.tails <==> exists i :: 0 <= i < |s.actions| && s.actions[i].key == key && !s.actions[i].phase.Done?)
  {
    InvAlways(states, events, k);
    assert InOrder(states[k]) && TailsExact(states[k]);
  }

  /** The least unfinished action on a key. */
  lemma {:induction false} FirstUnfinished(s: State, i: nat) returns (f: nat)
    requires i < |s.actions| && !s.actions[i].phase.Done?
    ensures f <= i && s.actions[f].key == s.actions[i].key && !s.actions[f].phase.Done?
    ensures forall j | 0 <= j < f && s.actions[j].key == s.actions[f].key :: s.actions[j].phase.Done?
  {
    if j :| 0 <= j < i && s.actions[j].key == s.actions[i].key && !s.actions[j].phase.Done? {
      f := FirstUnfinished(s, j);
    } else {
      f := i;
    }
  }

  /** No wake-up is lost: while an action waits, one on its key is running or free to begin, whatever earlier
      actions did. */
  lemma WaitersMakeProgress(states: seq<State>, events: seq<Event>, k: nat, i: nat) returns (f: nat)
    requires IsRun(states, events) && k < |states| && i < |states[k].actions| && states[k].actions[i].phase.Waiting?
    ensures f <= i && states[k].actions[f].key == states[k].actions[i].key
    ensures states[k].actions[f].phase.Running?
            || (states[k].actions[f].phase.Waiting? && Released(states[k], states[k].actions[f].previous))
  {
    InvAlways(states, events, k);
    f := FirstUnfinished(states[k], i);
    assert Linked(states[k], f);
  }

  /** Votes run once: of one adapter's votes on one referendum at most one is unfinished, and a vote cast
      meanwhile joins it if it is the same vote, conflicts otherwise, and in neither case adds an action. */
  lemma ConcurrentVotesRunOnce(states: seq<State>, events: seq<Event>, k: nat, i: nat, e: Event, s': State)
    requires IsRun(states, events) && k < |states| && i < |states[k].actions| && !states[k].actions[i].phase.Done?
    requires e.Cast? && e.adapter == states[k].actions[i].adapter && e.referendum == states[k].actions[i].referendum
    requires Step(states[k], e, s')
    ensures forall j | 0 <= j < |states[k].actions| && !states[k].actions[j].phase.Done? && states[k].actions[j].adapter == e.adapter
                       && states[k].actions[j].referendum == e.referendum :: j == i
    ensures s'.actions == states[k].actions
    ensures var v := states[k].actions[i].vote;
            AnswerOf(states[k], e) == if v.choice == e.choice && v.handle == e.handle then Joins(i) else Conflicts
  {
    InvAlways(states, events, k);
  }

  // ------------------------------------------------------- what a call decides

  /** The vote of event `c` started action `a`, and no settlement of that action came before state `k`. */
  predicate Unsettled(states: seq<State>, events: seq<Event>, k: nat, c: nat, a: nat)
    requires k < |states| == |events| + 1
  {
    && c < k && events[c].Cast? && |states[c].actions| == a && |states[c + 1].actions| == a + 1
    && forall j | c < j < k :: events[j] != Settle(a)
  }

  predicate VoteOf(e: Event, adapter: Name, referendum: Name) { e.Cast? && e.adapter == adapter && e.referendum == referendum }

  ghost predicate PendingExact(states: seq<State>, events: seq<Event>, k: nat, adapter: Name, referendum: Name)
    requires k < |states| == |events| + 1
  {
    var s := states[k];
    && ((adapter, referendum) in s.pending ==>
          exists c: nat, a: nat :: Unsettled(states, events, k, c, a) && VoteOf(events[c], adapter, referendum)
                         && s.pending[(adapter, referendum)] == Vote(events[c].choice, events[c].handle, a))
    && (forall c: nat, a: nat | Unsettled(states, events, k, c, a) && VoteOf(events[c], adapter, referendum) ::
          && (adapter, referendum) in s.pending && s.pending[(adapter, referendum)].operation == a
          && a < |s.actions| && s.actions[a].adapter == adapter && s.actions[a].referendum == referendum)
  }

  lemma UnsettledBefore(states: seq<State>, events: seq<Event>, k: nat, c: nat, a: nat)
    requires 0 < k < |states| == |events| + 1
    ensures Unsettled(states, events, k, c, a) && c < k - 1 ==> Unsettled(states, events, k - 1, c, a) && events[k - 1] != Settle(a)
    ensures Unsettled(states, events, k - 1, c, a) && events[k - 1] != Settle(a) ==> Unsettled(states, events, k, c, a)
  {
  }

  /** A vote is pending from the cast that started it until its own settlement, and no longer. */
  lemma {:induction false} PendingIffUnsettled(states: seq<State>, events: seq<Event>, k: nat, adapter: Name, referendum: Name)
    requires IsRun(states, events) && k < |states|
    ensures PendingExact(states, events, k, adapter, referendum)
  {
    if k > 0 {
      PendingIffUnsettled(states, events, k - 1, adapter, referendum);
      assert StepAt(states, events, k - 1);
      PendingStays(states, events, k, adapter, referendum);
      PendingHasCast(states, events, k, adapter, referendum);
    }
  }

  lemma PendingStays(states: seq<State>, events: seq<Event>, k: nat, adapter: Name, referendum: Name)
    requires 0 < k < |states| == |events| + 1 && Step(states[k - 1], events[k - 1], states[k])
    requires PendingExact(states, events, k - 1, adapter, referendum)
    ensures forall c: nat, a: nat | Unsettled(states, events, k, c, a) && VoteOf(events[c], adapter, referendum) ::
              && (adapter, referendum) in states[k].pending && states[k].pending[(adapter, referendum)].operation == a
              && a < |states[k].actions| && states[k].actions[a].adapter == adapter && states[k].actions[a].referendum == referendum
  {
    forall c: nat, a: nat | Unsettled(states, events, k, c, a) && VoteOf(events[c], adapter, referendum)
      ensures (adapter, referendum) in states[k].pending && states[k].pending[(adapter, referendum)].operation == a
      ensures a < |states[k].actions| && states[k].actions[a].adapter == adapter && states[k].actions[a].referendum == referendum
    {
      if c < k - 1 {
        UnsettledBefore(states, events, k, c, a);
        assert Unsettled(states, events, k - 1, c, a);
      }
    }
  }

  lemma PendingHasCast(states: seq<State>, events: seq<Event>, k: nat, adapter: Name, referendum: Name)
    requires 0 < k < |states| == |events| + 1 && Step(states[k - 1], events[k - 1], states[k])
    requires PendingExact(states, events, k - 1, adapter, referendum)
    ensures (adapter, referendum) in states[k].pending ==>
              exists c: nat, a: nat :: Unsettled(states, events, k, c, a) && VoteOf(events[c], adapter, referendum)
                             && states[k].pending[(adapter, referendum)] == Vote(events[c].choice, events[c].handle, a)
  {
    var s := states[k - 1];
    var key := (adapter, referendum);
    if key in states[k].pending {
      if key in s.pending {
        var c: nat, a: nat :| Unsettled(states, events, k - 1, c, a) && VoteOf(events[c], adapter, referendum)
                    && s.pending[key] == Vote(events[c].choice, events[c].handle, a);
        assert a < |s.actions| && s.actions[a].adapter == adapter && s.actions[a].referendum == referendum;
        assert events[k - 1] != Settle(a);
        UnsettledBefore(states, events, k, c, a);
      } else {
        assert Unsettled(states, events, k, k - 1, |s.actions|);
      }
    }
  }

  /** The whole effect of a vote. Without an unsettled vote of this adapter on this referendum it starts one waiting
      action with its own choice and authorization, behind the latest unfinished action on the private state; with
      one, it changes nothing and joins exactly if choice and authorization are the same. */
  lemma CastDecides(states: seq<State>, events: seq<Event>, k: nat, e: Event, s': State)
    requires IsRun(states, events) && k < |states| && e.Cast? && Step(states[k], e, s')
    ensures var s := states[k];
            (forall c: nat, a: nat | Unsettled(states, events, k, c, a) :: !VoteOf(events[c], e.adapter, e.referendum)) ==>
              && AnswerOf(s, e) == Starts(|s.actions|) && |s'.actions| == |s.actions| + 1 && s'.actions[..|s.actions|] == s.actions
              && var a := s'.actions[|s.actions|];
                 && a.phase.Waiting? && a.key == e.key && a.adapter == e.adapter && a.referendum == e.referendum
                 && a.vote.choice == e.choice && a.vote.handle == e.handle
                 && (a.previous.None? <==> forall j | 0 <= j < |s.actions| && s.actions[j].key == e.key :: s.actions[j].phase.Done?)
                 && (a.previous.Some? ==> a.previous.value < |s.actions| && s.actions[a.previous.value].key == e.key
                                          && forall j | a.previous.value < j < |s.actions| :: s.actions[j].key != e.key)
    ensures forall c: nat, a: nat | Unsettled(states, events, k, c, a) && VoteOf(events[c], e.adapter, e.referendum) ::
              s' == states[k] && AnswerOf(states[k], e) == if events[c].choice == e.choice && events[c].handle == e.handle then Joins(a) else Conflicts
  {
    var s := states[k];
    PendingIffUnsettled(states, events, k, e.adapter, e.referendum);
    assert TailsExact(s) by { InvAlways(states, events, k); }
    forall c: nat, a: nat | Unsettled(states, events, k, c, a) && VoteOf(events[c], e.adapter, e.referendum)
      ensures s' == s && AnswerOf(s, e) == if events[c].choice == e.choice && events[c].handle == e.handle then Joins(a) else Conflicts
    {
      var d: nat, b: nat :| Unsettled(states, events, k, d, b) && VoteOf(events[d], e.adapter, e.referendum)
                  && s.pending[(e.adapter, e.referendum)] == Vote(events[d].choice, events[d].handle, b);
      assert a == b;
      OneStart(states, events, c, d, a);
    }
  }

  lemma {:induction false} ActionsOnlyGrow(states: seq<State>, events: seq<Event>, c: nat, k: nat)
    requires IsRun(states, events) && c <= k < |states|
    ensures |states[c].actions| <= |states[k].actions|
  {
    if c < k {
      ActionsOnlyGrow(states, events, c, k - 1);
      assert StepAt(states, events, k - 1);
    }
  }

  /** An action has one start. */
  lemma OneStart(states: seq<State>, events: seq<Event>, c: nat, d: nat, a: nat)
    requires IsRun(states, events) && c < |events| && d < |events|
    requires |states[c].actions| == a == |states[d].actions| && |states[c + 1].actions| == a + 1 == |states[d + 1].actions|
    ensures c == d
  {
    if c < d { ActionsOnlyGrow(states, events, c + 1, d); }
    if d < c { ActionsOnlyGrow(states, events, d + 1, c); }
  }

  /** An action waits until every earlier one on its private state is done, and no longer; it runs until it finishes,
      and only then is its vote settled. */
  lemma WhatCanHappen(states: seq<State>, events: seq<Event>, k: nat, i: nat)
    requires IsRun(states, events) && k < |states| && i < |states[k].actions|
    ensures var s := states[k];
            && ((exists s' :: Step(s, Begin(i), s')) <==>
                  s.actions[i].phase.Waiting? && forall j | 0 <= j < i && s.actions[j].key == s.actions[i].key :: s.actions[j].phase.Done?)
            && ((exists s' :: Step(s, Finish(i), s')) <==> s.actions[i].phase.Running?)
            && ((exists s' :: Step(s, Settle(i), s')) <==> s.actions[i].phase.Done?)
  {
    var s := states[k];
    InvAlways(states, events, k);
    assert Linked(s, i);
    BeginsInTurn(s, i);
    if s.actions[i].phase.Running? { assert Step(s, Finish(i), Finished(s, i)); }
    if s.actions[i].phase.Done? { assert Step(s, Settle(i), Settled(s, i)); }
  }

  lemma BeginsInTurn(s: State, i: nat)
    requires Inv(s) && i < |s.actions|
    ensures (exists s' :: Step(s, Begin(i), s')) <==>
              s.actions[i].phase.Waiting? && forall j | 0 <= j < i && s.actions[j].key == s.actions[i].key :: s.actions[j].phase.Done?
  {
    var a := s.actions[i];
    assert Linked(s, i);
    if a.phase.Waiting? && Released(s, a.previous) {
      assert Step(s, Begin(i), s.(actions := s.actions[i := a.(phase := Running)]));
      forall j | 0 <= j < i && s.actions[j].key == a.key ensures s.actions[j].phase.Done? {
        if a.previous.Some? { assert j <= a.previous.value; }
      }
    }
  }

  /** Each call moves one action by one phase, and no other action. */
  lemma PhasesMove(s: State, e: Event, s': State, j: nat)
    requires Step(s, e, s') && j < |s.actions|
    ensures |s'.actions| >= |s.actions| && s'.actions[j] == s.actions[j].(phase := s'.actions[j].phase)
    ensures e == Begin(j) ==> s.actions[j].phase.Waiting? && s'.actions[j].phase.Running?
    ensures e == Finish(j) ==> s.actions[j].phase.Running? && s'.actions[j].phase.Done?
    ensures e != Begin(j) && e != Finish(j) ==> s'.actions[j] == s.actions[j]
  {
  }
}
