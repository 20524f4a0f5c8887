/** Setting and resetting an esync event: a flag in shared memory, an eventfd that mirrors it for
    poll, and for manual events a spinlock around both, as the interleaved steps of any number of
    agents. The same code runs with the lock for manual events and without it for automatic ones. */
module EsyncEvent {
  type Agent = nat

  /** Where an agent is inside set or reset. */
  datatype Pc =
    | Idle
    | Spinning(set_: bool)     // at the compare-and-swap on the lock
    | Exchanging(set_: bool)   // about to exchange the flag
    | Mirroring(set_: bool)    // the flag changed: about to write or read the eventfd
    | Unlocking(set_: bool)    // about to clear the lock

  datatype State = State(
    locked: bool,
    signaled: bool,
    counter: nat,              // of the eventfd
    pcs: map<Agent, Pc>,       // the agents inside set or reset
    last: bool)                // what the last exchange, in the order they happened, left the flag at

  ghost predicate Init(s: State, initval: nat) {
    s == State(false, initval != 0, initval, map[], initval != 0)
  }

  function At(s: State, a: Agent): Pc { if a in s.pcs then s.pcs[a] else Idle }

  function Moved(s: State, a: Agent, pc: Pc): State { s.(pcs := s.pcs[a := pc]) }

  /** One atomic step of agent a; `manual` says whether the event takes the lock. */
  ghost predicate Next(manual: bool, s: State, a: Agent, s': State) {
    match At(s, a)
    case Idle =>
      s' == Moved(s, a, if manual then Spinning(true) else Exchanging(true))
      || s' == Moved(s, a, if manual then Spinning(false) else Exchanging(false))
    case Spinning(set_) =>
      s' == if s.locked then s else Moved(s.(locked := true), a, Exchanging(set_))
    case Exchanging(set_) =>
      var after := if manual then Unlocking(set_) else Idle;
      s' == Moved(s.(signaled := set_, last := set_), a, if s.signaled == set_ then after else Mirroring(set_))
    case Mirroring(set_) =>
      // a write adds one to the counter; a read takes all of it, and fails when there is nothing
      s' == Moved(s.(counter := if set_ then s.counter + 1 else 0), a, if manual then Unlocking(set_) else Idle)
    case Unlocking(set_) =>
      s' == Moved(s.(locked := false), a, Idle)
  }

  ghost predicate Inside(s: State, a: Agent) {
    At(s, a).Exchanging? || At(s, a).Mirroring? || At(s, a).Unlocking?
  }

  /** At most one agent is inside the locked section, and only while the lock is taken. */
  ghost predicate Exclusive(s: State) {
    && (forall a, b :: Inside(s, a) && Inside(s, b) ==> a == b)
    && (s.locked <==> exists a :: Inside(s, a))
  }

  /** The eventfd is readable exactly when the flag is set, except while the agent that changed the
      flag has yet to touch it. */
  ghost predicate Mirrored(s: State) {
    && (forall a :: At(s, a).Mirroring? ==> s.signaled == At(s, a).set_ && (s.counter > 0) != s.signaled)
    && ((forall a :: !At(s, a).Mirroring?) ==> (s.counter > 0) == s.signaled)
  }

  ghost predicate Inv(s: State) { Exclusive(s) && Mirrored(s) && s.last == s.signaled }

  lemma StepKeepsInv(s: State, a: Agent, s': State)
    requires Inv(s) && Next(true, s, a, s')
    ensures Inv(s')
  {
    forall b | b != a ensures At(s', b) == At(s, b) && Inside(s', b) == Inside(s, b) {}
    match At(s, a)
    case Idle =>
    case Spinning(_) =>
      if !s.locked { assert Inside(s', a); }
    case Unlocking(_) =>
      assert Inside(s, a);
    case Exchanging(_) =>
      assert Inside(s, a) && Inside(s', a);
      forall b | At(s, b).Mirroring? || At(s', b).Mirroring? ensures b == a { assert Inside(s, b) || Inside(s', b); }
    case Mirroring(_) =>
      assert Inside(s, a) && Inside(s', a);
      forall b | b != a ensures !Inside(s, b) && !Inside(s', b) {}
  }

  /** Nobody is between the exchange and the end of a set or reset. */
  ghost predicate Quiet(s: State) { forall a :: !Inside(s, a) }

  ghost predicate Agrees(s: State) { Quiet(s) ==> (s.counter > 0) == s.signaled }

  lemma InvAgrees(s: State)
    requires Inv(s)
    ensures Agrees(s) && (Quiet(s) <==> !s.locked)
  {
    assert forall a :: At(s, a).Mirroring? ==> Inside(s, a);
  }

  ghost predicate Steps(manual: bool, states: seq<State>, agents: seq<Agent>) {
    && |states| == |agents| + 1
    && forall i :: 0 <= i < |agents| ==> Next(manual, states[i], agents[i], states[i + 1])
  }

  ghost predicate IsRun(manual: bool, initval: nat, states: seq<State>, agents: seq<Agent>) {
    Steps(manual, states, agents) && Init(states[0], initval)
  }

  /** Over every run of a manual event by any number of agents: one agent at a time in the locked
      section, and whenever the lock is free the eventfd is readable exactly when the event is
      signaled, that is when the last exchange was a set. */
  lemma {:induction false} ManualEventSafe(initval: nat, states: seq<State>, agents: seq<Agent>)
    requires IsRun(true, initval, states, agents)
    ensures forall i :: 0 <= i < |states| ==>
              && (forall a, b :: Inside(states[i], a) && Inside(states[i], b) ==> a == b)
              && (!states[i].locked ==>
                   ((states[i].counter > 0) == states[i].signaled) && states[i].signaled == states[i].last)
  {
    for k := 0 to |agents|
      invariant forall i :: 0 <= i <= k ==> Inv(states[i])
    {
      StepKeepsInv(states[k], agents[k], states[k + 1]);
    }
    forall i | 0 <= i < |states| ensures Agrees(states[i]) && (Quiet(states[i]) <==> !states[i].locked) {
      InvAgrees(states[i]);
    }
  }

  /** The eventfd agrees with the flag in every run exactly because of the lock: without it a reset
      that overtakes a set between its exchange and its write leaves the event reset and its eventfd
      readable, with nobody left inside. */
  lemma AgreesIffManual(manual: bool, initval: nat)
    ensures (forall states, agents :: IsRun(manual, initval, states, agents) ==>
              forall i :: 0 <= i < |states| ==> Agrees(states[i])) <==> manual
  {
    if manual {
      forall states, agents | IsRun(manual, initval, states, agents)
        ensures forall i :: 0 <= i < |states| ==> Agrees(states[i])
      {
        for k := 0 to |agents|
          invariant forall i :: 0 <= i <= k ==> Inv(states[i])
        {
          StepKeepsInv(states[k], agents[k], states[k + 1]);
        }
        forall i | 0 <= i < |states| ensures Agrees(states[i]) { InvAgrees(states[i]); }
      }
    } else {
      var states, agents := OvertakenSet(initval);
      assert !Agrees(states[|agents|]);
    }
  }

  /** The event is reset once, if it was created signaled, and then a reset overtakes a set. */
  lemma OvertakenSet(initval: nat) returns (states: seq<State>, agents: seq<Agent>)
    ensures IsRun(false, initval, states, agents)
    ensures var last := states[|agents|]; Quiet(last) && !last.signaled && last.counter > 0
  {
    var z0 := State(false, initval != 0, initval, map[], initval != 0);
    var z1 := Moved(z0, 1, Exchanging(false));
    var z2 := Moved(z1.(signaled := false, last := false), 1, Mirroring(false));
    var z3 := if initval == 0 then z0 else Moved(z2.(counter := 0), 1, Idle);
    OvertakingSteps(z3);
    states, agents := Overtaking(z3), [1, 2, 1, 2, 2, 1];
    if initval != 0 {
      hide Overtaking;
      StepFirst(z2, 1, states, agents);
      StepFirst(z1, 1, [z2] + states, [1] + agents);
      StepFirst(z0, 1, [z1] + ([z2] + states), [1] + ([1] + agents));
      states, agents := [z0] + ([z1] + ([z2] + states)), [1] + ([1] + ([1] + agents));
    }
  }

  lemma StepFirst(s: State, a: Agent, states: seq<State>, agents: seq<Agent>)
    requires Steps(false, states, agents) && Next(false, s, a, states[0])
    ensures Steps(false, [s] + states, [a] + agents)
  {
    hide Next;
  }

  lemma OvertakingSteps(s0: State)
    requires !s0.signaled && s0.counter == 0 && forall a :: At(s0, a) == Idle
    ensures Steps(false, Overtaking(s0), [1, 2, 1, 2, 2, 1])
    ensures Overtaking(s0)[0] == s0 && var last := Overtaking(s0)[6]; Quiet(last) && !last.signaled && last.counter > 0
  {
    var s := Overtaking(s0);
    assert At(s0, 1) == Idle == At(s0, 2);
    assert At(s[0], 1) == Idle && Next(false, s[0], 1, s[1]);
    assert At(s[1], 2) == Idle && Next(false, s[1], 2, s[2]);
    assert At(s[2], 1) == Exchanging(true) && Next(false, s[2], 1, s[3]);
    assert At(s[3], 2) == Exchanging(false) && Next(false, s[3], 2, s[4]);
    assert At(s[4], 2) == Mirroring(false) && Next(false, s[4], 2, s[5]);
    assert At(s[5], 1) == Mirroring(true) && Next(false, s[5], 1, s[6]);
    forall a ensures At(s[6], a) == Idle { assert At(s0, a) == Idle; }
  }

  /** Agent 1 begins a set, agent 2 a reset; the set exchanges first and writes last. */
  function Overtaking(s0: State): seq<State> {
    var s1 := Moved(s0, 1, Exchanging(true));
    var s2 := Moved(s1, 2, Exchanging(false));
    var s3 := Moved(s2.(signaled := true, last := true), 1, Mirroring(true));
    var s4 := Moved(s3.(signaled := false, last := false), 2, Mirroring(false));
    var s5 := Moved(s4.(counter := 0), 2, Idle);
    [s0, s1, s2, s3, s4, s5, Moved(s5.(counter := 1), 1, Idle)]
  }

  /** Inside a set or a reset it stays what it is, and an agent is done with it only after it has given the lock
      back. */
  lemma StaysWhatItIs(s: State, a: Agent, s': State)
    requires Inv(s) && Next(true, s, a, s')
    ensures (forall b :: b != a ==> At(s', b) == At(s, b))
    ensures At(s, a) == Idle ==> At(s', a).Spinning?
    ensures At(s, a) != Idle && At(s', a) != Idle ==> At(s', a).set_ == At(s, a).set_
    ensures At(s, a) != Idle && At(s', a) == Idle ==> At(s, a).Unlocking? && !s'.locked
    ensures s'.signaled != s.signaled ==> At(s, a).Exchanging? && s'.signaled == At(s, a).set_ && s.locked
  {
    if s'.signaled != s.signaled { assert Inside(s, a); }
  }

  /** In any run the event is as the last exchange left it: set by a set, reset by a reset. */
  lemma {:induction false} LastExchangeHolds(manual: bool, initval: nat, states: seq<State>, agents: seq<Agent>,
                                             i: nat, k: nat)
    requires IsRun(manual, initval, states, agents) && i < k <= |agents| && At(states[i], agents[i]).Exchanging?
    requires forall j :: i < j < k ==> !At(states[j], agents[j]).Exchanging?
    ensures states[k].signaled == At(states[i], agents[i]).set_
  {
    assert Next(manual, states[i], agents[i], states[i + 1]);
    for j := i + 1 to k
      invariant states[j].signaled == At(states[i], agents[i]).set_
    {
      assert Next(manual, states[j], agents[j], states[j + 1]);
    }
  }

  /** While nobody is inside, a set or a reset can be carried out alone, and takes effect: the event and its
      eventfd are both as it says. */
  lemma TakesEffect(s: State, a: Agent, set_: bool) returns (states: seq<State>, agents: seq<Agent>)
    requires Inv(s) && Quiet(s) && At(s, a) == Idle
    ensures Steps(true, states, agents) && states[0] == s && (forall i :: 0 <= i < |agents| ==> agents[i] == a)
    ensures var last := states[|agents|];
            At(last, a) == Idle && !last.locked && last.signaled == set_ && (last.counter > 0) == set_
  {
    InvAgrees(s);
    var s1 := Moved(s, a, Spinning(set_));
    var s2 := Moved(s1.(locked := true), a, Exchanging(set_));
    if s.signaled == set_ {
      var s3 := Moved(s2.(last := set_), a, Unlocking(set_));
      states, agents := [s, s1, s2, s3, Moved(s3.(locked := false), a, Idle)], [a, a, a, a];
    } else {
      var s3 := Moved(s2.(signaled := set_, last := set_), a, Mirroring(set_));
      var s4 := Moved(s3.(counter := if set_ then s.counter + 1 else 0), a, Unlocking(set_));
      states, agents := [s, s1, s2, s3, s4, Moved(s4.(locked := false), a, Idle)], [a, a, a, a, a];
    }
  }

  /** Whoever is waiting, somebody can move the event on: no state of a run is stuck. */
  lemma NeverStuck(s: State, a: Agent)
    requires Inv(s) && At(s, a).Spinning?
    ensures exists b, s' :: Next(true, s, b, s') && (b == a || Inside(s, b)) && s' != s
  {
    if s.locked {
      var b :| Inside(s, b);
      match At(s, b)
      case Exchanging(set_) =>
        var s' := Moved(s.(signaled := set_, last := set_), b,
                        if s.signaled == set_ then Unlocking(set_) else Mirroring(set_));
        assert Next(true, s, b, s') && At(s', b) != At(s, b);
      case Mirroring(set_) =>
        var s' := Moved(s.(counter := if set_ then s.counter + 1 else 0), b, Unlocking(set_));
        assert Next(true, s, b, s') && At(s', b) != At(s, b);
      case Unlocking(_) =>
        var s' := Moved(s.(locked := false), b, Idle);
        assert Next(true, s, b, s') && At(s', b) != At(s, b);
    } else {
      var s' := Moved(s.(locked := true), a, Exchanging(At(s, a).set_));
      assert Next(true, s, a, s') && s' != s;
    }
  }
}
