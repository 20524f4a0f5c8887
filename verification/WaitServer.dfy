/** The server's waits, updated in place: each thread's stack of waits, the queues of the objects
    waited on, suspension and asynchronous procedure calls. */
module WaitServer {
  import opened Common
  import opened WaitModel

  /** How synchronization objects behave is left open: when an object is signaled for a thread, and
      what acquiring it does to its state and whether it had been abandoned. */
  datatype Kind<!S> = Kind(signaled: (S, nat) -> bool, satisfied: (S, nat) -> (S, bool))

  datatype Outcome =
    | Pending | Object(index: nat) | KernelApc | UserApc | WasSuspended | TimedOut | Terminating | Failed

  datatype Context = Context(cooperative: bool, dirty: bool)

  /** A queued call: its owner, 0 for none, and when it was queued. */
  datatype Apc = Apc(owner: nat, number: nat)

  datatype Thread = Thread(
    process: nat,
    stack: seq<nat>,           // the waits, innermost first
    suspend: nat,
    bypass: bool,              // not affected by suspending the process
    context: Option<Context>,
    suspendCookie: nat,
    system: seq<Apc>,
    user: seq<Apc>,
    hasAlert: bool,
    alert: bool,               // the alert event in shared memory
    terminated: bool)

  datatype Reply = Reply(thread: nat, cookie: nat, outcome: Outcome, abandoned: bool)

  /** The end of a wait, with what was the case when it ended. */
  datatype Done = Done(
    wait: Wait,
    outcome: Outcome,
    checked: bool,             // found by checking the wait, not told by the object
    found: Outcome,            // what checking it would have found
    suspended: bool,
    signaled: seq<bool>)

  ghost predicate Acquires(wait: Wait, outcome: Outcome) { outcome.Object? && outcome.index < |wait.objs| }

  /** The index of the first signaled object of a list. */
  function FirstSignaled<S>(kind: Kind<S>, objs: map<nat, Obj<S>>, list: seq<nat>, t: nat, from: nat): (r: Option<nat>)
    requires from <= |list| && forall o :: o in list ==> o in objs
    ensures r.Some? ==> from <= r.value < |list| && kind.signaled(objs[list[r.value]].state, t)
    ensures forall i :: from <= i < |list| && (r.Some? ==> i < r.value) ==> !kind.signaled(objs[list[i]].state, t)
    decreases |list| - from
  {
    if from == |list| then None
    else if kind.signaled(objs[list[from]].state, t) then Some(from)
    else FirstSignaled(kind, objs, list, t, from + 1)
  }

  ghost predicate AllSignaled<S>(kind: Kind<S>, objs: map<nat, Obj<S>>, list: seq<nat>, t: nat)
    requires forall o :: o in list ==> o in objs
  {
    forall i :: 0 <= i < |list| ==> kind.signaled(objs[list[i]].state, t)
  }

  function Acquire<S>(kind: Kind<S>, objs: map<nat, Obj<S>>, o: nat, t: nat): map<nat, Obj<S>>
    requires o in objs
  {
    objs[o := objs[o].(state := kind.satisfied(objs[o].state, t).0)]
  }

  function AcquireAll<S>(kind: Kind<S>, objs: map<nat, Obj<S>>, list: seq<nat>, t: nat): (r: map<nat, Obj<S>>)
    requires forall o :: o in list ==> o in objs
    ensures SameQueues(objs, r)
  {
    if list == [] then objs
    else
      var r := AcquireAll(kind, objs, list[..|list| - 1], t);
      Acquire(kind, r, list[|list| - 1], t)
  }

  /** Only object states differ. */
  ghost predicate SameQueues<S>(a: map<nat, Obj<S>>, b: map<nat, Obj<S>>) {
    && a.Keys == b.Keys
    && forall o :: o in a ==> a[o].queue == b[o].queue && a[o].refs == b[o].refs
  }

  /** The objects after a wait has taken what its outcome gives it. */
  function Taken<S>(kind: Kind<S>, objs: map<nat, Obj<S>>, wait: Wait, outcome: Outcome): (r: map<nat, Obj<S>>)
    requires forall o :: o in wait.objs ==> o in objs
    ensures SameQueues(objs, r)
  {
    if !(outcome.Object? && outcome.index < |wait.objs|) then objs
    else if wait.all then AcquireAll(kind, objs, wait.objs, wait.thread)
    else Acquire(kind, objs, wait.objs[outcome.index], wait.thread)
  }

  /** Whether one of the objects a wait takes had been abandoned. */
  function Abandoned<S>(kind: Kind<S>, objs: map<nat, Obj<S>>, wait: Wait, outcome: Outcome): bool
    requires forall o :: o in wait.objs ==> o in objs
  {
    outcome.Object? && outcome.index < |wait.objs|
    && if wait.all then AnyAbandoned(kind, objs, wait.objs, wait.thread)
       else kind.satisfied(objs[wait.objs[outcome.index]].state, wait.thread).1
  }

  function AnyAbandoned<S>(kind: Kind<S>, objs: map<nat, Obj<S>>, list: seq<nat>, t: nat): bool
    requires forall o :: o in list ==> o in objs
  {
    list != []
    && var n := |list| - 1;
       AnyAbandoned(kind, objs, list[..n], t)
       || kind.satisfied(AcquireAll(kind, objs, list[..n], t)[list[n]].state, t).1
  }

  /** What a look at a wait of a thread finds. A suspended thread takes no objects, but it is told of
      system calls and of its suspension. */
  ghost function Look<S>(kind: Kind<S>, objs: map<nat, Obj<S>>, wait: Wait, th: Thread, suspended: bool,
                         now: int): Outcome
    requires forall o :: o in wait.objs ==> o in objs
  {
    if wait.interruptible && th.system != [] then KernelApc
    else if wait.cooperative && th.context.Some? then WasSuspended
    else if suspended then Pending
    else if wait.all && AllSignaled(kind, objs, wait.objs, wait.thread) then Object(0)
    else if !wait.all && FirstSignaled(kind, objs, wait.objs, wait.thread, 0).Some? then
      Object(FirstSignaled(kind, objs, wait.objs, wait.thread, 0).value)
    else if wait.alertable && th.user != [] then UserApc
    else if wait.when.Some? && wait.when.value <= now then TimedOut
    else Pending
  }

  /** A wait ends for the first of these reasons that there is. */
  lemma LookFinds<S>(kind: Kind<S>, objs: map<nat, Obj<S>>, wait: Wait, th: Thread, suspended: bool, now: int)
    requires forall o :: o in wait.objs ==> o in objs
    ensures var r, t, list := Look(kind, objs, wait, th, suspended, now), wait.thread, wait.objs;
            if wait.interruptible && th.system != [] then r == KernelApc
            else if wait.cooperative && th.context.Some? then r == WasSuspended
            else if suspended then r == Pending
            else if wait.all && forall i :: 0 <= i < |list| ==> kind.signaled(objs[list[i]].state, t) then
              r == Object(0)
            else if !wait.all && exists i :: 0 <= i < |list| && kind.signaled(objs[list[i]].state, t) then
              r.Object? && r.index < |list| && kind.signaled(objs[list[r.index]].state, t)
                && forall i :: 0 <= i < r.index ==> !kind.signaled(objs[list[i]].state, t)
            else if wait.alertable && th.user != [] then r == UserApc
            else r == if wait.when.Some? && wait.when.value <= now then TimedOut else Pending
  {
    assert forall i :: 0 <= i < |wait.objs| ==> wait.objs[i] in objs;
  }

  /** What is taken: nothing without an object; the one object of the outcome for a wait on any; each object, once,
      for a wait on all of several. */
  lemma TakenStates<S>(kind: Kind<S>, objs: map<nat, Obj<S>>, wait: Wait, outcome: Outcome)
    requires forall o :: o in wait.objs ==> o in objs
    ensures !Acquires(wait, outcome) ==> Taken(kind, objs, wait, outcome) == objs
    ensures Acquires(wait, outcome) && (wait.all ==> Distinct(wait.objs)) ==>
              forall o :: o in objs ==>
                Taken(kind, objs, wait, outcome)[o].state ==
                if if wait.all then o in wait.objs else o == wait.objs[outcome.index]
                then kind.satisfied(objs[o].state, wait.thread).0 else objs[o].state
    ensures Abandoned(kind, objs, wait, outcome) && (wait.all ==> Distinct(wait.objs)) ==>
              Acquires(wait, outcome)
              && exists i :: 0 <= i < |wait.objs| && (wait.all || i == outcome.index)
                             && kind.satisfied(objs[wait.objs[i]].state, wait.thread).1
    ensures Acquires(wait, outcome) && (wait.all ==> Distinct(wait.objs)) ==>
              forall i :: 0 <= i < |wait.objs| && (wait.all || i == outcome.index)
                          && kind.satisfied(objs[wait.objs[i]].state, wait.thread).1 ==>
                Abandoned(kind, objs, wait, outcome)
  {
    if wait.all && Distinct(wait.objs) { AcquiredOnce(kind, objs, wait.objs, wait.thread); }
  }

  lemma {:induction false} AcquiredOnce<S>(kind: Kind<S>, objs: map<nat, Obj<S>>, list: seq<nat>, t: nat)
    requires (forall o :: o in list ==> o in objs) && Distinct(list)
    ensures forall o :: o in objs ==>
              AcquireAll(kind, objs, list, t)[o].state ==
              if o in list then kind.satisfied(objs[o].state, t).0 else objs[o].state
    ensures AnyAbandoned(kind, objs, list, t) <==>
            exists i :: 0 <= i < |list| && kind.satisfied(objs[list[i]].state, t).1
  {
    if list != [] {
      var n := |list| - 1;
      AcquiredOnce(kind, objs, list[..n], t);
      assert list[n] in list && list[n] !in list[..n];
      assert forall o :: o in list <==> o in list[..n] || o == list[n];
    }
  }

  lemma AcquiredLast<S>(kind: Kind<S>, objs: map<nat, Obj<S>>, list: seq<nat>, o: nat, t: nat)
    requires (forall x :: x in list ==> x in objs) && o in objs
    ensures var r := AcquireAll(kind, objs, list, t);
            && AcquireAll(kind, objs, list + [o], t) == Acquire(kind, r, o, t)
            && AnyAbandoned(kind, objs, list + [o], t)
               == (AnyAbandoned(kind, objs, list, t) || kind.satisfied(r[o].state, t).1)
  {
    assert (list + [o])[..|list|] == list;
    hide Acquire;
  }

  /** Objects are acquired one after the other, each in the state those before have left. */
  lemma {:induction false} AcquiredInTurn<S>(kind: Kind<S>, objs: map<nat, Obj<S>>, a: seq<nat>, b: seq<nat>, t: nat)
    requires (forall o :: o in a ==> o in objs) && forall o :: o in b ==> o in objs
    ensures var half := AcquireAll(kind, objs, a, t);
            && AcquireAll(kind, objs, a + b, t) == AcquireAll(kind, half, b, t)
            && AnyAbandoned(kind, objs, a + b, t) == (AnyAbandoned(kind, objs, a, t) || AnyAbandoned(kind, half, b, t))
  {
    if b == [] {
      assert a + b == a;
    } else {
      var n := |b| - 1;
      assert a + b == (a + b[..n]) + [b[n]] && b == b[..n] + [b[n]];
      AcquiredInTurn(kind, objs, a, b[..n], t);
      AcquiredLast(kind, objs, a + b[..n], b[n], t);
      AcquiredLast(kind, AcquireAll(kind, objs, a, t), b[..n], b[n], t);
      hide *;
    }
  }

  /** Only the states of the objects matter to it. */
  lemma LookSame<S>(kind: Kind<S>, a: map<nat, Obj<S>>, b: map<nat, Obj<S>>, wait: Wait, th: Thread, suspended: bool,
                    now: int)
    requires a.Keys == b.Keys && forall o :: o in a ==> a[o].state == b[o].state
    requires forall o :: o in wait.objs ==> o in a
    ensures Look(kind, a, wait, th, suspended, now) == Look(kind, b, wait, th, suspended, now)
  {
  }

  lemma StripAcquire<S>(kind: Kind<S>, objs: map<nat, Obj<S>>, o: nat, t: nat, w: nat)
    requires o in objs && forall o :: o in objs ==> |objs[o].queue| <= objs[o].refs
    ensures Strip(Acquire(kind, objs, o, t), w) == Acquire(kind, Strip(objs, w), o, t)
  {
  }

  lemma {:induction false} StripAcquireAll<S>(kind: Kind<S>, objs: map<nat, Obj<S>>, list: seq<nat>, t: nat, w: nat)
    requires (forall o :: o in list ==> o in objs) && forall o :: o in objs ==> |objs[o].queue| <= objs[o].refs
    ensures Strip(AcquireAll(kind, objs, list, t), w) == AcquireAll(kind, Strip(objs, w), list, t)
  {
    hide Strip, Acquire;
    if list != [] {
      var n := |list| - 1;
      StripAcquireAll(kind, objs, list[..n], t, w);
      StripAcquire(kind, AcquireAll(kind, objs, list[..n], t), list[n], t, w);
    }
  }

  lemma NoneAbandoned<S>(kind: Kind<S>, objs: map<nat, Obj<S>>, wait: Wait)
    requires forall o :: o in wait.objs ==> o in objs
    ensures !Abandoned(kind, objs, wait, Failed) && !Abandoned(kind, objs, wait, Pending)
  {
  }

  lemma AbandonedSame<S>(kind: Kind<S>, a: map<nat, Obj<S>>, b: map<nat, Obj<S>>, wait: Wait)
    requires a.Keys == b.Keys && forall o :: o in a ==> a[o].state == b[o].state
    requires forall o :: o in wait.objs ==> o in a
    ensures forall outcome :: Abandoned(kind, a, wait, outcome) == Abandoned(kind, b, wait, outcome)
  {
    AnyAbandonedSame(kind, a, b, wait.objs, wait.thread);
    assert forall i :: 0 <= i < |wait.objs| ==> wait.objs[i] in wait.objs;
  }

  lemma {:induction false} AnyAbandonedSame<S>(kind: Kind<S>, a: map<nat, Obj<S>>, b: map<nat, Obj<S>>,
                                               list: seq<nat>, t: nat)
    requires a.Keys == b.Keys && forall o :: o in a ==> a[o].state == b[o].state
    requires forall o :: o in list ==> o in a
    ensures AnyAbandoned(kind, a, list, t) == AnyAbandoned(kind, b, list, t)
    ensures forall o :: o in a ==> AcquireAll(kind, a, list, t)[o].state == AcquireAll(kind, b, list, t)[o].state
  {
    if list != [] {
      assert list[|list| - 1] in list;
      AnyAbandonedSame(kind, a, b, list[..|list| - 1], t);
    }
  }

  /** Taking objects and leaving their queues can be done in either order. */
  lemma StripTaken<S>(kind: Kind<S>, objs: map<nat, Obj<S>>, wait: Wait, outcome: Outcome, w: nat)
    requires (forall o :: o in wait.objs ==> o in objs) && forall o :: o in objs ==> |objs[o].queue| <= objs[o].refs
    ensures Strip(Taken(kind, objs, wait, outcome), w) == Taken(kind, Strip(objs, w), wait, outcome)
  {
    hide Strip, Acquire;
    if outcome.Object? && outcome.index < |wait.objs| {
      if wait.all {
        StripAcquireAll(kind, objs, wait.objs, wait.thread, w);
      } else {
        StripAcquire(kind, objs, wait.objs[outcome.index], wait.thread, w);
      }
    }
  }

  lemma LookStack<S>(kind: Kind<S>, objs: map<nat, Obj<S>>, wait: Wait, th: Thread, stack: seq<nat>, suspended: bool,
                     now: int)
    requires forall o :: o in wait.objs ==> o in objs
    ensures Look(kind, objs, wait, th.(stack := stack), suspended, now) == Look(kind, objs, wait, th, suspended, now)
  {
  }

  // ---- calls -------------------------------------------------------------------------------

  /** The calls of a queue are in the order they were queued in. */
  ghost predicate InOrder(q: seq<Apc>, limit: nat) {
    && (forall i, j :: 0 <= i < j < |q| ==> q[i].number < q[j].number)
    && forall i :: 0 <= i < |q| ==> q[i].number < limit
  }

  /** A queue after the first call of an owner is gone from it. */
  function Cancelled(q: seq<Apc>, owner: nat): seq<Apc> {
    if q == [] then []
    else if q[0].owner == owner then q[1..]
    else [q[0]] + Cancelled(q[1..], owner)
  }

  lemma {:induction false} CancelledAbove(q: seq<Apc>, owner: nat, low: nat)
    requires forall i :: 0 <= i < |q| ==> low < q[i].number
    ensures forall i :: 0 <= i < |Cancelled(q, owner)| ==> low < Cancelled(q, owner)[i].number
  {
    if q != [] && q[0].owner != owner { CancelledAbove(q[1..], owner, low); }
  }

  lemma {:induction false} CancelledInOrder(q: seq<Apc>, owner: nat, limit: nat)
    requires InOrder(q, limit)
    ensures InOrder(Cancelled(q, owner), limit)
  {
    if q != [] && q[0].owner != owner {
      CancelledInOrder(q[1..], owner, limit);
      CancelledAbove(q[1..], owner, q[0].number);
    }
  }

  lemma {:induction false} CancelledAt(q: seq<Apc>, owner: nat, i: nat)
    requires i <= |q| && forall k :: 0 <= k < i ==> q[k].owner != owner
    ensures i < |q| && q[i].owner == owner ==> Cancelled(q, owner) == q[..i] + q[i + 1..]
    ensures i == |q| ==> Cancelled(q, owner) == q
  {
    if 0 < i {
      CancelledAt(q[1..], owner, i - 1);
      if i < |q| { assert q[..i] + q[i + 1..] == [q[0]] + (q[1..][..i - 1] + q[1..][i..]); }
    }
  }

  function Queue(th: Thread, system: bool): seq<Apc> { if system then th.system else th.user }

  function WithQueue(th: Thread, system: bool, q: seq<Apc>): Thread {
    if system then th.(system := q) else th.(user := q)
  }

  /** A thread's alert event is set when it has user calls queued and off when it has none. */
  function Ringing(th: Thread): Thread { if th.hasAlert then th.(alert := th.user != []) else th }

  /** A living thread's alert event is set exactly when it has user calls queued, and each of its
      queues is in order. */
  ghost predicate Sound(th: Thread, limit: nat) {
    && (th.hasAlert && !th.terminated ==> (th.alert <==> th.user != []))
    && InOrder(th.system, limit) && InOrder(th.user, limit)
  }

  lemma SoundLater(th: Thread, limit: nat)
    requires Sound(th, limit)
    ensures Sound(th, limit + 1)
  {
  }

  lemma AppendSound(th: Thread, system: bool, apc: Apc, limit: nat)
    requires Sound(th, limit) && !th.terminated && apc.number == limit
    ensures var longer := WithQueue(th, system, Queue(th, system) + [apc]);
            Sound(if Queue(th, system) == [] && !system && th.hasAlert then longer.(alert := true) else longer,
                  limit + 1)
  {
  }

  /** A thread has died, or is as it was apart from its waits and its context. */
  ghost predicate SameCalls(a: Thread, b: Thread) {
    b.terminated
    || (!a.terminated && a.system == b.system && a.user == b.user && a.alert == b.alert && a.suspend == b.suspend
        && a.hasAlert == b.hasAlert && a.process == b.process)
  }

  /** No thread but t has changed, and t is as SameCalls says. */
  ghost predicate OnlyThread(a: map<nat, Thread>, b: map<nat, Thread>, t: nat) {
    && a.Keys == b.Keys && t in a && SameCalls(a[t], b[t])
    && forall t' :: t' in a && t' != t ==> a[t'] == b[t']
  }

  lemma OnlyThreadSame(a: map<nat, Thread>, t: nat)
    requires t in a
    ensures OnlyThread(a, a, t)
  {
  }

  lemma OnlyThreadOne(a: map<nat, Thread>, b: map<nat, Thread>, t: nat)
    requires t in a && t in b && b == a[t := b[t]] && SameCalls(a[t], b[t])
    ensures OnlyThread(a, b, t)
  {
  }

  lemma SameButStack(th: Thread, stack: seq<nat>)
    ensures SameCalls(th, th.(stack := stack))
  {
  }

  lemma OnlyThreadAgain(a: map<nat, Thread>, b: map<nat, Thread>, c: map<nat, Thread>, t: nat)
    requires OnlyThread(a, b, t) && OnlyThread(b, c, t)
    ensures OnlyThread(a, c, t)
  {
  }

  // ---- what a client is told ---------------------------------------------------------------

  /** The client is being told the end of the wait it was suspended in. */
  predicate EndsSuspension(th: Thread, cookie: nat, outcome: Outcome) {
    th.context.Some? && th.suspendCookie == cookie && outcome != KernelApc && outcome != UserApc
  }

  function Resumed(th: Thread, cookie: nat, outcome: Outcome): Thread {
    if EndsSuspension(th, cookie, outcome) && !th.context.value.dirty then th.(context := None) else th
  }

  function Sent(th: Thread, cookie: nat, outcome: Outcome): Outcome {
    if EndsSuspension(th, cookie, outcome) && th.context.value.dirty then KernelApc else outcome
  }

  function Told(th: Thread, t: nat, cookie: nat, outcome: Outcome, abandoned: bool): seq<Reply> {
    if cookie == 0 then [] else [Reply(t, cookie, Sent(th, cookie, outcome), abandoned)]
  }

  /** A thread that has been told of a cooperative suspension. */
  function Noted(th: Thread, outcome: Outcome): Thread {
    if outcome.WasSuspended? && th.context.Some? then th.(context := Some(th.context.value.(cooperative := true)))
       else th
  }

  lemma NotedBelow(th: Thread, w: nat, outcome: Outcome)
    ensures Noted(th.(stack := [w] + th.stack), outcome).(stack := ([w] + th.stack)[1..]) == Noted(th, outcome)
  {
  }

  lemma ToldSame(th: Thread, stack: seq<nat>, t: nat, cookie: nat, outcome: Outcome, abandoned: bool)
    ensures Told(Noted(th, outcome).(stack := stack), t, cookie, outcome, abandoned)
            == Told(th, t, cookie, outcome, abandoned)
  {
  }

  /** Only queues and references differ. */
  ghost predicate SameStates<S>(a: map<nat, Obj<S>>, b: map<nat, Obj<S>>) {
    a.Keys == b.Keys && forall o :: o in a ==> a[o].state == b[o].state
  }

  lemma SameStatesAgain<S>(a: map<nat, Obj<S>>, b: map<nat, Obj<S>>, c: map<nat, Obj<S>>)
    requires SameStates(a, b) && SameStates(b, c)
    ensures SameStates(a, c)
  {
  }

  /** A wait that ends without objects takes none. */
  lemma NothingChanges<S>(kind: Kind<S>, objs: map<nat, Obj<S>>, wait: Wait, outcome: Outcome, w: nat)
    requires !outcome.Object? && (forall o :: o in wait.objs ==> o in objs)
    requires forall o :: o in objs ==> |objs[o].queue| <= objs[o].refs
    ensures SameStates(objs, Strip(Taken(kind, objs, wait, outcome), w))
  {
  }

  /** All waits that have ended since ended with the same outcome. */
  ghost predicate AllEnded(before: seq<Done>, log: seq<Done>, outcome: Outcome) {
    before <= log && forall i :: |before| <= i < |log| ==> log[i].outcome == outcome
  }

  // ---- what has happened since -------------------------------------------------------------

  /** The objects after the waits of some records have taken what their outcomes give them. */
  ghost function Replayed<S>(kind: Kind<S>, objs: map<nat, Obj<S>>, records: seq<Done>): (r: map<nat, Obj<S>>)
    ensures SameQueues(objs, r)
  {
    if records == [] then objs
    else
      var n := |records| - 1;
      var r, d := Replayed(kind, objs, records[..n]), records[n];
      if Has(objs, d.wait) then Taken(kind, r, d.wait, d.outcome) else r
  }

  ghost predicate Has<S>(objs: map<nat, Obj<S>>, wait: Wait) { forall o :: o in wait.objs ==> o in objs }

  lemma TakenSame<S>(kind: Kind<S>, a: map<nat, Obj<S>>, b: map<nat, Obj<S>>, wait: Wait, outcome: Outcome)
    requires SameStates(a, b) && Has(a, wait)
    ensures SameStates(Taken(kind, a, wait, outcome), Taken(kind, b, wait, outcome))
  {
    AnyAbandonedSame(kind, a, b, wait.objs, wait.thread);
    if Acquires(wait, outcome) { assert wait.objs[outcome.index] in wait.objs; }
  }

  lemma {:induction false} ReplayedSame<S>(kind: Kind<S>, a: map<nat, Obj<S>>, b: map<nat, Obj<S>>, records: seq<Done>)
    requires SameStates(a, b)
    ensures SameStates(Replayed(kind, a, records), Replayed(kind, b, records))
  {
    hide Taken;
    if records != [] {
      var n := |records| - 1;
      ReplayedSame(kind, a, b, records[..n]);
      if Has(a, records[n].wait) {
        TakenSame(kind, Replayed(kind, a, records[..n]), Replayed(kind, b, records[..n]), records[n].wait,
                  records[n].outcome);
      }
    }
  }

  /** Records can be replayed piece by piece. */
  lemma {:induction false} ReplayedMore<S>(kind: Kind<S>, objs: map<nat, Obj<S>>, first: seq<Done>, second: seq<Done>)
    ensures Replayed(kind, objs, first + second) == Replayed(kind, Replayed(kind, objs, first), second)
  {
    if second == [] {
      assert first + second == first;
    } else {
      var n := |second| - 1;
      assert first + second == (first + second[..n]) + [second[n]] && second == second[..n] + [second[n]];
      ReplayedMore(kind, objs, first, second[..n]);
      ReplayedLast(kind, objs, first + second[..n], second[n]);
      ReplayedLast(kind, Replayed(kind, objs, first), second[..n], second[n]);
      hide *;
    }
  }

  lemma ReplayedLast<S>(kind: Kind<S>, objs: map<nat, Obj<S>>, records: seq<Done>, d: Done)
    ensures var r := Replayed(kind, objs, records);
            (Has(objs, d.wait) <==> Has(r, d.wait))
            && Replayed(kind, objs, records + [d]) == if Has(r, d.wait) then Taken(kind, r, d.wait, d.outcome) else r
  {
    hide Taken;
    assert (records + [d])[..|records|] == records;
  }

  lemma ReplayedOne<S>(kind: Kind<S>, objs: map<nat, Obj<S>>, d: Done)
    requires Has(objs, d.wait)
    ensures Replayed(kind, objs, []) == objs && Replayed(kind, objs, [d]) == Taken(kind, objs, d.wait, d.outcome)
  {
    assert [d][..0] == [];
  }

  /** The states of the objects are what the records since say was taken. */
  ghost predicate Followed<S>(kind: Kind<S>, objs0: map<nat, Obj<S>>, log0: seq<Done>, objs: map<nat, Obj<S>>,
                              log: seq<Done>)
  {
    log0 <= log && SameStates(Replayed(kind, objs0, log[|log0|..]), objs)
  }

  lemma FollowedSame<S>(kind: Kind<S>, objs: map<nat, Obj<S>>, log: seq<Done>)
    ensures Followed(kind, objs, log, objs, log)
  {
  }

  lemma FollowedOne<S>(kind: Kind<S>, objs0: map<nat, Obj<S>>, log: seq<Done>, d: Done, objs: map<nat, Obj<S>>)
    requires Has(objs0, d.wait) && SameStates(Taken(kind, objs0, d.wait, d.outcome), objs)
    ensures Followed(kind, objs0, log, objs, log + [d])
  {
    ReplayedOne(kind, objs0, d);
    assert (log + [d])[|log|..] == [d];
  }

  lemma FollowedAgain<S>(kind: Kind<S>, a: map<nat, Obj<S>>, la: seq<Done>, b: map<nat, Obj<S>>, lb: seq<Done>,
                         c: map<nat, Obj<S>>, lc: seq<Done>)
    requires Followed(kind, a, la, b, lb) && Followed(kind, b, lb, c, lc)
    ensures Followed(kind, a, la, c, lc)
  {
    hide Replayed;
    var first, second := lb[|la|..], lc[|lb|..];
    assert lc[|la|..] == first + second;
    ReplayedMore(kind, a, first, second);
    ReplayedSame(kind, Replayed(kind, a, first), b, second);
  }

  /** The state of a server, for comparing it with a later one. */
  datatype State<S> = State(
    objs: map<nat, Obj<S>>, waits: map<nat, Wait>, threads: map<nat, Thread>, log: seq<Done>, replies: seq<Reply>)

  ghost function WithThread<S>(a: State<S>, t: nat, th: Thread): State<S> { a.(threads := a.threads[t := th]) }

  /** Between two states waits have only ended, objects were taken only as logged, and no thread died but of
      those that are gone. */
  ghost predicate Onward<S>(kind: Kind<S>, gone: set<nat>, a: State<S>, b: State<S>) {
    && Followed(kind, a.objs, a.log, b.objs, b.log) && a.objs.Keys == b.objs.Keys
    && a.threads.Keys == b.threads.Keys && a.replies <= b.replies
    && b.waits.Keys <= a.waits.Keys && (forall w :: w in b.waits ==> b.waits[w] == a.waits[w])
    && forall t :: t in a.threads && b.threads[t].terminated ==> a.threads[t].terminated || t in gone
  }

  lemma OnwardSame<S>(kind: Kind<S>, gone: set<nat>, a: State<S>)
    ensures Onward(kind, gone, a, a)
  {
  }

  lemma OnwardAgain<S>(kind: Kind<S>, gone: set<nat>, a: State<S>, b: State<S>, c: State<S>)
    requires Onward(kind, gone, a, b) && Onward(kind, gone, b, c)
    ensures Onward(kind, gone, a, c)
  {
    hide Followed;
    FollowedAgain(kind, a.objs, a.log, b.objs, b.log, c.objs, c.log);
  }

  /** The waits that have ended were the innermost ones of thread t, and ended in that order. */
  ghost predicate Popped<S>(t: nat, a: State<S>, b: State<S>) {
    && t in a.threads && t in b.threads && |a.log| <= |b.log| <= |a.log| + |a.threads[t].stack|
    && b.threads[t].stack == a.threads[t].stack[|b.log| - |a.log|..]
    && forall i :: |a.log| <= i < |b.log| ==> IsOf(t, a, i - |a.log|, b.log[i])
  }

  /** A record is of the wait at a place of the stack of thread t. */
  ghost predicate IsOf<S>(t: nat, a: State<S>, i: nat, d: Done)
    requires t in a.threads && i < |a.threads[t].stack|
  {
    var w := a.threads[t].stack[i];
    w in a.waits && d.wait == a.waits[w] && d.wait.thread == t
  }

  lemma PoppedAgain<S>(t: nat, a: State<S>, b: State<S>, c: State<S>)
    requires Popped(t, a, b) && Popped(t, b, c) && b.log <= c.log
    requires forall w :: w in b.waits ==> w in a.waits && b.waits[w] == a.waits[w]
    ensures Popped(t, a, c)
  {
    forall i | |a.log| <= i < |c.log| ensures IsOf(t, a, i - |a.log|, c.log[i]) {
      if |b.log| <= i {
        assert IsOf(t, b, i - |b.log|, c.log[i]);
        assert b.threads[t].stack[i - |b.log|] == a.threads[t].stack[i - |a.log|];
      } else {
        assert c.log[i] == b.log[i];
      }
    }
  }

  /** Between two states nothing has happened but that waits of thread t have ended. */
  ghost predicate Moved<S>(kind: Kind<S>, gone: set<nat>, t: nat, a: State<S>, b: State<S>) {
    Onward(kind, gone, a, b) && OnlyThread(a.threads, b.threads, t) && Popped(t, a, b)
  }

  lemma MovedSame<S>(kind: Kind<S>, gone: set<nat>, t: nat, a: State<S>)
    requires t in a.threads
    ensures Moved(kind, gone, t, a, a)
  {
    hide Onward;
    OnwardSame(kind, gone, a);
  }

  lemma MovedAgain<S>(kind: Kind<S>, gone: set<nat>, t: nat, a: State<S>, b: State<S>, c: State<S>)
    requires Moved(kind, gone, t, a, b) && Moved(kind, gone, t, b, c)
    ensures Moved(kind, gone, t, a, c)
  {
    hide OnlyThread, Popped, Followed;
    OnwardAgain(kind, gone, a, b, c);
    OnlyThreadAgain(a.threads, b.threads, c.threads, t);
    Grown(kind, gone, t, b, c);
    PoppedAgain(t, a, b, c);
  }

  lemma Grown<S>(kind: Kind<S>, gone: set<nat>, t: nat, a: State<S>, b: State<S>)
    requires Moved(kind, gone, t, a, b)
    ensures t in a.threads && t in b.threads && a.threads.Keys == b.threads.Keys && a.objs.Keys == b.objs.Keys
    ensures a.log <= b.log && a.replies <= b.replies && b.waits.Keys <= a.waits.Keys && Popped(t, a, b)
    ensures Onward(kind, gone, a, b)
  {
  }

  /** A change to the calls or the context of one thread. */
  lemma MovedOne<S>(kind: Kind<S>, gone: set<nat>, t: nat, a: State<S>, b: State<S>)
    requires t in a.threads && t in b.threads && b == a.(threads := a.threads[t := b.threads[t]])
    requires SameCalls(a.threads[t], b.threads[t]) && a.threads[t].stack == b.threads[t].stack
    requires b.threads[t].terminated ==> a.threads[t].terminated || t in gone
    ensures Moved(kind, gone, t, a, b)
  {
    hide Followed, SameCalls;
    FollowedSame(kind, a.objs, a.log);
  }

  lemma MovedWider<S>(kind: Kind<S>, gone: set<nat>, t: nat, a: State<S>, b: State<S>)
    requires Moved(kind, gone, t, a, b)
    ensures Moved(kind, gone + {t}, t, a, b)
  {
    hide Followed, OnlyThread, Popped;
  }

  lemma MovedTold<S>(kind: Kind<S>, gone: set<nat>, t: nat, a: State<S>, b: State<S>, c: State<S>)
    requires Moved(kind, gone, t, a, b) && c == b.(replies := c.replies) && b.replies <= c.replies
    ensures Moved(kind, gone, t, a, c)
  {
    hide Followed, OnlyThread, IsOf;
  }

  /** The end of the innermost wait of a thread. */
  lemma EndedMoves<S>(kind: Kind<S>, gone: set<nat>, t: nat, a: State<S>, b: State<S>, d: Done)
    requires t in a.threads && a.threads[t].stack != [] && a.threads[t].stack[0] in a.waits
    requires d.wait == a.waits[a.threads[t].stack[0]] && d.wait.thread == t && Has(a.objs, d.wait)
    requires SameStates(Taken(kind, a.objs, d.wait, d.outcome), b.objs)
    requires b.waits == a.waits - {a.threads[t].stack[0]} && b.log == a.log + [d] && b.replies == a.replies
    requires b.threads == a.threads[t := a.threads[t].(stack := a.threads[t].stack[1..])]
    ensures Moved(kind, gone, t, a, b)
  {
    FollowedOne(kind, a.objs, a.log, d, b.objs);
    assert a.objs.Keys == b.objs.Keys;
    hide Followed, Taken;
  }

  /** Each record since some point says what checking found then, or is of the death of a thread that is
      gone. */
  ghost predicate Looked(gone: set<nat>, from: nat, log: seq<Done>) {
    from <= |log| && forall i :: from <= i < |log| ==> Honest(gone, log[i])
  }

  ghost predicate Honest(gone: set<nat>, d: Done) {
    (d.checked && d.outcome == d.found) || (d.wait.thread in gone && d.outcome == Terminating)
  }

  /** A record of a wait that ended as checking it said. */
  ghost predicate Tells(d: Done, wait: Wait, outcome: Outcome) {
    d.wait == wait && d.outcome == outcome && d.checked && d.found == outcome
  }

  /** The end of a wait has been recorded as checking said. */
  ghost predicate Added(before: seq<Done>, log: seq<Done>, wait: Wait, outcome: Outcome) {
    |log| == |before| + 1 && before <= log && Tells(log[|before|], wait, outcome)
  }

  /** The clients that slept on waits that have ended, and whose pipe is sound. */
  ghost function Sleepers(gone: set<nat>, records: seq<Done>): seq<(nat, nat)> {
    if records == [] then []
    else
      var n := |records| - 1;
      var wait := records[n].wait;
      Sleepers(gone, records[..n])
        + if wait.cookie == 0 || wait.thread in gone then [] else [(wait.thread, wait.cookie)]
  }

  ghost function Spoken(replies: seq<Reply>): seq<(nat, nat)> {
    seq(|replies|, i requires 0 <= i < |replies| => (replies[i].thread, replies[i].cookie))
  }

  lemma {:induction false} SleepersMore(gone: set<nat>, first: seq<Done>, second: seq<Done>)
    ensures Sleepers(gone, first + second) == Sleepers(gone, first) + Sleepers(gone, second)
  {
    if second == [] {
      assert first + second == first;
    } else {
      var n := |second| - 1;
      assert first + second == (first + second[..n]) + [second[n]] && second == second[..n] + [second[n]];
      SleepersMore(gone, first, second[..n]);
      SleepersLast(gone, first + second[..n], second[n]);
      SleepersLast(gone, second[..n], second[n]);
      hide *;
    }
  }

  lemma SleepersLast(gone: set<nat>, records: seq<Done>, d: Done)
    ensures Sleepers(gone, records + [d]) ==
            Sleepers(gone, records)
            + if d.wait.cookie == 0 || d.wait.thread in gone then [] else [(d.wait.thread, d.wait.cookie)]
  {
    assert (records + [d])[..|records|] == records;
  }

  lemma SleepersOne(gone: set<nat>, d: Done)
    ensures Sleepers(gone, []) == []
    ensures Sleepers(gone, [d]) ==
            if d.wait.cookie == 0 || d.wait.thread in gone then [] else [(d.wait.thread, d.wait.cookie)]
  {
    assert [d][..0] == [];
  }

  lemma {:induction false} SleepersGone(gone: set<nat>, records: seq<Done>)
    requires forall i :: 0 <= i < |records| ==> records[i].wait.thread in gone
    ensures Sleepers(gone, records) == []
  {
    if records != [] { SleepersGone(gone, records[..|records| - 1]); }
  }

  /** Between two states each client that slept on a wait that has ended was told once, in the order of the
      ends, and nobody else was told anything. */
  ghost predicate Answered<S>(gone: set<nat>, a: State<S>, b: State<S>) {
    && a.log <= b.log && a.replies <= b.replies
    && Spoken(b.replies[|a.replies|..]) == Sleepers(gone, b.log[|a.log|..])
  }

  lemma AnsweredSame<S>(gone: set<nat>, a: State<S>)
    ensures Answered(gone, a, a) && Looked(gone, |a.log|, a.log)
  {
  }

  lemma AnsweredAgain<S>(gone: set<nat>, a: State<S>, b: State<S>, c: State<S>)
    requires Answered(gone, a, b) && Answered(gone, b, c)
    ensures Answered(gone, a, c)
  {
    hide Sleepers;
    SleepersMore(gone, b.log[|a.log|..], c.log[|b.log|..]);
    assert c.log[|a.log|..] == b.log[|a.log|..] + c.log[|b.log|..];
    var first, second := b.replies[|a.replies|..], c.replies[|b.replies|..];
    assert c.replies[|a.replies|..] == first + second;
    assert Spoken(first + second) == Spoken(first) + Spoken(second);
  }

  lemma AnsweredOne<S>(gone: set<nat>, a: State<S>, b: State<S>, d: Done)
    requires b.log == a.log + [d] && a.replies <= b.replies
    requires var wait, more := d.wait, b.replies[|a.replies|..];
             if wait.cookie == 0 || wait.thread in gone then more == []
             else |more| == 1 && more[0].thread == wait.thread && more[0].cookie == wait.cookie
    ensures Answered(gone, a, b)
  {
    hide Sleepers;
    SleepersOne(gone, d);
    assert b.log[|a.log|..] == [d];
  }

  /** Nobody is told that a thread dies. */
  lemma AnsweredDead<S>(gone: set<nat>, t: nat, a: State<S>, b: State<S>, c: State<S>)
    requires t in gone && a.log <= b.log <= c.log && a.replies == c.replies && Popped(t, b, c)
    requires forall i :: |a.log| <= i < |b.log| ==> b.log[i].wait.thread == t
    ensures Answered(gone, a, c)
  {
    forall i | |a.log| <= i < |c.log| ensures c.log[i].wait.thread == t {
      if i < |b.log| { assert b.log[i] == c.log[i]; } else { assert IsOf(t, b, i - |b.log|, c.log[i]); }
    }
    SleepersGone(gone, c.log[|a.log|..]);
  }

  lemma LookedAgain(gone: set<nat>, a: seq<Done>, b: seq<Done>, c: seq<Done>)
    requires a <= b <= c && Looked(gone, |a|, b) && Looked(gone, |b|, c)
    ensures Looked(gone, |a|, c)
  {
    forall i | |a| <= i < |c| ensures Honest(gone, c[i]) {
      if i < |b| { assert c[i] == b[i]; }
    }
  }

  /** Between two states waits of thread t have ended as checking them said, and the clients were told. */
  ghost predicate Awoke<S>(kind: Kind<S>, gone: set<nat>, t: nat, a: State<S>, b: State<S>) {
    Moved(kind, gone, t, a, b) && Looked(gone, |a.log|, b.log) && Answered(gone, a, b)
  }

  lemma AwokeSame<S>(kind: Kind<S>, gone: set<nat>, t: nat, a: State<S>)
    requires t in a.threads
    ensures Awoke(kind, gone, t, a, a)
  {
    MovedSame(kind, gone, t, a);
    AnsweredSame(gone, a);
  }

  lemma AwokeAgain<S>(kind: Kind<S>, gone: set<nat>, t: nat, a: State<S>, b: State<S>, c: State<S>)
    requires Awoke(kind, gone, t, a, b) && Awoke(kind, gone, t, b, c)
    ensures Awoke(kind, gone, t, a, c) && a.log <= b.log <= c.log && a.replies <= b.replies <= c.replies
  {
    hide Moved, Looked, Answered, Popped, Onward;
    Grown(kind, gone, t, a, b);
    Grown(kind, gone, t, b, c);
    LookedAgain(gone, a.log, b.log, c.log);
    AnsweredAgain(gone, a, b, c);
    MovedAgain(kind, gone, t, a, b, c);
  }

  /** Between two states a wait of thread t has ended, its client has been told, and then waits below have ended
      as checking them said. */
  ghost predicate EndedWith<S>(kind: Kind<S>, gone: set<nat>, t: nat, a: State<S>, b: State<S>, d: Done,
                               told: seq<Reply>)
  {
    && Moved(kind, gone, t, a, b) && Answered(gone, a, b) && (t !in gone ==> a.replies + told <= b.replies)
    && |a.log| < |b.log| && b.log[|a.log|] == d && Looked(gone, |a.log| + 1, b.log)
  }

  lemma EndedThen<S>(kind: Kind<S>, gone: set<nat>, t: nat, a: State<S>, b: State<S>, c: State<S>, d: Done,
                     told: seq<Reply>)
    requires Moved(kind, gone, t, a, b) && b.log == a.log + [d] && Moved(kind, gone, t, b, c)
    requires Looked(gone, |b.log|, c.log) && Answered(gone, a, c) && (t !in gone ==> a.replies + told <= c.replies)
    ensures EndedWith(kind, gone, t, a, c, d, told) && c.waits.Keys <= b.waits.Keys
  {
    hide Moved, Looked, Answered, Popped, Onward;
    Grown(kind, gone, t, b, c);
    MovedAgain(kind, gone, t, a, b, c);
  }

  /** How many runs of records of the same thread there are in a list. */
  ghost function Runs(records: seq<Done>): (n: nat)
    ensures n <= |records|
  {
    if records == [] then 0
    else
      var last := |records| - 1;
      Runs(records[..last])
        + if 0 < last && records[last].wait.thread == records[last - 1].wait.thread then 0 else 1
  }

  /** A number of times a thread has been woken, and nothing else has happened. Threads that die of it are not
      counted. */
  ghost predicate Rounds<S>(kind: Kind<S>, gone: set<nat>, a: State<S>, b: State<S>, woken: nat) {
    && Onward(kind, gone, a, b) && Looked(gone, |a.log|, b.log) && Answered(gone, a, b)
    && woken <= Runs(b.log[|a.log|..]) <= |b.log| - |a.log|
    && (gone == {} ==> woken == Runs(b.log[|a.log|..]))
  }

  lemma RoundsNone<S>(kind: Kind<S>, gone: set<nat>, a: State<S>)
    ensures Rounds(kind, gone, a, a, 0)
  {
    OnwardSame(kind, gone, a);
    AnsweredSame(gone, a);
  }

  /** The records of one thread are one more run, if the last of those before is of another thread. */
  lemma {:induction false} RunsMore(first: seq<Done>, second: seq<Done>, t: nat)
    requires second != [] && (forall d :: d in second ==> d.wait.thread == t)
    requires first != [] ==> first[|first| - 1].wait.thread != t
    ensures Runs(first + second) == Runs(first) + 1
  {
    var n, both := |second| - 1, first + second;
    assert second[n] in second && both[..|first| + n] == first + second[..n];
    if 0 < n {
      assert second[n - 1] in second;
      RunsMore(first, second[..n], t);
    } else {
      assert first + second[..n] == first;
    }
  }

  lemma RoundsAgain<S>(kind: Kind<S>, gone: set<nat>, t: nat, a: State<S>, b: State<S>, c: State<S>, woken: nat,
                       more: nat)
    requires Rounds(kind, gone, a, b, woken) && Awoke(kind, gone, t, b, c) && |b.log| < |c.log|
    requires more <= 1 && (more == 0 ==> t in gone)
    requires |a.log| < |b.log| ==> b.log[|b.log| - 1].wait.thread != t
    ensures Rounds(kind, gone, a, c, woken + more) && a.log <= c.log
  {
    hide Moved, Looked, Answered, Onward, Runs;
    Grown(kind, gone, t, b, c);
    GrownLog(gone, a, b);
    OnwardAgain(kind, gone, a, b, c);
    LookedAgain(gone, a.log, b.log, c.log);
    AnsweredAgain(gone, a, b, c);
    assert c.log[|a.log|..] == b.log[|a.log|..] + c.log[|b.log|..];
    forall d | d in c.log[|b.log|..] ensures d.wait.thread == t {
      var i :| |b.log| <= i < |c.log| && c.log[i] == d;
      assert IsOf(t, b, i - |b.log|, c.log[i]);
    }
    RunsMore(b.log[|a.log|..], c.log[|b.log|..], t);
  }

  lemma GrownLog<S>(gone: set<nat>, a: State<S>, b: State<S>)
    requires Answered(gone, a, b)
    ensures a.log <= b.log
  {
  }

  lemma AwokeGives<S>(kind: Kind<S>, gone: set<nat>, t: nat, a: State<S>, b: State<S>)
    requires Awoke(kind, gone, t, a, b)
    ensures Moved(kind, gone, t, a, b) && Looked(gone, |a.log|, b.log) && Answered(gone, a, b)
    ensures a.log <= b.log && a.replies <= b.replies && b.waits.Keys <= a.waits.Keys && a.threads.Keys == b.threads.Keys
  {
    Grown(kind, gone, t, a, b);
  }

  /** The last wait to have ended is of that thread. */
  lemma LastAwoke<S>(kind: Kind<S>, gone: set<nat>, t: nat, a: State<S>, b: State<S>)
    requires Awoke(kind, gone, t, a, b)
    ensures a.log <= b.log && a.objs.Keys == b.objs.Keys
    ensures |a.log| < |b.log| ==> b.log[|b.log| - 1].wait.thread == t
  {
    Grown(kind, gone, t, a, b);
    if |a.log| < |b.log| { assert IsOf(t, a, |b.log| - 1 - |a.log|, b.log[|b.log| - 1]); }
  }

  lemma LookedDead<S>(gone: set<nat>, t: nat, a: State<S>, b: State<S>)
    requires t in gone && Popped(t, a, b) && AllEnded(a.log, b.log, Terminating)
    ensures Looked(gone, |a.log|, b.log)
  {
    assert forall i :: |a.log| <= i < |b.log| ==> IsOf(t, a, i - |a.log|, b.log[i]);
  }

  lemma SameQueuesAgree<S>(a: map<nat, Obj<S>>, b: map<nat, Obj<S>>, waits: map<nat, Wait>, others: map<nat, nat>,
                           w: nat, from: nat, to: nat)
    requires SameQueues(a, b) && Counted(a, others) && AgreeOn(a, waits, w, from, to)
    ensures Counted(b, others) && AgreeOn(b, waits, w, from, to)
  {
  }

  /** A thread's stack holds exactly its own waits, each once; a dead thread waits for nothing. */
  ghost predicate StacksHold(waits: map<nat, Wait>, threads: map<nat, Thread>) {
    && (forall t :: t in threads ==> Distinct(threads[t].stack) && (threads[t].terminated ==> threads[t].stack == []))
    && (forall t, w :: t in threads && w in threads[t].stack ==> w in waits && waits[w].thread == t)
    && (forall w :: w in waits ==> waits[w].thread in threads && w in threads[waits[w].thread].stack)
  }

  lemma StackPopped(waits: map<nat, Wait>, threads: map<nat, Thread>, t: nat)
    requires StacksHold(waits, threads) && t in threads && threads[t].stack != []
    ensures var stack := threads[t].stack;
            StacksHold(waits - {stack[0]}, threads[t := threads[t].(stack := stack[1..])])
  {
    var stack := threads[t].stack;
    DistinctRest(stack);
    hide Distinct;
    assert stack[0] in stack && waits[stack[0]].thread == t;
    var waits', threads' := waits - {stack[0]}, threads[t := threads[t].(stack := stack[1..])];
    forall t', w | t' in threads' && w in threads'[t'].stack ensures w in waits' && waits'[w].thread == t' {
      assert w in threads[t'].stack;
    }
    forall w | w in waits' ensures waits'[w].thread in threads' && w in threads'[waits'[w].thread].stack {
      assert w in threads[waits[w].thread].stack;
      if waits[w].thread == t { assert w in stack && w in stack[1..]; }
    }
  }

  lemma StackPushed(waits: map<nat, Wait>, threads: map<nat, Thread>, w: nat, wait: Wait)
    requires StacksHold(waits, threads) && w !in waits && wait.thread in threads && !threads[wait.thread].terminated
    ensures var th := threads[wait.thread];
            StacksHold(waits[w := wait], threads[wait.thread := th.(stack := [w] + th.stack)])
  {
    var th := threads[wait.thread];
    assert w !in th.stack && Distinct([w] + th.stack);
    hide Distinct;
    var waits', threads' := waits[w := wait], threads[wait.thread := th.(stack := [w] + th.stack)];
    forall t, v | t in threads' && v in threads'[t].stack ensures v in waits' && waits'[v].thread == t {
      assert v in threads[t].stack || v == w;
    }
    forall v | v in waits' ensures waits'[v].thread in threads' && v in threads'[waits'[v].thread].stack {
      assert v == w || v in threads[waits[v].thread].stack;
    }
  }

  class Server<S> {
    const kind: Kind<S>
    const maxSuspend: nat
    var objs: map<nat, Obj<S>>
    var waits: map<nat, Wait>
    var threads: map<nat, Thread>
    var suspendedProcesses: map<nat, nat>
    var now: int
    var broken: set<nat>       // threads whose pipe is gone: waking them fails
    var replies: seq<Reply>
    var nextWait: nat
    var nextApc: nat

    ghost var others: map<nat, nat>    // object references held by anyone but queue entries
    ghost var log: seq<Done>

    ghost predicate Valid()
      reads this
    {
      Waiting() && Stacked() && Alerted() && Logged()
    }

    ghost predicate Waiting()
      reads this`objs, this`waits, this`others, this`nextWait
    {
      && Counted(objs, others) && Agree(objs, waits)
      && forall w :: w in waits ==> w < nextWait
    }

    ghost predicate Stacked()
      reads this`waits, this`threads
    {
      StacksHold(waits, threads)
    }

    ghost predicate Alerted()
      reads this`threads, this`nextApc
    {
      forall t :: t in threads ==> Sound(threads[t], nextApc)
    }

    /** No suspended thread ever acquired anything; a wait found satisfied by checking it acquired
        all its objects when all were signaled, or the first that was. */
    ghost predicate Logged()
      reads this`log
    {
      forall i :: 0 <= i < |log| && Acquires(log[i].wait, log[i].outcome) ==> Proper(log[i])
    }

    ghost predicate Proper(d: Done)
      requires Acquires(d.wait, d.outcome)
    {
      && !d.suspended && |d.signaled| == |d.wait.objs|
      && (d.checked ==>
           if d.wait.all then forall i :: 0 <= i < |d.signaled| ==> d.signaled[i]
           else d.signaled[d.outcome.index] && forall i :: 0 <= i < d.outcome.index ==> !d.signaled[i])
    }

    predicate IsSuspended(t: nat)
      requires t in threads
      reads this`threads, this`suspendedProcesses
    {
      var th := threads[t];
      if th.context.Some? && th.context.value.cooperative then false
      else if th.suspend > 0 then true
      else !th.bypass && th.process in suspendedProcesses && suspendedProcesses[th.process] > 0
    }

    constructor (kind: Kind<S>, maxSuspend: nat)
      ensures Valid() && this.kind == kind
      ensures objs == map[] && waits == map[] && threads == map[] && log == []
    {
      this.kind, this.maxSuspend := kind, maxSuspend;
      objs, waits, threads, suspendedProcesses := map[], map[], map[], map[];
      now, broken, replies, nextWait, nextApc := 0, {}, [], 0, 0;
      others, log := map[], [];
    }

    // ---- the world around the waits -------------------------------------------------------------

    method AddObject(o: nat, state: S, refs: nat)
      requires Valid() && o !in objs
      modifies this`objs, this`others
      ensures Valid() && objs == old(objs)[o := Obj(state, [], refs)]
    {
      hide Stacked, Alerted, Logged;
      ghost var before := objs;
      objs := objs[o := Obj(state, [], refs)];
      others := others[o := refs];
      forall x, e ensures Queued(objs, x, e) <==> Awaits(waits, e, x) {
        assert Queued(objs, x, e) <==> Queued(before, x, e);
      }
    }

    /** An object's state changes for reasons of its own; its queue does not. */
    method SetState(o: nat, state: S)
      requires Valid() && o in objs
      modifies this`objs
      ensures Valid() && objs == old(objs)[o := old(objs[o]).(state := state)]
    {
      hide Stacked, Alerted, Logged;
      ghost var before := objs;
      objs := objs[o := objs[o].(state := state)];
      forall x, e ensures Queued(objs, x, e) <==> Awaits(waits, e, x) {
        assert Queued(objs, x, e) <==> Queued(before, x, e);
      }
    }

    method AddThread(t: nat, process: nat, bypass: bool, hasAlert: bool)
      requires Valid() && t !in threads
      modifies this`threads
      ensures Valid()
      ensures threads == old(threads)[t := Thread(process, [], 0, bypass, None, 0, [], [], hasAlert, false, false)]
    {
      hide Waiting, Logged, Distinct, InOrder;
      threads := threads[t := Thread(process, [], 0, bypass, None, 0, [], [], hasAlert, false, false)];
      assert Distinct(threads[t].stack) && Sound(threads[t], nextApc) by { Fresh(threads[t], nextApc); }
    }

    lemma Fresh(th: Thread, limit: nat)
      requires th.stack == [] && th.system == [] && th.user == [] && !th.alert
      ensures Distinct(th.stack) && Sound(th, limit)
    {
    }

    // ---- ending a wait -----------------------------------------------------------------------

    /** Tells the objects of a wait that it has acquired them. */
    method TakeObjects(wait: Wait, outcome: Outcome) returns (abandoned: bool)
      requires forall o :: o in wait.objs ==> o in objs
      modifies this`objs
      ensures objs == Taken(kind, old(objs), wait, outcome) && abandoned == Abandoned(kind, old(objs), wait, outcome)
    {
      abandoned := false;
      if !(outcome.Object? && outcome.index < |wait.objs|) { return; }
      if wait.all {
        ghost var before := objs;
        for i := 0 to |wait.objs|
          invariant objs == AcquireAll(kind, before, wait.objs[..i], wait.thread)
          invariant abandoned == AnyAbandoned(kind, before, wait.objs[..i], wait.thread)
        {
          var o := wait.objs[i];
          assert o in wait.objs && wait.objs[..i + 1][..i] == wait.objs[..i];
          var r := kind.satisfied(objs[o].state, wait.thread);
          objs := objs[o := objs[o].(state := r.0)];
          abandoned := abandoned || r.1;
        }
        assert wait.objs[..|wait.objs|] == wait.objs;
      } else {
        var o := wait.objs[outcome.index];
        var r := kind.satisfied(objs[o].state, wait.thread);
        objs := objs[o := objs[o].(state := r.0)];
        abandoned := r.1;
      }
    }

    /** The innermost wait of a thread. */
    ghost function Innermost(t: nat): (wait: Wait)
      requires Valid() && t in threads && threads[t].stack != []
      reads this
      ensures threads[t].stack[0] in waits && wait == waits[threads[t].stack[0]] && wait.thread == t
      ensures forall o :: o in wait.objs ==> o in objs
    {
      var w := threads[t].stack[0];
      assert w in threads[t].stack;
      assert forall i :: 0 <= i < |waits[w].objs| ==> waits[w].objs[i] in objs;
      waits[w]
    }

    /** The record of the end of thread t's innermost wait. */
    ghost function Record(t: nat, outcome: Outcome, checked: bool): Done
      requires Valid() && t in threads && threads[t].stack != []
      reads this
    {
      var wait, objs := Innermost(t), objs;
      Done(wait, outcome, checked, Check(t), IsSuspended(t),
           seq(|wait.objs|, i requires 0 <= i < |wait.objs| => kind.signaled(objs[wait.objs[i]].state, t)))
    }

    /** Finishes the innermost wait of thread t. */
    method EndWait(t: nat, outcome: Outcome, ghost checked: bool) returns (abandoned: bool)
      requires Valid() && t in threads && threads[t].stack != []
      requires Acquires(Innermost(t), outcome) ==> Proper(Record(t, outcome, checked))
      modifies this`objs, this`waits, this`threads, this`log
      ensures Valid()
      ensures objs == Strip(Taken(kind, old(objs), old(Innermost(t)), outcome), old(threads[t].stack[0]))
      ensures waits == old(waits) - {old(threads[t].stack[0])}
      ensures threads == old(threads)[t := old(threads[t]).(stack := old(threads[t].stack)[1..])]
      ensures log == old(log) + [old(Record(t, outcome, checked))]
      ensures abandoned == Abandoned(kind, old(objs), old(Innermost(t)), outcome)
    {
      hide Counted, Agree, Proper, Stacked, Alerted, Logged, Abandoned, Strip, Taken, Innermost, Record;
      ghost var wait := Innermost(t);
      RecordIs(t, outcome, checked);
      AddLog(Record(t, outcome, checked));
      abandoned := Release(threads[t].stack[0], outcome);
      DropWait(t);
    }

    lemma RecordIs(t: nat, outcome: Outcome, checked: bool)
      requires Valid() && t in threads && threads[t].stack != []
      ensures var d := Record(t, outcome, checked); d.wait == Innermost(t) && d.outcome == outcome
    {
    }

    ghost method AddLog(d: Done)
      requires Logged() && (Acquires(d.wait, d.outcome) ==> Proper(d))
      modifies this`log
      ensures Logged() && log == old(log) + [d]
    {
      log := log + [d];
    }

    /** The objects' side of the end of a wait. */
    method Release(w: nat, outcome: Outcome) returns (abandoned: bool)
      requires Counted(objs, others) && Agree(objs, waits) && w in waits
      requires forall o :: o in waits[w].objs ==> o in objs
      modifies this`objs
      ensures Counted(objs, others) && Agree(objs, waits - {w})
      ensures objs == Strip(Taken(kind, old(objs), waits[w], outcome), w)
      ensures abandoned == Abandoned(kind, old(objs), waits[w], outcome)
    {
      var wait := waits[w];
      AgreeOnWhole(objs, waits, w);
      SameQueuesAgree(objs, Taken(kind, objs, wait, outcome), waits, others, w, 0, |wait.objs|);
      abandoned := TakeObjects(wait, outcome);
      assert waits[w := wait] == waits;
      Dequeue(w, wait, |wait.objs|);
    }

    /** The thread's side of the end of a wait. */
    method DropWait(t: nat)
      requires Stacked() && Alerted() && t in threads && threads[t].stack != []
      modifies this`waits, this`threads
      ensures Stacked() && Alerted()
      ensures waits == old(waits) - {old(threads[t].stack[0])}
      ensures threads == old(threads)[t := old(threads[t]).(stack := old(threads[t].stack)[1..])]
    {
      hide Alerted, StacksHold;
      StackPopped(waits, threads, t);
      waits := waits - {threads[t].stack[0]};
      threads := threads[t := threads[t].(stack := threads[t].stack[1..])];
      StillAlerted(t);
    }

    /** Whether a thread is alerted does not depend on its waits. */
    twostate lemma StillAlerted(t: nat)
      requires old(Alerted()) && nextApc == old(nextApc) && t in old(threads) && t in threads
      requires threads == old(threads)[t := old(threads[t]).(stack := threads[t].stack)]
      ensures Alerted()
    {
      hide InOrder;
    }

    // ---- starting a wait ---------------------------------------------------------------------

    /** Puts a new wait on top of a thread's stack and queues it on its objects. When an object
        refuses, everything is as it was. */
    method WaitOn(wait: Wait, refuses: Option<nat>) returns (ok: bool)
      requires Valid() && wait.thread in threads && !threads[wait.thread].terminated
      requires forall i :: 0 <= i < |wait.objs| ==> wait.objs[i] in objs
      modifies this`objs, this`waits, this`threads, this`nextWait
      ensures Valid()
      ensures ok == !(refuses.Some? && refuses.value < |wait.objs|) && old(nextWait) !in old(waits)
      ensures !ok ==> objs == old(objs) && waits == old(waits) && threads == old(threads)
      ensures ok ==>
                && waits == old(waits)[old(nextWait) := wait] && Strip(objs, old(nextWait)) == old(objs)
                && Appended(old(objs), objs, old(nextWait), |wait.objs|)
                && var th := old(threads[wait.thread]);
                   threads == old(threads)[wait.thread := th.(stack := [old(nextWait)] + th.stack)]
    {
      hide Counted, Agree, AgreeOn, Appended, Stacked, Alerted, Logged;
      var w := nextWait;
      nextWait := nextWait + 1;
      StripNone(objs, waits, others, w);
      AgreeNew(objs, waits, w, wait);
      ok := Enqueue(w, wait, refuses);
      if ok { PushWait(w, wait); }
    }

    /** The objects' side of the start of a wait. */
    method Enqueue(w: nat, wait: Wait, refuses: Option<nat>) returns (ok: bool)
      requires Counted(objs, others) && Agree(objs, waits) && w !in waits
      requires AgreeOn(objs, waits[w := wait], w, 0, 0) && Strip(objs, w) == objs
      modifies this`objs
      ensures Counted(objs, others) && Strip(objs, w) == old(objs)
      ensures ok == !(refuses.Some? && refuses.value < |wait.objs|)
      ensures if ok then Agree(objs, waits[w := wait]) && Appended(old(objs), objs, w, |wait.objs|)
              else objs == old(objs)
    {
      hide Counted, Agree, AgreeOn, Strip, Push, Appended;
      CountedFits(objs, others);
      AppendedNone(objs, w);
      ghost var longer := waits[w := wait];
      for i := 0 to |wait.objs|
        invariant Counted(objs, others) && forall o :: o in objs ==> |objs[o].queue| <= objs[o].refs
        invariant AgreeOn(objs, longer, w, 0, i) && Strip(objs, w) == old(objs) && Appended(old(objs), objs, w, i)
        invariant refuses.Some? ==> i <= refuses.value
      {
        var o := wait.objs[i];
        if refuses == Some(i) {
          Dequeue(w, wait, i);
          return false;
        }
        AgreePush(objs, longer, w, i);
        CountedPush(objs, others, o, Entry(w, i));
        CountedFits(Push(objs, o, Entry(w, i)), others);
        AppendedPush(old(objs), objs, o, w, i);
        objs := Push(objs, o, Entry(w, i));
      }
      AgreeOnWhole(objs, longer, w);
      return true;
    }

    /** Takes the first n entries of a wait that did not come about off their queues. */
    method Dequeue(w: nat, wait: Wait, n: nat)
      requires Counted(objs, others) && AgreeOn(objs, waits[w := wait], w, 0, n) && n <= |wait.objs|
      modifies this`objs
      ensures Counted(objs, others) && objs == Strip(old(objs), w) && Agree(objs, waits - {w})
    {
      ghost var longer := waits[w := wait];
      for i := 0 to n
        invariant Counted(objs, others) && AgreeOn(objs, longer, w, i, n)
        invariant Strip(objs, w) == Strip(old(objs), w)
      {
        AgreePull(objs, longer, w, i, n);
        CountedPull(objs, others, wait.objs[i], Entry(w, i));
        AgreePull(objs, longer, w, i, n);
        objs := Pull(objs, wait.objs[i], Entry(w, i));
      }
      AgreeEnd(objs, longer, others, w, n);
      assert longer - {w} == waits - {w};
    }

    /** The thread's side of the start of a wait. */
    method PushWait(w: nat, wait: Wait)
      requires Stacked() && Alerted() && w !in waits && wait.thread in threads && !threads[wait.thread].terminated
      modifies this`waits, this`threads
      ensures Stacked() && Alerted() && waits == old(waits)[w := wait]
      ensures var th := old(threads[wait.thread]);
              threads == old(threads)[wait.thread := th.(stack := [w] + th.stack)]
    {
      hide Alerted, StacksHold;
      StackPushed(waits, threads, w, wait);
      var th := threads[wait.thread];
      waits := waits[w := wait];
      threads := threads[wait.thread := th.(stack := [w] + th.stack)];
      StillAlerted(wait.thread);
    }

    // ---- checking and waking -----------------------------------------------------------------

    /** What a look at the innermost wait of a thread finds. */
    ghost function Check(t: nat): Outcome
      requires Valid() && t in threads && threads[t].stack != []
      reads this
    {
      Look(kind, objs, Innermost(t), threads[t], IsSuspended(t), now)
    }

    /** A wait that a check finds satisfied is acquired properly. */
    lemma CheckProper(t: nat)
      requires Valid() && t in threads && threads[t].stack != []
      ensures Acquires(Innermost(t), Check(t)) ==> Proper(Record(t, Check(t), true))
    {
    }

    /** Looks at the innermost wait; a cooperative suspension is noted in the context. */
    method CheckWait(t: nat) returns (outcome: Outcome)
      requires Valid() && t in threads && threads[t].stack != []
      modifies this`threads
      ensures Valid() && outcome == old(Check(t)) && threads == old(threads)[t := Noted(old(threads[t]), outcome)]
      ensures if outcome.WasSuspended? then
                && old(threads[t]).context.Some?
                && var context := old(threads[t]).context.value.(cooperative := true);
                   threads == old(threads)[t := old(threads[t]).(context := Some(context))]
              else
                threads == old(threads)
    {
      hide Waiting, Stacked, Alerted, Logged;
      ghost var top := Innermost(t);
      var th, wait := threads[t], waits[threads[t].stack[0]];
      if wait.interruptible && th.system != [] { return KernelApc; }
      if wait.cooperative && th.context.Some? {
        SetContext(t, Some(th.context.value.(cooperative := true)));
        return WasSuspended;
      }
      if IsSuspended(t) { return Pending; }
      if wait.all {
        var notOk := false;
        for i := 0 to |wait.objs|
          invariant !notOk <==> forall k :: 0 <= k < i ==> kind.signaled(objs[wait.objs[k]].state, t)
        {
          assert wait.objs[i] in wait.objs;
          notOk := notOk || !kind.signaled(objs[wait.objs[i]].state, t);
        }
        if !notOk { return Object(0); }
      } else {
        for i := 0 to |wait.objs|
          invariant FirstSignaled(kind, objs, wait.objs, t, 0) == FirstSignaled(kind, objs, wait.objs, t, i)
        {
          assert wait.objs[i] in wait.objs;
          if kind.signaled(objs[wait.objs[i]].state, t) { return Object(i); }
        }
      }
      if wait.alertable && th.user != [] { return UserApc; }
      if wait.when.Some? && wait.when.value <= now { return TimedOut; }
      return Pending;
    }

    method SetContext(t: nat, context: Option<Context>)
      requires t in threads && Stacked() && Alerted()
      modifies this`threads
      ensures Stacked() && Alerted() && threads == old(threads)[t := old(threads[t]).(context := context)]
    {
      hide Distinct, InOrder;
      threads := threads[t := threads[t].(context := context)];
    }

    /** All that ends of waits can change. */
    ghost function Snapshot(): State<S>
      reads this`objs, this`waits, this`threads, this`log, this`replies
    {
      State(objs, waits, threads, log, replies)
    }

    /** Nothing has happened but that waits of thread t have ended. */
    twostate predicate Local(t: nat)
      reads this
    {
      Moved(kind, broken, t, old(Snapshot()), Snapshot())
    }

    /** Ends the innermost wait of a thread. */
    method Finish(t: nat, outcome: Outcome, ghost checked: bool) returns (abandoned: bool)
      requires Valid() && t in threads && threads[t].stack != []
      requires Acquires(Innermost(t), outcome) ==> Proper(Record(t, outcome, checked))
      modifies this`objs, this`waits, this`threads, this`log
      ensures Valid() && Local(t) && waits.Keys < old(waits.Keys) && old(threads[t].stack[0]) !in waits
      ensures t in threads && threads[t] == old(threads[t]).(stack := old(threads[t].stack)[1..])
      ensures log == old(log) + [old(Record(t, outcome, checked))] && replies == old(replies)
      ensures abandoned == Abandoned(kind, old(objs), old(Innermost(t)), outcome)
      ensures !outcome.Object? ==> SameStates(old(objs), objs)
    {
      hide Waiting, Stacked, Alerted, Logged, Moved, Proper, Innermost, Record, Strip, Taken, SameStates, Abandoned,
           Has;
      NothingTaken(t, outcome);
      RecordIs(t, outcome, checked);
      ghost var a, w, d := Snapshot(), threads[t].stack[0], Record(t, outcome, checked);
      abandoned := EndWait(t, outcome, checked);
      assert w in a.waits.Keys && w !in waits.Keys;
      EndedMoves(kind, broken, t, a, Snapshot(), d);
    }

    lemma NothingTaken(t: nat, outcome: Outcome)
      requires Valid() && t in threads && threads[t].stack != []
      ensures Has(objs, Innermost(t)) && forall o :: o in objs ==> |objs[o].queue| <= objs[o].refs
      ensures var taken := Taken(kind, objs, Innermost(t), outcome);
              && taken.Keys == objs.Keys && SameStates(taken, Strip(taken, threads[t].stack[0]))
              && (!outcome.Object? ==> SameStates(objs, Strip(taken, threads[t].stack[0])))
    {
      hide Stacked, Alerted, Logged, Agree;
      var taken := Taken(kind, objs, Innermost(t), outcome);
      StripStates(taken, threads[t].stack[0]);
    }

    /** A thread whose pipe is gone dies: all its waits end, and no object is taken. */
    method Kill(t: nat)
      requires Valid() && t in threads
      modifies this`objs, this`waits, this`threads, this`log
      ensures Valid() && Moved(kind, broken + {t}, t, old(Snapshot()), Snapshot())
      ensures t in threads && threads[t].terminated && threads[t].stack == []
      ensures SameStates(old(objs), objs) && AllEnded(old(log), log, Terminating)
    {
      hide Waiting, Stacked, Logged, Alerted, Sound, SameStates, AllEnded, Moved, SameCalls;
      ghost var past := Snapshot();
      if threads[t].terminated {
        DeadHasNone(t);
        MovedSame(kind, broken + {t}, t, past);
        EndedSame(objs, log);
        return;
      }
      EndAll(t);
      ghost var a := Snapshot();
      Bury(t);
      BuriedCalls(a.threads[t]);
      MovedOne(kind, broken + {t}, t, a, Snapshot());
      MovedWider(kind, broken, t, past, a);
      MovedAgain(kind, broken + {t}, t, past, a, Snapshot());
    }

    lemma EndedSame(objs: map<nat, Obj<S>>, log: seq<Done>)
      ensures SameStates(objs, objs) && AllEnded(log, log, Terminating)
    {
    }

    lemma BuriedCalls(th: Thread)
      ensures SameCalls(th, th.(terminated := true, context := None, system := [], user := []))
    {
    }

    lemma DeadHasNone(t: nat)
      requires t in threads && Stacked() && threads[t].terminated
      ensures threads[t].stack == []
    {
    }

    /** Since some earlier state only waits of thread t have ended, all as it is terminating. */
    ghost predicate Ending(t: nat, past: State<S>)
      reads this
    {
      && Moved(kind, broken, t, past, Snapshot()) && t in threads && !threads[t].terminated
      && SameStates(past.objs, objs) && AllEnded(past.log, log, Terminating)
    }

    /** Ends all waits of a thread that is terminating. */
    method EndAll(t: nat)
      requires Valid() && t in threads && !threads[t].terminated
      modifies this`objs, this`waits, this`threads, this`log
      ensures Valid() && t in threads && threads[t].stack == [] && Ending(t, old(Snapshot()))
    {
      ghost var past := Snapshot();
      MovedSame(kind, broken, t, past);
      assert Ending(t, past);
      hide *;
      while threads[t].stack != []
        invariant Valid() && t in threads && Ending(t, past)
        decreases |threads[t].stack|
      {
        EndOne(t, past);
      }
    }

    method EndOne(t: nat, ghost past: State<S>)
      requires Valid() && t in threads && threads[t].stack != [] && Ending(t, past)
      modifies this`objs, this`waits, this`threads, this`log
      ensures Valid() && t in threads && |threads[t].stack| < |old(threads[t].stack)| && Ending(t, past)
    {
      hide Waiting, Stacked, Logged, Moved, Alerted, SameStates, Innermost;
      ghost var a := Snapshot();
      RecordIs(t, Terminating, false);
      hide Record;
      var abandoned := Finish(t, Terminating, false);
      MovedAgain(kind, broken, t, past, a, Snapshot());
      SameStatesAgain(past.objs, a.objs, objs);
    }

    lemma BuriedSound(th: Thread, limit: nat)
      requires Sound(th, limit)
      ensures Sound(th.(terminated := true, context := None, system := [], user := []), limit)
    {
    }

    method Bury(t: nat)
      requires t in threads && threads[t].stack == [] && Stacked() && Alerted()
      modifies this`threads
      ensures Stacked() && Alerted()
      ensures threads == old(threads)[t :=
              old(threads[t]).(terminated := true, context := None, system := [], user := [])]
    {
      hide Distinct;
      BuriedSound(threads[t], nextApc);
      hide Sound;
      threads := threads[t := threads[t].(terminated := true, context := None, system := [], user := [])];
    }

    /** The end of the wait a thread was suspended in takes its context away, unless that has changed:
        then the thread is told to come and get it. */
    method EndSuspension(t: nat, cookie: nat, outcome: Outcome) returns (sent: Outcome)
      requires t in threads && Stacked() && Alerted()
      modifies this`threads
      ensures Stacked() && Alerted() && sent == Sent(old(threads[t]), cookie, outcome)
      ensures threads == old(threads)[t := Resumed(old(threads[t]), cookie, outcome)]
    {
      hide Stacked, Alerted;
      sent := outcome;
      if EndsSuspension(threads[t], cookie, outcome) {
        if !threads[t].context.value.dirty { SetContext(t, None); } else { sent := KernelApc; }
      }
    }

    /** Sends the outcome of a wait to the client; a client that has gone is killed. */
    method SendWakeup(t: nat, cookie: nat, outcome: Outcome, abandoned: bool) returns (ok: bool)
      requires Valid() && t in threads
      modifies this`objs, this`waits, this`threads, this`log, this`replies
      ensures Valid() && Local(t) && ok == (t !in broken)
      ensures ok ==>
                && objs == old(objs) && waits == old(waits) && log == old(log)
                && threads == old(threads)[t := Resumed(old(threads[t]), cookie, outcome)]
                && replies == old(replies) + [Reply(t, cookie, Sent(old(threads[t]), cookie, outcome), abandoned)]
      ensures ok ==>
                var th := old(threads[t]);
                var ends := th.context.Some? && th.suspendCookie == cookie
                            && outcome != KernelApc && outcome != UserApc;
                var fake := ends && th.context.value.dirty;
                && threads == (if ends && !fake then old(threads)[t := th.(context := None)] else old(threads))
                && replies == old(replies) + [Reply(t, cookie, if fake then KernelApc else outcome, abandoned)]
      ensures !ok ==> t in threads && threads[t].terminated && threads[t].stack == [] && replies == old(replies)
                      && AllEnded(old(log), log, Terminating)
    {
      hide Waiting, Stacked, Alerted, Logged, Moved, Sent, Resumed, AllEnded;
      ghost var past := Snapshot();
      var sent := EndSuspension(t, cookie, outcome);
      ghost var a := Snapshot();
      ResumedCalls(past.threads[t], cookie, outcome);
      SuspensionEnds(past.threads[t], cookie, outcome);
      assert past.threads[t := past.threads[t]] == past.threads;
      MovedOne(kind, broken, t, past, a);
      if t in broken {
        assert broken + {t} == broken;
        Kill(t);
        MovedAgain(kind, broken, t, past, a, Snapshot());
        return false;
      }
      replies := replies + [Reply(t, cookie, sent, abandoned)];
      MovedTold(kind, broken, t, past, a, Snapshot());
      return true;
    }

    lemma ResumedCalls(th: Thread, cookie: nat, outcome: Outcome)
      ensures SameCalls(th, Resumed(th, cookie, outcome)) && Resumed(th, cookie, outcome).stack == th.stack
      ensures Resumed(th, cookie, outcome).terminated == th.terminated
    {
    }

    lemma SuspensionEnds(th: Thread, cookie: nat, outcome: Outcome)
      ensures var ends := th.context.Some? && th.suspendCookie == cookie && outcome != KernelApc && outcome != UserApc;
              var fake := ends && th.context.value.dirty;
              && Resumed(th, cookie, outcome) == (if ends && !fake then th.(context := None) else th)
              && Sent(th, cookie, outcome) == if fake then KernelApc else outcome
    {
    }

    /** Tells a client that sleeps on a wait, if it does. The wait was the last to end since an earlier state. */
    method TellSleeper(t: nat, cookie: nat, outcome: Outcome, abandoned: bool, ghost past: State<S>)
      returns (ok: bool)
      requires Valid() && t in threads && JustEnded(t, cookie, past)
      modifies this`objs, this`waits, this`threads, this`log, this`replies
      ensures Valid() && Local(t) && t in threads && ok == (cookie == 0 || t !in broken)
      ensures if ok then
                objs == old(objs) && waits == old(waits) && log == old(log)
                  && replies == old(replies) + Told(old(threads[t]), t, cookie, outcome, abandoned)
              else
                threads[t].terminated && threads[t].stack == [] && AllEnded(old(log), log, Terminating)
      ensures Answered(broken, past, Snapshot())
    {
      hide Waiting, Stacked, Alerted, Logged, Moved, Sent, Resumed, Answered, AllEnded, Popped, Onward;
      ghost var a := Snapshot();
      MovedSame(kind, broken, t, a);
      ok := true;
      if cookie != 0 { ok := SendWakeup(t, cookie, outcome, abandoned); }
      if ok {
        AnsweredOne(broken, past, Snapshot(), log[|past.log|]);
      } else {
        Grown(kind, broken, t, a, Snapshot());
        AnsweredDead(broken, t, past, a, Snapshot());
      }
    }

    /** One wait of a thread has ended since an earlier state, and its client has not been told. */
    ghost predicate JustEnded(t: nat, cookie: nat, past: State<S>)
      reads this`log, this`replies
    {
      && past.replies == replies && |log| == |past.log| + 1 && past.log <= log
      && log[|past.log|].wait.thread == t && log[|past.log|].wait.cookie == cookie
    }

    /** A thread has nothing to wake up for. */
    ghost predicate Settled(t: nat)
      requires Valid() && t in threads
      reads this
    {
      threads[t].stack == [] || Check(t) == Pending
    }

    /** Ends the innermost wait of a thread if checking it says to. */
    method EndIfDone(t: nat) returns (outcome: Outcome, cookie: nat, abandoned: bool)
      requires Valid() && t in threads && threads[t].stack != []
      modifies this`objs, this`waits, this`threads, this`log
      ensures Valid() && Local(t) && t in threads
      ensures outcome == old(Check(t)) && cookie == old(Innermost(t)).cookie && replies == old(replies)
      ensures outcome == Pending ==>
                objs == old(objs) && waits == old(waits) && threads == old(threads) && log == old(log)
      ensures outcome != Pending ==>
                && waits.Keys < old(waits.Keys) && |log| == |old(log)| + 1 && old(log) <= log
                && Tells(log[|old(log)|], old(Innermost(t)), outcome)
                && threads[t] == Noted(old(threads[t]), outcome).(stack := old(threads[t].stack)[1..])
                && abandoned == Abandoned(kind, old(objs), old(Innermost(t)), outcome)
    {
      hide Waiting, Stacked, Alerted, Logged, Proper, Moved, Abandoned, IsSuspended, Check, Innermost;
      CheckProper(t);
      abandoned, cookie := false, waits[threads[t].stack[0]].cookie;
      ghost var past := Snapshot();
      outcome := CheckWait(t);
      assert !outcome.WasSuspended? ==> threads == old(threads);
      SameTop(t);
      ghost var a := Snapshot();
      NotedCalls(past.threads[t], outcome);
      MovedOne(kind, broken, t, past, a);
      if outcome != Pending {
        StillFound(t);
        RecordTells(t, outcome);
        hide Record;
        abandoned := Finish(t, outcome, true);
        MovedAgain(kind, broken, t, past, a, Snapshot());
      }
    }

    lemma NotedCalls(th: Thread, outcome: Outcome)
      ensures SameCalls(th, Noted(th, outcome)) && Noted(th, outcome).stack == th.stack
      ensures Noted(th, outcome).terminated == th.terminated
    {
    }

    lemma RecordTells(t: nat, outcome: Outcome)
      requires Valid() && t in threads && threads[t].stack != [] && outcome == Check(t)
      ensures Tells(Record(t, outcome, true), Innermost(t), outcome)
    {
    }

    twostate lemma SameTop(t: nat)
      requires old(Valid()) && Valid() && t in old(threads) && t in threads && waits == old(waits)
      requires threads[t].stack == old(threads[t].stack) != []
      ensures Innermost(t) == old(Innermost(t))
    {
    }

    /** A wait found to end with a cooperative suspension is found so again after that has been noted. */
    twostate lemma StillFound(t: nat)
      requires old(Valid()) && Valid() && t in old(threads) && t in threads && old(threads[t].stack) != []
      requires objs == old(objs) && waits == old(waits) && now == old(now)
      requires suspendedProcesses == old(suspendedProcesses)
      requires threads == old(threads)[t := Noted(old(threads[t]), old(Check(t)))]
      ensures threads[t].stack == old(threads[t].stack) && Check(t) == old(Check(t))
    {
      hide Valid, FirstSignaled, AllSignaled;
      assert Innermost(t) == old(Innermost(t));
      if !old(Check(t)).WasSuspended? { assert threads == old(threads); }
    }

    /** Waits of thread t have ended as checking them said, and their clients were told. */
    twostate predicate Woken(t: nat)
      reads this
    {
      Awoke(kind, broken, t, old(Snapshot()), Snapshot())
    }

    /** The same, and tells the client when it sleeps. */
    method WakeOnce(t: nat) returns (woken: bool, ok: bool)
      requires Valid() && t in threads && threads[t].stack != []
      modifies this`objs, this`waits, this`threads, this`log, this`replies
      ensures Valid() && Woken(t) && t in threads && woken == (old(Check(t)) != Pending)
      ensures !woken ==> Snapshot() == old(Snapshot())
      ensures woken ==> waits.Keys < old(waits.Keys)
      ensures ok == (!woken || old(Innermost(t)).cookie == 0 || t !in broken)
      ensures !ok ==> threads[t].terminated && threads[t].stack == []
      ensures woken ==> |old(log)| < |log| && Tells(log[|old(log)|], old(Innermost(t)), old(Check(t)))
      ensures woken && ok ==>
                && |log| == |old(log)| + 1
                && replies == old(replies) + Told(old(threads[t]), t, old(Innermost(t)).cookie, old(Check(t)),
                                                  Abandoned(kind, old(objs), old(Innermost(t)), old(Check(t))))
    {
      hide Waiting, Stacked, Alerted, Logged, Moved, Abandoned, Told, Noted, Check, Innermost, Answered, AllEnded,
           Popped, Onward;
      ghost var past := Snapshot();
      var outcome, cookie, abandoned := EndIfDone(t);
      if outcome == Pending {
        AwokeSame(kind, broken, t, past);
        return false, true;
      }
      ToldSame(past.threads[t], threads[t].stack, t, cookie, outcome, abandoned);
      ghost var a := Snapshot();
      Grown(kind, broken, t, past, a);
      ok := TellSleeper(t, cookie, outcome, abandoned, past);
      Grown(kind, broken, t, a, Snapshot());
      LookedAgain(broken, past.log, a.log, log) by {
        if !ok { LookedDead(broken, t, a, Snapshot()); }
      }
      MovedAgain(kind, broken, t, past, a, Snapshot());
      woken := true;
    }

    /** Ends the waits of a thread for as long as checking the innermost says to. */
    method WakeThread(t: nat) returns (count: int)
      requires Valid() && t in threads
      modifies this`objs, this`waits, this`threads, this`log, this`replies
      ensures Valid() && Woken(t) && t in threads && (threads[t].stack == [] || Check(t) == Pending)
      ensures count == 0 ==> Snapshot() == old(Snapshot())
      ensures count != 0 ==>
                && waits.Keys < old(waits.Keys) && old(threads[t].stack) != [] && |old(log)| < |log|
                && Tells(log[|old(log)|], old(Innermost(t)), old(Check(t)))
      ensures count == 0 <==> old(Settled(t))
      ensures count < 0 ==> count == -1 && t in broken
      ensures count <= |log| - |old(log)| && (t !in broken ==> count == |log| - |old(log)|)
    {
      hide Waiting, Stacked, Alerted, Logged, Check, Innermost, Awoke, Tells;
      count := 0;
      ghost var past := Snapshot();
      AwokeSame(kind, broken, t, past);
      while threads[t].stack != []
        invariant Valid() && t in threads && Awoke(kind, broken, t, past, Snapshot()) && count >= 0
        invariant count == |log| - |past.log|
        invariant count == 0 ==> Snapshot() == past
        invariant count != 0 ==>
                    && waits.Keys < old(waits.Keys) && old(threads[t].stack) != [] && |past.log| < |log|
                    && Tells(log[|past.log|], old(Innermost(t)), old(Check(t))) && !old(Settled(t))
        decreases waits.Keys
      {
        ghost var a := Snapshot();
        var woken, ok := WakeOnce(t);
        AwokeAgain(kind, broken, t, past, a, Snapshot());
        if !woken { break; }
        if !ok {
          if count == 0 { count := -1; }
          break;
        }
        count := count + 1;
      }
    }

    /** What the client is told when a wait ends with an outcome. */
    ghost function ToldAtEnd(w: nat, outcome: Outcome): seq<Reply>
      requires Waiting() && Stacked() && w in waits
      reads this
    {
      var t := waits[w].thread;
      assert forall i :: 0 <= i < |waits[w].objs| ==> waits[w].objs[i] in objs;
      Told(threads[t], t, waits[w].cookie, outcome, Abandoned(kind, objs, waits[w], outcome))
    }

    /** A wait of a thread has ended in a given way, its client has been told, and those of the waits below
        that had to end have. */
    twostate predicate EndedAs(t: nat, d: Done, told: seq<Reply>)
      requires Valid()
      reads this
    {
      EndedWith(kind, broken, t, old(Snapshot()), Snapshot(), d, told) && t in threads && Settled(t)
    }

    /** An object that has become signaled for one entry of its queue ends that wait with it, unless
        the wait is not the innermost or its thread is suspended. */
    method WakeQueueEntry(e: Entry) returns (woken: bool)
      requires Valid() && e.wait in waits && e.index < |waits[e.wait].objs| && (Takes(e.wait) ==> !waits[e.wait].all)
      modifies this`objs, this`waits, this`threads, this`log, this`replies
      ensures Valid() && woken == old(Takes(e.wait))
      ensures !woken ==> Snapshot() == old(Snapshot())
      ensures woken ==> e.wait !in waits
      ensures woken ==> var t := old(waits)[e.wait].thread;
                        EndedAs(t, old(Record(t, Object(e.index), false)), old(ToldAtEnd(e.wait, Object(e.index))))
    {
      hide Waiting, Stacked, Alerted, Logged, Moved, Check, Innermost, Record, Told, Abandoned, Looked, Answered;
      Owner(e.wait);
      if !Takes(e.wait) { return false; }
      var t := waits[e.wait].thread;
      TakesProperly(e);
      EndWith(t, Object(e.index));
      return true;
    }

    /** Ends the innermost wait of a thread without checking it, tells the client, if it sleeps, and looks at
        the waits below. */
    method EndWith(t: nat, outcome: Outcome)
      requires Valid() && t in threads && threads[t].stack != [] && threads[t].stack[0] in waits
      requires outcome.Object? || outcome.TimedOut?
      requires Acquires(Innermost(t), outcome) ==> Proper(Record(t, outcome, false))
      modifies this`objs, this`waits, this`threads, this`log, this`replies
      ensures Valid() && old(threads[t].stack[0]) !in waits
      ensures EndedAs(t, old(Record(t, outcome, false)), old(ToldAtEnd(threads[t].stack[0], outcome)))
    {
      hide Waiting, Stacked, Alerted, Logged, Moved, Check, Told, Abandoned, Looked, Answered, Settled, EndedWith;
      ghost var past, d, told := Snapshot(), Record(t, outcome, false), ToldAtEnd(threads[t].stack[0], outcome);
      var cookie := waits[threads[t].stack[0]].cookie;
      hide Record, ToldAtEnd;
      var abandoned := Finish(t, outcome, false);
      ghost var a := Snapshot();
      ToldSame(past.threads[t], threads[t].stack, t, cookie, outcome, abandoned);
      TellAndWake(t, cookie, outcome, abandoned, past);
      EndedThen(kind, broken, t, past, a, Snapshot(), d, told);
    }

    /** After a wait has ended: tells the client, if it sleeps, and looks at the waits below. */
    method TellAndWake(t: nat, cookie: nat, outcome: Outcome, abandoned: bool, ghost past: State<S>)
      requires Valid() && t in threads && JustEnded(t, cookie, past)
      modifies this`objs, this`waits, this`threads, this`log, this`replies
      ensures Valid() && Local(t) && t in threads && Settled(t)
      ensures cookie == 0 || t !in broken ==>
                old(replies) + Told(old(threads[t]), t, cookie, outcome, abandoned) <= replies
      ensures Looked(broken, |old(log)|, log) && Answered(broken, past, Snapshot())
    {
      hide Waiting, Stacked, Alerted, Logged, Moved, Check, Innermost, Looked, Answered, Tells, AllEnded, Popped,
           Onward, Awoke, Told;
      ghost var a := Snapshot();
      var ok := TellSleeper(t, cookie, outcome, abandoned, past);
      ghost var b := Snapshot();
      Grown(kind, broken, t, a, b);
      if !ok {
        LookedDead(broken, t, a, b);
        return;
      }
      var count := WakeThread(t);
      AwokeGives(kind, broken, t, b, Snapshot());
      AnsweredAgain(broken, past, b, Snapshot());
      MovedAgain(kind, broken, t, a, b, Snapshot());
    }

    /** The time of a wait has come. Only the innermost wait of a thread that is not suspended ends. */
    method Timeout(w: nat)
      requires Valid() && w in waits && waits[w].cookie != 0
      modifies this`objs, this`waits, this`threads, this`log, this`replies
      ensures Valid()
      ensures var t := old(waits)[w].thread;
              if old(Takes(w)) then
                w !in waits && EndedAs(t, old(Record(t, TimedOut, false)), old(ToldAtEnd(w, TimedOut)))
              else
                Snapshot() == old(Snapshot())
    {
      hide Waiting, Stacked, Alerted, Logged, Moved, Check, Innermost, Record, Told, Abandoned, Looked, Answered;
      Owner(w);
      if !Takes(w) { return; }
      EndWith(waits[w].thread, TimedOut);
    }

    /** A wait is the innermost of a thread that is not suspended. */
    predicate Takes(w: nat)
      requires Stacked() && w in waits
      reads this`waits, this`threads, this`suspendedProcesses
    {
      var t := waits[w].thread;
      threads[t].stack[0] == w && !IsSuspended(t)
    }

    lemma Owner(w: nat)
      requires Waiting() && Stacked() && w in waits
      ensures var t := waits[w].thread; t in threads && threads[t].stack != []
      ensures forall o :: o in waits[w].objs ==> o in objs
      ensures Takes(w) <==> threads[waits[w].thread].stack[0] == w && !IsSuspended(waits[w].thread)
      ensures Takes(w) ==> Valid() ==> Innermost(waits[w].thread) == waits[w]
    {
    }

    lemma TakesProperly(e: Entry)
      requires Valid() && e.wait in waits && !waits[e.wait].all && Takes(e.wait)
      ensures var t := waits[e.wait].thread;
              && threads[t].stack != [] && Innermost(t) == waits[e.wait]
              && (Acquires(Innermost(t), Object(e.index)) ==> Proper(Record(t, Object(e.index), false)))
    {
    }

    lemma EntryKnown(o: nat, i: nat)
      requires Waiting() && Stacked() && o in objs && i < |objs[o].queue|
      ensures objs[o].queue[i].wait in waits && waits[objs[o].queue[i].wait].thread in threads
    {
      assert Queued(objs, o, objs[o].queue[i]);
    }

    /** The thread of an entry of an object's queue. */
    ghost function Waiter(o: nat, i: nat): (t: nat)
      requires Valid() && o in objs && i < |objs[o].queue|
      reads this
      ensures t in threads && objs[o].queue[i].wait in waits && t == waits[objs[o].queue[i].wait].thread
    {
      EntryKnown(o, i);
      waits[objs[o].queue[i].wait].thread
    }

    /** The first n threads queued on an object have nothing to wake up for. */
    ghost predicate SettledUpTo(o: nat, n: nat)
      requires Valid() && o in objs && n <= |objs[o].queue|
      reads this
    {
      forall k :: 0 <= k < n ==> Settled(Waiter(o, k))
    }

    ghost predicate AllSettled(o: nat)
      requires Valid() && o in objs
      reads this
    {
      SettledUpTo(o, |objs[o].queue|)
    }

    /** The first thing to have happened is that entry i of the queue of an object, before which all had
        nothing to wake up for, was found to have something, and ended that wait. */
    twostate predicate Began(o: nat, i: nat)
      requires old(Valid()) && o in old(objs) && i < |old(objs[o].queue)|
      reads this
      ensures Began(o, i) ==> !old(AllSettled(o))
    {
      && old(SettledUpTo(o, i)) && !old(Settled(Waiter(o, i))) && |old(log)| < |log|
      && Tells(log[|old(log)|], old(Innermost(Waiter(o, i))), old(Check(Waiter(o, i))))
    }

    /** An object may have become signaled: wakes the threads on its queue, at most max of them unless
        max is 0, starting over at the head of the queue after each. It comes to an end, and unless it
        stopped at the limit it leaves no thread on the queue that still has to wake. */
    method WakeUp(o: nat, max: nat) returns (woken: nat)
      requires Valid() && o in objs
      modifies this`objs, this`waits, this`threads, this`log, this`replies
      ensures Valid() && o in objs
      ensures 0 < max ==> woken <= max
      ensures max == 0 || woken < max ==> AllSettled(o)
      ensures if old(AllSettled(o)) then Snapshot() == old(Snapshot())
              else waits.Keys < old(waits.Keys) && exists i :: 0 <= i < |old(objs[o].queue)| && Began(o, i)
      ensures Rounds(kind, broken, old(Snapshot()), Snapshot(), woken)
    {
      hide Waiting, Stacked, Alerted, Logged, Settled, Check, Innermost, Waiter, Rounds, Tells, Awoke, SettledUpTo,
           StacksHold;
      var left, i := max, 0;
      woken := 0;
      ghost var past := Snapshot();
      ghost var first := 0;
      RoundsNone(kind, broken, past);
      SettledBounds(o);
      while i < |objs[o].queue|
        invariant Valid() && o in objs && i <= |objs[o].queue| && SettledUpTo(o, i)
        invariant 0 < max ==> 0 < left == max - woken
        invariant Rounds(kind, broken, past, Snapshot(), woken) && past.log <= log
        invariant if log == past.log then Snapshot() == past
                  else first < |old(objs[o].queue)| && Began(o, first) && waits.Keys < old(waits.Keys) && LastSettled()
        decreases waits.Keys, |objs[o].queue| - i
      {
        ghost var a, t := Snapshot(), Waiter(o, i);
        var ret := WakeEntry(o, i);
        if ret == 0 {
          i := i + 1;
        } else {
          if a.log == past.log { first := i; }
          RoundsAgain(kind, broken, t, past, a, Snapshot(), woken, if 0 < ret then 1 else 0);
          if 0 < ret {
            woken := woken + 1;
            if 0 < max {
              left := left - 1;
              if left == 0 { break; }
            }
          }
          i := 0;
        }
        SettledBounds(o);
      }
      if log != past.log { assert Began(o, first); }
    }

    lemma SettledMore(o: nat, i: nat)
      requires Valid() && o in objs && i < |objs[o].queue| && SettledUpTo(o, i) && Settled(Waiter(o, i))
      ensures SettledUpTo(o, i + 1)
    {
      hide Waiting, Stacked, Alerted, Logged, Settled, Waiter;
    }

    lemma SettledBounds(o: nat)
      requires Valid() && o in objs
      ensures SettledUpTo(o, 0)
    {
    }

    /** The thread of the last wait to end has nothing to wake up for. */
    ghost predicate LastSettled()
      requires Valid()
      reads this
    {
      log != [] && var t := log[|log| - 1].wait.thread; t in threads && Settled(t)
    }

    method WakeEntry(o: nat, i: nat) returns (ret: int)
      requires Valid() && o in objs && i < |objs[o].queue| && SettledUpTo(o, i)
      modifies this`objs, this`waits, this`threads, this`log, this`replies
      ensures Valid() && o in objs && Woken(old(Waiter(o, i))) && old(log) <= log
      ensures ret == 0 ==> Snapshot() == old(Snapshot()) && SettledUpTo(o, i + 1)
      ensures ret != 0 ==> waits.Keys < old(waits.Keys) && Began(o, i) && LastSettled()
      ensures ret < 0 ==> old(Waiter(o, i)) in broken
    {
      hide Waiting, Stacked, Alerted, Logged, Check, Innermost, Tells, Awoke, Waiter, StacksHold, SettledUpTo;
      ghost var a, t := Snapshot(), Waiter(o, i);
      ret := WakeThread(waits[objs[o].queue[i].wait].thread);
      LastAwoke(kind, broken, t, a, Snapshot());
      if ret == 0 { SettledMore(o, i); }
    }

    // ---- select ------------------------------------------------------------------------------

    method SetCookie(w: nat, cookie: nat)
      requires w in waits && Waiting() && Stacked()
      modifies this`waits
      ensures Waiting() && Stacked() && waits == old(waits)[w := old(waits[w]).(cookie := cookie)]
    {
      hide Counted, Agree, Distinct;
      AgreeCookie(objs, waits, w, cookie);
      waits := waits[w := waits[w].(cookie := cookie)];
    }

    /** The end of a select: the innermost wait ends if it is satisfied, otherwise the client is to sleep
        until woken with a cookie. */
    method Conclude(t: nat, cookie: nat) returns (outcome: Outcome, abandoned: bool)
      requires Valid() && t in threads && threads[t].stack != []
      modifies this`objs, this`waits, this`threads, this`log
      ensures Valid() && outcome == old(Check(t))
      ensures outcome == Pending ==>
                && objs == old(objs) && threads == old(threads) && log == old(log)
                && waits == old(waits)[old(threads[t].stack[0]) := old(Innermost(t)).(cookie := cookie)]
      ensures outcome != Pending ==> Added(old(log), log, old(Innermost(t)), outcome)
      ensures abandoned == (outcome != Pending && Abandoned(kind, old(objs), old(Innermost(t)), outcome))
      ensures outcome != Pending ==>
                && objs == Strip(Taken(kind, old(objs), old(Innermost(t)), outcome), old(threads[t].stack[0]))
                && waits == old(waits) - {old(threads[t].stack[0])}
                && threads == old(threads)[t := Noted(old(threads[t]), outcome).(stack := old(threads[t].stack)[1..])]
    {
      hide Waiting, Stacked, Alerted, Logged, Proper, Strip, Taken, Abandoned, Check, Innermost, Record, OnlyThread;
      CheckProper(t);
      abandoned := false;
      outcome := CheckWait(t);
      assert !outcome.WasSuspended? ==> threads == old(threads);
      SameTop(t);
      if outcome == Pending {
        SetCookie(threads[t].stack[0], cookie);
      } else {
        StillFound(t);
        RecordTells(t, outcome);
        abandoned := EndWait(t, outcome, true);
      }
    }

    /** A select: what it does when it does not sleep is to take its objects and nothing else, and what
        it leaves when it does is one wait on top of the stack. */
    method SelectOn(wait: Wait, cookie: nat, refuses: Option<nat>) returns (outcome: Outcome, abandoned: bool)
      requires Valid() && wait.thread in threads && !threads[wait.thread].terminated && wait.cookie == 0 < cookie
      requires forall i :: 0 <= i < |wait.objs| ==> wait.objs[i] in objs
      modifies this`objs, this`waits, this`threads, this`log, this`nextWait
      ensures Valid()
      ensures if refuses.Some? && refuses.value < |wait.objs| then
                outcome == Failed && Snapshot() == old(Snapshot())
              else
                outcome == old(Look(kind, objs, wait, threads[wait.thread], IsSuspended(wait.thread), now))
      ensures abandoned == Abandoned(kind, old(objs), wait, outcome)
      ensures outcome == Pending ==>
                && log == old(log) && waits == old(waits)[old(nextWait) := wait.(cookie := cookie)]
                && Strip(objs, old(nextWait)) == old(objs) && Appended(old(objs), objs, old(nextWait), |wait.objs|)
                && var th := old(threads[wait.thread]);
                   threads == old(threads)[wait.thread := th.(stack := [old(nextWait)] + th.stack)]
      ensures outcome != Pending && outcome != Failed ==>
                && Added(old(log), log, wait, outcome)
                && waits == old(waits) && objs == Taken(kind, old(objs), wait, outcome)
                && threads == old(threads)[wait.thread := Noted(old(threads[wait.thread]), outcome)]
    {
      hide *;
      var t, w := wait.thread, nextWait;
      NoneAbandoned(kind, objs, wait);
      var ok := WaitOn(wait, refuses);
      if !ok { return Failed, false; }
      SuspendedSame(t);
      OnTop(wait, w, old(objs), old(threads[t]));
      ghost var before := objs;
      AbandonedSame(kind, objs, old(objs), wait) by { StripStates(objs, w); }
      outcome, abandoned := Conclude(t, cookie);
      if outcome != Pending {
        StripTaken(kind, before, wait, outcome, w);
        assert waits == old(waits);
        NotedBelow(old(threads[t]), w, outcome);
        assert threads == old(threads)[t := Noted(old(threads[t]), outcome)];
      }
    }

    twostate lemma SuspendedSame(t: nat)
      requires t in old(threads) && t in threads && suspendedProcesses == old(suspendedProcesses)
      requires threads[t] == old(threads[t]).(stack := threads[t].stack)
      ensures IsSuspended(t) == old(IsSuspended(t))
    {
    }

    /** What is known of a wait just put on top of the stack of a thread. */
    lemma OnTop(wait: Wait, w: nat, before: map<nat, Obj<S>>, th: Thread)
      requires Valid() && w in waits && waits[w] == wait && wait.thread in threads
      requires threads[wait.thread] == th.(stack := [w] + th.stack) && Strip(objs, w) == before
      ensures Innermost(wait.thread) == wait
      ensures (forall o :: o in objs ==> |objs[o].queue| <= objs[o].refs)
      ensures (forall o :: o in wait.objs ==> o in objs) && forall o :: o in wait.objs ==> o in before
      ensures Check(wait.thread) == Look(kind, before, wait, th, IsSuspended(wait.thread), now)
    {
      hide Stacked, Alerted, Logged, Look, IsSuspended, Agree;
      StripStates(objs, w);
      var x := Innermost(wait.thread);
      LookSame(kind, objs, before, wait, threads[wait.thread], IsSuspended(wait.thread), now);
      LookStack(kind, before, wait, th, [w] + th.stack, IsSuspended(wait.thread), now);
    }

    lemma StripStates(objs: map<nat, Obj<S>>, w: nat)
      requires forall o :: o in objs ==> |objs[o].queue| <= objs[o].refs
      ensures Strip(objs, w).Keys == objs.Keys && forall o :: o in objs ==> Strip(objs, w)[o].state == objs[o].state
    {
    }

    // ---- suspension --------------------------------------------------------------------------

    /** Changes one thread without touching its waits. */
    method SetThread(t: nat, th: Thread)
      requires Stacked() && Alerted() && t in threads && Sound(th, nextApc)
      requires th.stack == threads[t].stack && th.terminated == threads[t].terminated
      modifies this`threads
      ensures Stacked() && Alerted() && threads == old(threads)[t := th]
    {
      hide Sound, Distinct;
      threads := threads[t := th];
    }

    /** Suspends a thread. No wait ends; from now on the thread takes nothing, unless it was stopping
        itself. */
    method SuspendThread(t: nat) returns (oldCount: nat, exceeded: bool)
      requires Valid() && t in threads
      modifies this`threads
      ensures Valid() && oldCount == old(threads[t].suspend) && exceeded == (maxSuspend <= oldCount)
      ensures exceeded ==> threads == old(threads)
      ensures !exceeded ==>
                var th := old(threads[t]);
                var context := if old(IsSuspended(t)) || th.context.Some? then th.context
                               else Some(Context(false, false));
                threads == old(threads)[t := th.(suspend := oldCount + 1, context := context)]
      ensures !exceeded ==>
                t in threads
                && (IsSuspended(t) <==> !(threads[t].context.Some? && threads[t].context.value.cooperative))
    {
      hide Waiting, Stacked, Alerted, Logged;
      var th := threads[t];
      oldCount := th.suspend;
      exceeded := maxSuspend <= oldCount;
      if !exceeded {
        if !IsSuspended(t) && th.context.None? { th := th.(context := Some(Context(false, false))); }
        StillSound(t, th.(suspend := th.suspend + 1));
        SetThread(t, th.(suspend := th.suspend + 1));
      }
    }

    lemma StillSound(t: nat, th: Thread)
      requires Alerted() && t in threads
      requires th.(suspend := threads[t].suspend, context := threads[t].context) == threads[t]
      ensures Sound(th, nextApc)
    {
    }

    /** Undoes one suspension; with the last of them the thread looks at its waits again. */
    method ResumeThread(t: nat) returns (oldCount: nat)
      requires Valid() && t in threads
      modifies this`objs, this`waits, this`threads, this`log, this`replies
      ensures Valid() && oldCount == old(threads[t].suspend)
      ensures oldCount == 0 ==> Snapshot() == old(Snapshot())
      ensures 0 < oldCount ==>
                t in threads
                && var th := old(threads[t]);
                   var before := WithThread(old(Snapshot()), t, th.(suspend := oldCount - 1));
                   if !(th.context.Some? && th.context.value.cooperative)
                      && (1 < oldCount
                          || (!th.bypass && th.process in suspendedProcesses && 0 < suspendedProcesses[th.process]))
                   then Snapshot() == before
                   else Awoke(kind, broken, t, before, Snapshot()) && Settled(t)
    {
      hide Waiting, Stacked, Alerted, Logged, Awoke, Innermost, Check, Tells, StacksHold;
      var th := threads[t];
      oldCount := th.suspend;
      if 0 < th.suspend {
        StillSound(t, th.(suspend := th.suspend - 1));
        SetThread(t, th.(suspend := th.suspend - 1));
        if !IsSuspended(t) { var count := WakeThread(t); }
      }
    }

    // ---- asynchronous procedure calls --------------------------------------------------------

    /** Takes the first call of an owner off a queue. */
    method CancelApc(t: nat, owner: nat, system: bool)
      requires Stacked() && Alerted() && t in threads
      modifies this`threads
      ensures Stacked() && Alerted()
      ensures var th := old(threads[t]);
              && t in threads
              && threads == old(threads)[t :=
                 WithQueue(th, system, Cancelled(Queue(th, system), owner)).(alert := threads[t].alert)]
              && (!th.terminated ==>
                   threads[t] == Ringing(WithQueue(th, system, Cancelled(Queue(th, system), owner))))
    {
      hide Stacked, Alerted, InOrder, Cancelled, Sound, Ringing;
      var th := threads[t];
      var q, i := Queue(th, system), 0;
      while i < |q| && q[i].owner != owner
        invariant i <= |q| && forall k :: 0 <= k < i ==> q[k].owner != owner
      {
        i := i + 1;
      }
      CancelledAt(q, owner, i);
      IsSound(t);
      CalmRings(th, system, Cancelled(q, owner), nextApc);
      if i < |q| {
        CalmIsSound(t, system, Cancelled(q, owner));
        SetThread(t, Calm(WithQueue(th, system, q[..i] + q[i + 1..])));
      }
    }

    /** Takes the head off a queue: the call that was queued first. */
    method DequeueApc(t: nat, system: bool) returns (apc: Option<Apc>)
      requires Valid() && t in threads
      modifies this`threads
      ensures Valid() && t in threads
      ensures var q := old(Queue(threads[t], system));
              if q == [] then apc == None && threads == old(threads)
              else
                && apc == Some(q[0]) && (forall a :: a in q[1..] ==> q[0].number < a.number)
                && threads == old(threads)[t := WithQueue(old(threads[t]), system, q[1..]).(alert := threads[t].alert)]
                && (!threads[t].terminated ==> threads[t] == Ringing(WithQueue(old(threads[t]), system, q[1..])))
    {
      hide Waiting, Stacked, Logged, Ringing;
      var th := threads[t];
      var q := Queue(th, system);
      if q == [] { return None; }
      CalmRings(th, system, q[1..], nextApc);
      CalmIsSound(t, system, q[1..]);
      SetThread(t, Calm(WithQueue(th, system, q[1..])));
      return Some(q[0]);
    }

    /** The alert event goes off with the last user call. */
    static function Calm(th: Thread): Thread { if th.user == [] && th.hasAlert then th.(alert := false) else th }

    /** With a queue shorter, or as it was, that is all there is to do for the alert. */
    static lemma CalmRings(th: Thread, system: bool, q: seq<Apc>, limit: nat)
      requires Sound(th, limit) && (q != [] ==> Queue(th, system) != [])
      ensures !th.terminated ==> Calm(WithQueue(th, system, q)) == Ringing(WithQueue(th, system, q))
      ensures !th.terminated && q == Queue(th, system) ==> Ringing(WithQueue(th, system, q)) == th
    {
    }

    lemma CalmIsSound(t: nat, system: bool, q: seq<Apc>)
      requires Alerted() && t in threads
      requires var old' := Queue(threads[t], system);
               old' != [] && (q == old'[1..] || exists owner :: q == Cancelled(old', owner))
      ensures Sound(Calm(WithQueue(threads[t], system, q)), nextApc)
    {
      var was := Queue(threads[t], system);
      assert Sound(threads[t], nextApc);
      if q != was[1..] {
        var owner :| q == Cancelled(was, owner);
        CancelledInOrder(was, owner, nextApc);
      }
    }

    /** Puts a call at the end of a queue; the first user call sets the alert event. */
    method AppendApc(t: nat, owner: nat, system: bool)
      requires Stacked() && Alerted() && t in threads && !threads[t].terminated
      modifies this`threads, this`nextApc
      ensures Stacked() && Alerted() && t in threads && nextApc == old(nextApc) + 1
      ensures var th := old(threads[t]);
              threads == old(threads)[t :=
                Ringing(WithQueue(th, system, Queue(th, system) + [Apc(owner, old(nextApc))]))]
    {
      hide Stacked, Alerted, Sound;
      var th := threads[t];
      var q := Queue(th, system);
      IsSound(t);
      AppendSound(th, system, Apc(owner, nextApc), nextApc);
      th := WithQueue(th, system, q + [Apc(owner, nextApc)]);
      if q == [] && !system && th.hasAlert { th := th.(alert := true); }
      Renumber();
      SetThread(t, th);
    }

    /** Puts a call on a queue. One to a thread of its own takes the place of the first one of the same owner. */
    method PutApc(t: nat, owner: nat, system: bool, direct: bool) returns (first: bool)
      requires Stacked() && Alerted() && t in threads && !threads[t].terminated
      modifies this`threads, this`nextApc
      ensures Stacked() && Alerted() && nextApc == old(nextApc) + 1
      ensures var th := old(threads[t]);
              var q := Queue(th, system);
              var kept := if direct && owner != 0 then Cancelled(q, owner) else q;
              && first == (kept == [])
              && threads == old(threads)[t := Ringing(WithQueue(th, system, kept + [Apc(owner, old(nextApc))]))]
    {
      hide Stacked, Alerted, Cancelled;
      if direct && owner != 0 { CancelApc(t, owner, system); }
      first := Queue(threads[t], system) == [];
      AppendApc(t, owner, system);
    }

    lemma IsSound(t: nat)
      requires Alerted() && t in threads
      ensures Sound(threads[t], nextApc)
    {
    }

    /** The next call gets the next number. */
    method Renumber()
      requires Alerted()
      modifies this`nextApc
      ensures Alerted() && nextApc == old(nextApc) + 1
    {
      hide Sound;
      forall t | t in threads ensures Sound(threads[t], nextApc + 1) { SoundLater(threads[t], nextApc); }
      nextApc := nextApc + 1;
    }

    /** A thread will look at its system calls without being signaled. */
    predicate InApcWait(t: nat)
      requires Stacked() && t in threads
      reads this`waits, this`threads, this`suspendedProcesses
    {
      IsSuspended(t) || (threads[t].stack != [] && InterruptibleTop(t))
    }

    predicate InterruptibleTop(t: nat)
      requires Stacked() && t in threads && threads[t].stack != []
      reads this`waits, this`threads
    {
      assert threads[t].stack[0] in threads[t].stack;
      waits[threads[t].stack[0]].interruptible
    }

    predicate Candidate(t: nat): (candidate: bool)
      requires Stacked() && t in threads
      reads this`waits, this`threads, this`suspendedProcesses
      ensures candidate <==>
              var th := threads[t];
              !th.terminated
              && (IsSuspended(t) || (th.stack != [] && th.stack[0] in waits && waits[th.stack[0]].interruptible))
    {
      !threads[t].terminated && InApcWait(t)
    }

    /** Finds a thread of a process for a call: the first that waits for one, else the first that can be
        signaled. */
    method FindThread(list: seq<nat>, reachable: set<nat>) returns (i: nat)
      requires Stacked() && forall t :: t in list ==> t in threads
      ensures i <= |list|
      ensures i < |list| && Candidate(list[i]) ==> forall k :: 0 <= k < i ==> !Candidate(list[k])
      ensures i < |list| && !Candidate(list[i]) ==>
                list[i] in reachable && (forall k :: 0 <= k < |list| ==> !Candidate(list[k]))
                  && forall k :: 0 <= k < i ==> list[k] !in reachable
      ensures i == |list| ==> forall k :: 0 <= k < |list| ==> !Candidate(list[k]) && list[k] !in reachable
    {
      i := 0;
      while i < |list|
        invariant i <= |list| && forall k :: 0 <= k < i ==> !Candidate(list[k])
      {
        if !threads[list[i]].terminated && InApcWait(list[i]) { return; }
        i := i + 1;
      }
      i := 0;
      while i < |list|
        invariant i <= |list| && forall k :: 0 <= k < i ==> list[k] !in reachable
      {
        if list[i] in reachable { return; }
        i := i + 1;
      }
    }

    /** The thread a call goes to. */
    method ChooseThread(target: Option<nat>, list: Option<seq<nat>>, system: bool, reachable: set<nat>)
      returns (to: Option<nat>)
      requires Stacked() && (target.Some? ==> target.value in threads) && (target.None? ==> list.Some?)
      requires list.Some? ==> forall t :: t in list.value ==> t in threads
      requires forall t :: t in reachable && t in threads ==> !threads[t].terminated
      ensures to.Some? ==> to.value in threads && !threads[to.value].terminated
      ensures target.Some? && !threads[target.value].terminated ==>
                to == if system && threads[target.value].system == [] && !Candidate(target.value)
                      && target.value !in reachable then None else target
      ensures target.Some? && threads[target.value].terminated && list.None? ==> to == None
      ensures (target.None? || threads[target.value].terminated) && list.Some? ==>
                (to.None? <==> forall t :: t in list.value ==> !Candidate(t) && t !in reachable)
      ensures (target.None? || threads[target.value].terminated) && list.Some? && to.Some? ==>
                to.value in list.value && (Candidate(to.value) || forall t :: t in list.value ==> !Candidate(t))
    {
      if target.None? || (threads[target.value].terminated && list.Some?) {
        var i := FindThread(list.value, reachable);
        if i == |list.value| { return None; }
        return Some(list.value[i]);
      }
      if threads[target.value].terminated { return None; }
      var th := threads[target.value];
      if system && th.system == [] && !InApcWait(target.value) && target.value !in reachable { return None; }
      return target;
    }

    /** Queues a call to a thread, or to any of a process. A call to the thread itself takes the place of
        the first one queued for the same owner. */
    method QueueApc(target: Option<nat>, list: Option<seq<nat>>, owner: nat, system: bool, reachable: set<nat>)
      returns (to: Option<nat>)
      requires Valid() && (target.Some? ==> target.value in threads) && (target.None? ==> list.Some?)
      requires list.Some? ==> forall t :: t in list.value ==> t in threads
      requires forall t :: t in reachable && t in threads ==> !threads[t].terminated
      modifies this`objs, this`waits, this`threads, this`log, this`replies, this`nextApc
      ensures Valid()
      ensures to.None? ==> Snapshot() == old(Snapshot())
      ensures to.Some? ==>
                && to.value in old(threads) && to.value in threads && !old(threads[to.value]).terminated
                && var th := old(threads[to.value]);
                   var q := Queue(th, system);
                   var kept := if to == target && owner != 0 then Cancelled(q, owner) else q;
                   var next := Ringing(WithQueue(th, system, kept + [Apc(owner, old(nextApc))]));
                   var before := WithThread(old(Snapshot()), to.value, next);
                   if kept != [] then Snapshot() == before
                   else Awoke(kind, broken, to.value, before, Snapshot()) && Settled(to.value)
    {
      hide Waiting, Stacked, Alerted, Logged, InApcWait, Candidate, IsSuspended, Cancelled, Awoke, Innermost,
           Check, Tells, StacksHold, Ringing;
      to := ChooseThread(target, list, system, reachable);
      if to.None? { return; }
      var t := to.value;
      var first := PutApc(t, owner, system, target == to);
      if first { var count := WakeThread(t); }
    }
  }
}
