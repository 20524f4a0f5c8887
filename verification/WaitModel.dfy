/** Waits, the queues of the objects waited on, and how the two agree, on values. */
module WaitModel {
  import opened Common

  /** A place on an object's queue: object number `index` of wait `wait`. */
  datatype Entry = Entry(wait: nat, index: nat)

  datatype Obj<S> = Obj(state: S, queue: seq<Entry>, refs: nat)

  datatype Wait = Wait(
    thread: nat,
    objs: seq<nat>,
    all: bool,                 // wants every object, not any of them
    interruptible: bool,
    cooperative: bool,
    alertable: bool,
    when: Option<int>,
    cookie: nat)               // 0 until the client has really gone to sleep

  // ---- queues ------------------------------------------------------------------------------

  /** The queue without any entry of wait w. */
  function Without(q: seq<Entry>, w: nat): seq<Entry> {
    if q == [] then []
    else if q[0].wait == w then Without(q[1..], w)
    else [q[0]] + Without(q[1..], w)
  }

  lemma {:induction false} WithoutElements(q: seq<Entry>, w: nat)
    ensures forall e :: e in Without(q, w) <==> e in q && e.wait != w
    ensures |Without(q, w)| <= |q|
    ensures (forall e :: e in q ==> e.wait != w) ==> Without(q, w) == q
  {
    if q != [] { WithoutElements(q[1..], w); }
  }

  lemma {:induction false} WithoutPush(q: seq<Entry>, w: nat, i: nat)
    ensures Without(q + [Entry(w, i)], w) == Without(q, w)
  {
    if q == [] {
      assert (q + [Entry(w, i)])[1..] == [];
    } else {
      WithoutPush(q[1..], w, i);
      assert (q + [Entry(w, i)])[1..] == q[1..] + [Entry(w, i)];
    }
  }

  lemma {:induction false} WithoutRemove(q: seq<Entry>, e: Entry)
    ensures Without(Remove(q, e), e.wait) == Without(q, e.wait)
  {
    if q != [] && q[0] != e {
      WithoutRemove(q[1..], e);
      var r := [q[0]] + Remove(q[1..], e);
      assert r[1..] == Remove(q[1..], e);
    }
  }

  /** Leaving a queue leaves the order of the rest. */
  lemma {:induction false} WithoutJoins(a: seq<Entry>, b: seq<Entry>, w: nat)
    ensures Without(a + b, w) == Without(a, w) + Without(b, w)
  {
    if a == [] {
      assert a + b == b;
    } else {
      WithoutJoins(a[1..], b, w);
      assert (a + b)[0] == a[0] && (a + b)[1..] == a[1..] + b;
      var rest, more := Without(a[1..], w), Without(b, w);
      assert [a[0]] + (rest + more) == ([a[0]] + rest) + more;
    }
  }

  /** All objects without any entry of wait w, and without the references those entries held. */
  function Strip<S>(objs: map<nat, Obj<S>>, w: nat): map<nat, Obj<S>>
    requires forall o :: o in objs ==> |objs[o].queue| <= objs[o].refs
  {
    map o | o in objs :: (
      WithoutElements(objs[o].queue, w);
      var q := Without(objs[o].queue, w);
      Obj(objs[o].state, q, objs[o].refs - (|objs[o].queue| - |q|)))
  }

  // ---- agreement between waits and queues --------------------------------------------------

  /** An object counts the references of its queue on top of those others hold. */
  ghost predicate Counted<S>(objs: map<nat, Obj<S>>, others: map<nat, nat>) {
    && objs.Keys == others.Keys
    && forall o :: o in objs ==> Distinct(objs[o].queue) && objs[o].refs == others[o] + |objs[o].queue|
  }

  ghost predicate Queued<S>(objs: map<nat, Obj<S>>, o: nat, e: Entry) { o in objs && e in objs[o].queue }

  ghost predicate Awaits(waits: map<nat, Wait>, e: Entry, o: nat) {
    e.wait in waits && e.index < |waits[e.wait].objs| && waits[e.wait].objs[e.index] == o
  }

  ghost predicate Known<S>(objs: map<nat, Obj<S>>, waits: map<nat, Wait>) {
    forall v, i :: v in waits && 0 <= i < |waits[v].objs| ==> waits[v].objs[i] in objs
  }

  /** The queues hold exactly one entry for each object of each wait, on the queue of that object,
      and nothing else. */
  ghost predicate Agree<S>(objs: map<nat, Obj<S>>, waits: map<nat, Wait>) {
    && Known(objs, waits)
    && forall o, e :: Queued(objs, o, e) <==> Awaits(waits, e, o)
  }

  /** The same while wait w has only its entries with an index in from..to. */
  ghost predicate AgreeOn<S>(objs: map<nat, Obj<S>>, waits: map<nat, Wait>, w: nat, from: nat, to: nat) {
    && w in waits && Known(objs, waits)
    && forall o, e :: Queued(objs, o, e) <==> Awaits(waits, e, o) && (e.wait == w ==> from <= e.index < to)
  }

  function Push<S>(objs: map<nat, Obj<S>>, o: nat, e: Entry): map<nat, Obj<S>>
    requires o in objs
  {
    objs[o := objs[o].(queue := objs[o].queue + [e], refs := objs[o].refs + 1)]
  }

  /** What has come on a queue has come at its end: entries of wait w, in the order of its objects, of the first n
      of them. */
  ghost predicate AtEnd(q: seq<Entry>, r: seq<Entry>, w: nat, n: nat) {
    && q <= r
    && (forall k :: |q| <= k < |r| ==> r[k].wait == w && r[k].index < n)
    && forall k, l :: |q| <= k < l < |r| ==> r[k].index < r[l].index
  }

  ghost predicate Appended<S>(a: map<nat, Obj<S>>, b: map<nat, Obj<S>>, w: nat, n: nat) {
    && a.Keys == b.Keys
    && forall o :: o in a ==> AtEnd(a[o].queue, b[o].queue, w, n) && a[o].state == b[o].state
  }

  lemma AppendedNone<S>(a: map<nat, Obj<S>>, w: nat)
    ensures Appended(a, a, w, 0)
  {
  }

  lemma AppendedPush<S>(a: map<nat, Obj<S>>, b: map<nat, Obj<S>>, o: nat, w: nat, n: nat)
    requires Appended(a, b, w, n) && o in b
    ensures Appended(a, Push(b, o, Entry(w, n)), w, n + 1)
  {
    AtEndMore(a[o].queue, b[o].queue, w, n);
    forall x | x in a && x != o ensures AtEnd(a[x].queue, b[x].queue, w, n + 1) {
      assert AtEnd(a[x].queue, b[x].queue, w, n);
    }
    hide AtEnd;
  }

  lemma AtEndMore(q: seq<Entry>, r: seq<Entry>, w: nat, n: nat)
    requires AtEnd(q, r, w, n)
    ensures AtEnd(q, r + [Entry(w, n)], w, n + 1)
  {
  }

  function Pull<S>(objs: map<nat, Obj<S>>, o: nat, e: Entry): map<nat, Obj<S>>
    requires o in objs && 0 < objs[o].refs
  {
    objs[o := objs[o].(queue := Remove(objs[o].queue, e), refs := objs[o].refs - 1)]
  }

  lemma AgreeNew<S>(objs: map<nat, Obj<S>>, waits: map<nat, Wait>, w: nat, wait: Wait)
    requires Agree(objs, waits) && w !in waits && forall i :: 0 <= i < |wait.objs| ==> wait.objs[i] in objs
    ensures AgreeOn(objs, waits[w := wait], w, 0, 0)
  {
  }

  /** With all its entries a wait agrees like any other. */
  lemma AgreeOnWhole<S>(objs: map<nat, Obj<S>>, waits: map<nat, Wait>, w: nat)
    requires w in waits
    ensures Agree(objs, waits) <==> AgreeOn(objs, waits, w, 0, |waits[w].objs|)
  {
  }

  /** Queues do not depend on whether the client has gone to sleep. */
  lemma AgreeCookie<S>(objs: map<nat, Obj<S>>, waits: map<nat, Wait>, w: nat, cookie: nat)
    requires Agree(objs, waits) && w in waits
    ensures Agree(objs, waits[w := waits[w].(cookie := cookie)])
  {
  }

  lemma AgreePush<S>(objs: map<nat, Obj<S>>, waits: map<nat, Wait>, w: nat, i: nat)
    requires AgreeOn(objs, waits, w, 0, i) && i < |waits[w].objs|
    ensures waits[w].objs[i] in objs && Entry(w, i) !in objs[waits[w].objs[i]].queue
    ensures AgreeOn(Push(objs, waits[w].objs[i], Entry(w, i)), waits, w, 0, i + 1)
  {
    var o, e := waits[w].objs[i], Entry(w, i);
    assert !Queued(objs, o, e);
    var objs' := Push(objs, o, e);
    forall o', e'
      ensures Queued(objs', o', e') <==> Awaits(waits, e', o') && (e'.wait == w ==> 0 <= e'.index < i + 1)
    {
      assert Queued(objs', o', e') <==> Queued(objs, o', e') || (o' == o && e' == e);
    }
  }

  lemma AgreePull<S>(objs: map<nat, Obj<S>>, waits: map<nat, Wait>, w: nat, i: nat, to: nat)
    requires AgreeOn(objs, waits, w, i, to) && i < to <= |waits[w].objs|
    requires forall o :: o in objs ==> Distinct(objs[o].queue)
    ensures var o := waits[w].objs[i];
            && Entry(w, i) in objs[o].queue
            && (0 < objs[o].refs ==> AgreeOn(Pull(objs, o, Entry(w, i)), waits, w, i + 1, to))
  {
    var o, e := waits[w].objs[i], Entry(w, i);
    assert Awaits(waits, e, o) && Queued(objs, o, e);
    RemoveElements(objs[o].queue, e);
    if 0 < objs[o].refs {
      var objs' := Pull(objs, o, e);
      forall o', e'
        ensures Queued(objs', o', e') <==> Awaits(waits, e', o') && (e'.wait == w ==> i + 1 <= e'.index < to)
      {
        assert Queued(objs', o', e') <==> Queued(objs, o', e') && !(o' == o && e' == e);
      }
    }
  }

  lemma CountedFits<S>(objs: map<nat, Obj<S>>, others: map<nat, nat>)
    requires Counted(objs, others)
    ensures forall o :: o in objs ==> |objs[o].queue| <= objs[o].refs
  {
  }

  lemma CountedPush<S>(objs: map<nat, Obj<S>>, others: map<nat, nat>, o: nat, e: Entry)
    requires Counted(objs, others) && o in objs && e !in objs[o].queue
    ensures Counted(Push(objs, o, e), others) && Strip(Push(objs, o, e), e.wait) == Strip(objs, e.wait)
  {
    DistinctMore(objs[o].queue, e);
    hide Distinct;
    StripPush(objs, o, e);
  }

  lemma StripPush<S>(objs: map<nat, Obj<S>>, o: nat, e: Entry)
    requires o in objs && forall o :: o in objs ==> |objs[o].queue| <= objs[o].refs
    ensures Strip(Push(objs, o, e), e.wait) == Strip(objs, e.wait)
  {
    WithoutPush(objs[o].queue, e.wait, e.index);
    hide Without;
    forall x | x in objs ensures Strip(Push(objs, o, e), e.wait)[x] == Strip(objs, e.wait)[x] {}
  }

  lemma CountedPull<S>(objs: map<nat, Obj<S>>, others: map<nat, nat>, o: nat, e: Entry)
    requires Counted(objs, others) && o in objs && e in objs[o].queue
    ensures 0 < objs[o].refs
    ensures Counted(Pull(objs, o, e), others) && Strip(Pull(objs, o, e), e.wait) == Strip(objs, e.wait)
  {
    RemoveElements(objs[o].queue, e);
    assert Counted(Pull(objs, o, e), others);
    StripPull(objs, o, e);
  }

  lemma StripPull<S>(objs: map<nat, Obj<S>>, o: nat, e: Entry)
    requires o in objs && 0 < objs[o].refs && |Remove(objs[o].queue, e)| == |objs[o].queue| - 1
    requires forall o :: o in objs ==> |objs[o].queue| <= objs[o].refs
    ensures Strip(Pull(objs, o, e), e.wait) == Strip(objs, e.wait)
  {
    WithoutRemove(objs[o].queue, e);
    forall x | x in objs ensures Strip(Pull(objs, o, e), e.wait)[x] == Strip(objs, e.wait)[x] {}
  }

  /** When a wait has no entries left it can go, and taking it out of the queues changes nothing. */
  lemma AgreeEnd<S>(objs: map<nat, Obj<S>>, waits: map<nat, Wait>, others: map<nat, nat>, w: nat, n: nat)
    requires Counted(objs, others) && AgreeOn(objs, waits, w, n, n)
    ensures Strip(objs, w) == objs && Agree(objs, waits - {w})
  {
    forall o, e ensures Queued(objs, o, e) <==> Awaits(waits - {w}, e, o) {
      assert Queued(objs, o, e) <==> Awaits(waits, e, o) && e.wait != w;
    }
    StripNone(objs, waits - {w}, others, w);
  }

  lemma StripNone<S>(objs: map<nat, Obj<S>>, waits: map<nat, Wait>, others: map<nat, nat>, w: nat)
    requires Counted(objs, others) && Agree(objs, waits) && w !in waits
    ensures Strip(objs, w) == objs
  {
    forall o | o in objs ensures Without(objs[o].queue, w) == objs[o].queue {
      forall e | e in objs[o].queue ensures e.wait != w { assert Queued(objs, o, e); }
      WithoutElements(objs[o].queue, w);
    }
  }
}
