/** What the capture side of a PulseAudio stream means, on values: a pool of packets of one period
    each, filled in turn, handed out in order, and recycled when none is free. */
module CaptureModel {
  import opened Common

  /** A period of sound as the application gets it. Which period of the recording it is, and how many
      were lost without a trace before it, only the proofs know. */
  datatype Packet = Packet(stamp: nat, mark: bool, data: seq<byte>, number: nat, lag: nat)

  datatype State = State(
    free: nat,                    // packets without sound in them
    filled: seq<Packet>,          // oldest first
    next: Option<Packet>,         // the one the application looks at
    locked: bool,
    started: bool,
    held: nat,                    // bytes in filled packets and the one looked at
    clock: nat,                   // bytes the application is told to have had
    recording: seq<seq<byte>>,    // every period recorded while started
    stamp: nat,                   // when the last was
    untold: nat,                  // periods lost that neither packets nor marks account for
    delivered: seq<Packet>)       // what the application has released

  datatype Op =
    | Take(stamp: nat, data: seq<byte>) | Padding | Get | Release(whole: bool) | Reset | Start | Stop

  ghost function Init(pool: nat): State {
    State(pool, [], None, false, false, 0, 0, [], 0, 0, [])
  }

  function Count(o: Option<Packet>): nat { if o.Some? then 1 else 0 }

  function Marked(o: Option<Packet>): nat { if o.Some? && o.value.mark then 1 else 0 }

  function Head(filled: seq<Packet>): Option<Packet> { if filled == [] then None else Some(filled[0]) }

  // ---- steps -------------------------------------------------------------------------------

  /** No packet is free and the only filled one has no mark: the mark goes to what is not a packet. */
  ghost predicate Outside(s: State) { s.free == 0 && |s.filled| == 1 && !s.filled[0].mark }

  /** A period of sound arrives. Without a free packet the oldest goes and the one after it is marked;
      if the oldest is marked already, the newest goes instead. */
  ghost function TakeStep(period: nat, s: State, stamp: nat, data: seq<byte>): State
    requires !Outside(s)
  {
    if s.free == 0 && s.filled == [] then s
    else
      var at := |s.recording|;
      var s' := s.(recording := s.recording + [data], stamp := stamp);
      if 0 < s.free then
        s'.(free := s.free - 1, held := s.held + period,
            filled := s.filled + [Packet(stamp, false, data, at, s.untold)])
      else if !s.filled[0].mark then
        s'.(filled := [s.filled[1].(mark := true)] + s.filled[2..] + [Packet(stamp, false, data, at, s.untold)])
      else
        var lost := s.untold + (if |s.filled| == 1 then 2 else 1);
        s'.(untold := lost, filled := s.filled[..|s.filled| - 1] + [Packet(stamp, false, data, at, lost)])
  }

  /** Looking how much there is moves the oldest filled packet out of reach. */
  ghost function PaddingStep(s: State): State {
    if s.next.None? && s.filled != [] then s.(next := Some(s.filled[0]), filled := s.filled[1..]) else s
  }

  ghost function GetStep(s: State): State {
    if s.locked then s else var s' := PaddingStep(s); s'.(locked := s'.next.Some?)
  }

  /** The position the application is told with a packet. */
  function Position(period: nat, clock: nat, p: Packet): nat { clock + if p.mark then period else 0 }

  ghost function ReleaseStep(period: nat, s: State, whole: bool): State
    requires s.locked ==> s.next.Some?
  {
    if !whole then s.(locked := false)
    else if !s.locked then s
    else
      s.(locked := false, next := None, free := s.free + 1, held := if period <= s.held then s.held - period else 0,
         clock := s.clock + (if s.next.value.mark then 2 * period else period),
         delivered := s.delivered + [s.next.value])
  }

  ghost function ResetStep(s: State): State {
    if s.started || s.locked then s
    else
      s.(clock := s.clock + s.held, held := 0, next := None, filled := [], free := s.free + |s.filled| + Count(s.next),
         untold := s.untold + Marked(s.next) + Marked(Head(s.filled)))
  }

  ghost predicate Defined(s: State, op: Op) {
    match op
    case Take(stamp, data) => s.started && s.stamp <= stamp && !Outside(s)
    case Release(_) => s.locked ==> s.next.Some?
    case _ => true
  }

  ghost function Step(period: nat, s: State, op: Op): State
    requires Defined(s, op)
  {
    match op
    case Take(stamp, data) => TakeStep(period, s, stamp, data)
    case Padding => PaddingStep(s)
    case Get => GetStep(s)
    case Release(whole) => ReleaseStep(period, s, whole)
    case Reset => ResetStep(s)
    case Start => s.(started := true)
    case Stop => s.(started := false)
  }

  /** Everything but the line of filled packets. */
  ghost predicate Alike(a: State, b: State) {
    (a.next, a.locked, a.started, a.clock, a.delivered) == (b.next, b.locked, b.started, b.clock, b.delivered)
  }

  lemma AlikeSame(a: State)
    ensures Alike(a, a)
  {
  }

  lemma AlikeAgain(a: State, b: State, c: State)
    requires Alike(a, b) && Alike(b, c)
    ensures Alike(a, c)
  {
  }

  /** What stays filled when a packet must be given up. */
  ghost function Kept(filled: seq<Packet>): (r: seq<Packet>)
    requires filled != [] && (|filled| == 1 ==> filled[0].mark)
    ensures |r| == |filled| - 1
  {
    if filled[0].mark then filled[..|filled| - 1] else [filled[1].(mark := true)] + filled[2..]
  }

  /** Without a free packet as many are filled as before, and the new period is the last. */
  lemma TakeFull(period: nat, s: State, stamp: nat, data: seq<byte>)
    requires s.free == 0 && s.filled != [] && !Outside(s)
    ensures var s', n := TakeStep(period, s, stamp, data), |s.filled|;
            && Alike(s, s') && s'.recording == s.recording + [data] && s'.free == 0 && s'.held == s.held
               && s'.stamp == stamp
            && |s'.filled| == n && s'.filled[..n - 1] == Kept(s.filled)
            && var p := s'.filled[n - 1]; p.stamp == stamp && !p.mark && p.data == data
  {
  }

  lemma TakeFree(period: nat, s: State, stamp: nat, data: seq<byte>)
    requires 0 < s.free
    ensures var s' := TakeStep(period, s, stamp, data);
            && Alike(s, s') && s'.recording == s.recording + [data] && s'.free == s.free - 1
               && s'.held == s.held + period && s'.stamp == stamp
            && s'.filled == s.filled + [Packet(stamp, false, data, |s.recording|, s.untold)]
  {
  }

  /** Some periods arrive one after the other, each at a time of its own. */
  ghost predicate Arrive(period: nat, a: State, slices: seq<seq<byte>>, b: State)
    decreases |slices|
  {
    if slices == [] then a == b
    else
      var n := |slices| - 1;
      exists s, stamp :: Arrive(period, a, slices[..n], s) && Arrival(period, s, stamp, slices[n], b)
  }

  ghost predicate Arrival(period: nat, s: State, stamp: nat, data: seq<byte>, b: State) {
    s.stamp <= stamp && !Outside(s) && b == TakeStep(period, s, stamp, data)
  }

  lemma ArriveMore(period: nat, a: State, slices: seq<seq<byte>>, s: State, stamp: nat, data: seq<byte>, b: State)
    requires Arrive(period, a, slices, s) && Arrival(period, s, stamp, data, b)
    ensures Arrive(period, a, slices + [data], b)
  {
    var longer := slices + [data];
    assert longer[..|longer| - 1] == slices;
    assert Arrive(period, a, longer[..|longer| - 1], s) && Arrival(period, s, stamp, longer[|longer| - 1], b);
  }

  // ---- what every step keeps ---------------------------------------------------------------

  function Optional(o: Option<Packet>): seq<Packet> { if o.Some? then [o.value] else [] }

  /** Everything the application has had or will have, in order. */
  ghost function Line(s: State): seq<Packet> { s.delivered + Optional(s.next) + s.filled }

  /** The packets neither get lost nor multiply; only the oldest filled one may be marked. */
  ghost predicate Pooled(period: nat, pool: nat, s: State) {
    && s.free + |s.filled| + Count(s.next) == pool
    && s.held == period * (|s.filled| + Count(s.next))
    && (s.locked ==> s.next.Some?)
    && forall k :: 0 < k < |s.filled| ==> !s.filled[k].mark
  }

  /** The periods come in the order of the recording, each as recorded, at times in order. */
  ghost predicate InLine(line: seq<Packet>, recording: seq<seq<byte>>, stamp: nat) {
    && (forall k :: 0 <= k < |line| ==>
          line[k].number < |recording| && line[k].data == recording[line[k].number] && line[k].stamp <= stamp)
    && (forall i, k :: 0 <= i < k < |line| ==> line[i].number < line[k].number && line[i].stamp <= line[k].stamp)
  }

  ghost predicate Ordered(s: State) { InLine(Line(s), s.recording, s.stamp) }

  /** The clock, the packets and the marks tell of every period recorded but the untold ones. */
  ghost predicate Told(period: nat, s: State) {
    && s.clock + s.held + period * (Marked(s.next) + Marked(Head(s.filled)) + s.untold) == period * |s.recording|
    && (forall k :: 0 <= k < |s.filled| ==>
          s.filled[k].number + s.untold + |s.filled| == |s.recording| + s.filled[k].lag + k)
    && (s.next.Some? ==>
          s.next.value.number + s.untold + |s.filled| + 1 + Marked(Head(s.filled)) == |s.recording| + s.next.value.lag)
  }

  ghost predicate Inv(period: nat, pool: nat, s: State) {
    Pooled(period, pool, s) && Ordered(s) && Told(period, s)
  }

  lemma TakeKeeps(period: nat, pool: nat, s: State, stamp: nat, data: seq<byte>)
    requires Inv(period, pool, s) && s.stamp <= stamp && !Outside(s)
    ensures Inv(period, pool, TakeStep(period, s, stamp, data))
  {
    TakePooled(period, pool, s, stamp, data);
    TakeOrdered(period, s, stamp, data);
    TakeTold(period, pool, s, stamp, data);
  }

  lemma TakePooled(period: nat, pool: nat, s: State, stamp: nat, data: seq<byte>)
    requires Pooled(period, pool, s) && !Outside(s)
    ensures Pooled(period, pool, TakeStep(period, s, stamp, data))
  {
  }

  lemma InLineAdd(line: seq<Packet>, recording: seq<seq<byte>>, stamp: nat, p: Packet)
    requires InLine(line, recording, stamp) && stamp <= p.stamp && p.number == |recording|
    ensures InLine(line + [p], recording + [p.data], p.stamp)
  {
  }

  lemma InLineDrop(line: seq<Packet>, recording: seq<seq<byte>>, stamp: nat, n: nat)
    requires InLine(line, recording, stamp) && n < |line|
    ensures InLine(line[..n] + line[n + 1..], recording, stamp)
  {
  }

  lemma InLineMark(line: seq<Packet>, recording: seq<seq<byte>>, stamp: nat, n: nat)
    requires InLine(line, recording, stamp) && n < |line|
    ensures InLine(line[n := line[n].(mark := true)], recording, stamp)
  {
  }

  /** A line stays in order when some of it is left out and the newest period is added. */
  lemma TakeOrdered(period: nat, s: State, stamp: nat, data: seq<byte>)
    requires Ordered(s) && s.stamp <= stamp && !Outside(s)
    ensures Ordered(TakeStep(period, s, stamp, data))
  {
    if 0 < s.free {
      LineGrows(period, s, stamp, data);
    } else if s.filled != [] {
      if s.filled[0].mark { LineLosesLast(period, s, stamp, data); } else { LineLosesFirst(period, s, stamp, data); }
    }
  }

  lemma LineGrows(period: nat, s: State, stamp: nat, data: seq<byte>)
    requires Ordered(s) && s.stamp <= stamp && 0 < s.free
    ensures Ordered(TakeStep(period, s, stamp, data))
  {
    hide InLine;
    var new' := Packet(stamp, false, data, |s.recording|, s.untold);
    InLineAdd(Line(s), s.recording, s.stamp, new');
    assert Line(TakeStep(period, s, stamp, data)) == Line(s) + [new'];
  }

  lemma LineLosesFirst(period: nat, s: State, stamp: nat, data: seq<byte>)
    requires Ordered(s) && s.stamp <= stamp && s.free == 0 && 1 < |s.filled| && !s.filled[0].mark
    ensures Ordered(TakeStep(period, s, stamp, data))
  {
    hide InLine;
    var front, line := s.delivered + Optional(s.next), Line(s);
    var b, new' := |front|, Packet(stamp, false, data, |s.recording|, s.untold);
    var short, kept := front + s.filled[1..], [s.filled[1].(mark := true)] + s.filled[2..];
    assert line[..b] + line[b + 1..] == short;
    InLineDrop(line, s.recording, s.stamp, b);
    assert short[b] == s.filled[1];
    assert short[b := short[b].(mark := true)] == front + kept;
    InLineMark(short, s.recording, s.stamp, b);
    InLineAdd(front + kept, s.recording, s.stamp, new');
    assert front + kept + [new'] == front + (kept + [new']);
  }

  lemma LineLosesLast(period: nat, s: State, stamp: nat, data: seq<byte>)
    requires Ordered(s) && s.stamp <= stamp && s.free == 0 && s.filled != [] && s.filled[0].mark
    ensures Ordered(TakeStep(period, s, stamp, data))
  {
    hide InLine;
    var line, n, s' := Line(s), |Line(s)| - 1, TakeStep(period, s, stamp, data);
    InLineDrop(line, s.recording, s.stamp, n);
    InLineAdd(line[..n] + line[n + 1..], s.recording, s.stamp, s'.filled[|s.filled| - 1]);
    assert Line(s') == line[..n] + line[n + 1..] + [s'.filled[|s.filled| - 1]];
  }

  lemma OneMore(period: nat, m: nat, r: nat)
    ensures period * (m + 1) == period * m + period && period * (r + 1) == period * r + period
  {
  }

  lemma TakeTold(period: nat, pool: nat, s: State, stamp: nat, data: seq<byte>)
    requires Pooled(period, pool, s) && Told(period, s) && !Outside(s)
    ensures Told(period, TakeStep(period, s, stamp, data))
  {
    OneMore(period, Marked(s.next) + Marked(Head(s.filled)) + s.untold, |s.recording|);
    if s.free == 0 && s.filled != [] {
      if s.filled[0].mark { NewestGoes(period, s, stamp, data); } else { OldestGoes(period, pool, s, stamp, data); }
    }
  }

  lemma OldestGoes(period: nat, pool: nat, s: State, stamp: nat, data: seq<byte>)
    requires Pooled(period, pool, s) && Told(period, s) && s.free == 0 && 1 < |s.filled| && !s.filled[0].mark
    ensures Told(period, TakeStep(period, s, stamp, data))
  {
  }

  lemma NewestGoes(period: nat, s: State, stamp: nat, data: seq<byte>)
    requires Told(period, s) && s.free == 0 && s.filled != [] && s.filled[0].mark
    ensures Told(period, TakeStep(period, s, stamp, data))
  {
  }

  lemma PaddingKeeps(period: nat, pool: nat, s: State)
    requires Inv(period, pool, s)
    ensures Inv(period, pool, PaddingStep(s)) && (PaddingStep(s).locked == s.locked)
  {
    if s.next.None? && s.filled != [] { assert Line(PaddingStep(s)) == Line(s); }
  }

  lemma ReleaseKeeps(period: nat, pool: nat, s: State, whole: bool)
    requires Inv(period, pool, s)
    ensures Inv(period, pool, ReleaseStep(period, s, whole))
  {
    if whole && s.locked {
      var s' := ReleaseStep(period, s, whole);
      assert Line(s') == Line(s);
      ProductsApart(period, |s.filled|, 1);
      ProductsApart(period, Marked(Head(s.filled)) + s.untold, Marked(s.next));
    }
  }

  lemma ProductsApart(period: nat, a: nat, b: nat)
    requires b <= 1
    ensures period * (a + b) == period * a + (if b == 1 then period else 0)
  {
  }

  lemma ResetKeeps(period: nat, pool: nat, s: State)
    requires Inv(period, pool, s)
    ensures Inv(period, pool, ResetStep(s))
  {
    if !s.started && !s.locked {
      var s' := ResetStep(s);
      assert Line(s') == s.delivered == Line(s)[..|s.delivered|];
      assert forall k :: 0 <= k < |s.delivered| ==> Line(s')[k] == Line(s)[k];
    }
  }

  /** Whatever is done with a stream keeps its packets together, in order and told. */
  lemma StepKeeps(period: nat, pool: nat, s: State, op: Op)
    requires Inv(period, pool, s) && Defined(s, op)
    ensures Inv(period, pool, Step(period, s, op))
  {
    hide Inv, TakeStep, PaddingStep, ReleaseStep, ResetStep;
    match op
    case Take(stamp, data) => TakeKeeps(period, pool, s, stamp, data);
    case Padding => PaddingKeeps(period, pool, s);
    case Get => GetKeeps(period, pool, s);
    case Release(whole) => ReleaseKeeps(period, pool, s, whole);
    case Reset => ResetKeeps(period, pool, s);
    case _ => StartStopKeeps(period, pool, s, op.Start?);
  }

  lemma GetKeeps(period: nat, pool: nat, s: State)
    requires Inv(period, pool, s)
    ensures Inv(period, pool, GetStep(s))
  {
    PaddingKeeps(period, pool, s);
  }

  lemma StartStopKeeps(period: nat, pool: nat, s: State, started: bool)
    requires Inv(period, pool, s)
    ensures Inv(period, pool, s.(started := started))
  {
  }

  // ---- runs --------------------------------------------------------------------------------

  ghost predicate IsRun(period: nat, pool: nat, ops: seq<Op>, states: seq<State>) {
    && |states| == |ops| + 1 && states[0] == Init(pool)
    && forall k :: 0 <= k < |ops| ==> Defined(states[k], ops[k]) && states[k + 1] == Step(period, states[k], ops[k])
  }

  lemma InitKept(period: nat, pool: nat)
    ensures Inv(period, pool, Init(pool))
  {
  }

  lemma {:induction false} RunKeeps(period: nat, pool: nat, ops: seq<Op>, states: seq<State>, k: nat)
    requires IsRun(period, pool, ops, states) && k <= |ops|
    ensures Inv(period, pool, states[k])
  {
    hide Step, Defined;
    if k == 0 {
      InitKept(period, pool);
    } else {
      RunKeeps(period, pool, ops, states, k - 1);
      StepKeeps(period, pool, states[k - 1], ops[k - 1]);
    }
  }

  /** A run of some length reaches a state in which the mark would be put outside the pool. */
  ghost predicate GoesOutside(period: nat, pool: nat) {
    exists ops, states :: IsRun(period, pool, ops, states) && Outside(states[|ops|])
  }

  /** That can happen exactly with a pool of one or two packets. */
  lemma OutsideIffSmall(period: nat, pool: nat)
    ensures GoesOutside(period, pool) <==> pool == 1 || pool == 2
  {
    if GoesOutside(period, pool) {
      var ops, states :| IsRun(period, pool, ops, states) && Outside(states[|ops|]);
      RunKeeps(period, pool, ops, states, |ops|);
    }
    if pool == 1 { OutsideWithOne(period); }
    if pool == 2 { OutsideWithTwo(period); }
  }

  // ---- how many packets there are ----------------------------------------------------------

  const SECOND := 10_000_000     // in the units durations and periods are asked for in

  /** A period in frames, to the nearest. */
  function PeriodFrames(period: nat, rate: nat): nat { (period * rate + SECOND / 2) / SECOND }

  /** The frames a duration needs. */
  function BufferFrames(duration: nat, rate: nat): nat { (duration * rate + SECOND - 1) / SECOND }

  /** A size in bytes made up to whole periods. */
  function WholePeriods(bytes: nat, period: nat): nat
    requires 0 < period
  {
    var unalign := bytes % period;
    if unalign == 0 then bytes else bytes + (period - unalign)
  }

  function PoolSize(bytes: nat, period: nat): nat
    requires 0 < period
  {
    WholePeriods(bytes, period) / period
  }

  lemma MulOrder(a: nat, b: nat, m: nat)
    requires 0 < m
    ensures a <= b <==> a * m <= b * m
  {
    if a <= b {
      assert b * m == a * m + (b - a) * m;
    } else {
      assert a * m == b * m + (a - b) * m;
      AtLeast(a - b, m);
    }
  }

  /** A pool has no more than n packets exactly when the bytes fit in n periods, and no less. */
  lemma PoolFits(bytes: nat, period: nat, n: nat)
    requires 0 < period
    ensures PoolSize(bytes, period) <= n <==> bytes <= n * period
    ensures PoolSize(bytes, period) * period == WholePeriods(bytes, period)
  {
    var q, r := bytes / period, bytes % period;
    var k := if r == 0 then q else q + 1;
    assert WholePeriods(bytes, period) == k * period;
    DivMul(k, period);
    MulOrder(k, n, period);
    if r != 0 && n < k { MulOrder(n, q, period); }
  }

  lemma FramesFit(duration: nat, rate: nat, n: nat)
    ensures BufferFrames(duration, rate) <= n <==> duration * rate <= n * SECOND
  {
  }

  /** What a caller can look at before it asks for a stream: some run will put a mark outside the pool
      exactly when the duration is not zero and is no longer than two periods of the stream. */
  lemma OutsideIffShort(duration: nat, period: nat, rate: nat, frame: nat)
    requires 0 < frame && 0 < PeriodFrames(period, rate)
    ensures var bytes := PeriodFrames(period, rate) * frame;
            0 < bytes && (GoesOutside(bytes, PoolSize(BufferFrames(duration, rate) * frame, bytes)) <==>
                          0 < duration * rate <= 2 * PeriodFrames(period, rate) * SECOND)
  {
    hide PeriodFrames, BufferFrames, PoolSize, GoesOutside;
    var whole, frames := PeriodFrames(period, rate), BufferFrames(duration, rate);
    AtLeast(whole, frame);
    OutsideIffSmall(whole * frame, PoolSize(frames * frame, whole * frame));
    SmallPool(frames, whole, frame);
    FramesFit(duration, rate, 0);
    FramesFit(duration, rate, 2 * whole);
  }

  lemma SmallPool(frames: nat, whole: nat, frame: nat)
    requires 0 < frame && 0 < whole * frame
    ensures 0 < PoolSize(frames * frame, whole * frame) <= 2 <==> 0 < frames <= 2 * whole
  {
    hide PoolSize;
    PoolFits(frames * frame, whole * frame, 2);
    PoolFits(frames * frame, whole * frame, 0);
    assert 2 * (whole * frame) == (2 * whole) * frame;
    MulOrder(frames, 2 * whole, frame);
    MulOrder(frames, 0, frame);
  }

  /** For a period of whole frames that is in terms of the times alone. */
  lemma ShortInTime(duration: nat, period: nat, rate: nat)
    requires 0 < rate && (period * rate) % SECOND == 0
    ensures 0 < duration * rate <= 2 * PeriodFrames(period, rate) * SECOND <==> 0 < duration <= 2 * period
  {
    assert PeriodFrames(period, rate) * SECOND == period * rate;
    hide PeriodFrames;
    assert 2 * (period * rate) == (2 * period) * rate;
    MulOrder(duration, 2 * period, rate);
    MulOrder(duration, 0, rate);
  }

  /** The second period finds the only packet filled. */
  lemma OutsideWithOne(period: nat)
    ensures GoesOutside(period, 1)
  {
    var s0 := Init(1);
    var s1 := s0.(started := true);
    var s2 := TakeStep(period, s1, 0, []);
    var ops, states := [Start, Take(0, [])], [s0, s1, s2];
    assert states[1] == Step(period, states[0], ops[0]);
    assert states[2] == Step(period, states[1], ops[1]);
    assert IsRun(period, 1, ops, states) && Outside(states[|ops|]);
  }

  /** The application holds one packet, and the third period finds the other one filled. */
  lemma OutsideWithTwo(period: nat)
    ensures GoesOutside(period, 2)
  {
    var s0 := Init(2);
    var s1 := s0.(started := true);
    var s2 := TakeStep(period, s1, 0, []);
    var s3 := GetStep(s2);
    var s4 := TakeStep(period, s3, 0, []);
    var ops, states := [Start, Take(0, []), Get, Take(0, [])], [s0, s1, s2, s3, s4];
    assert states[1] == Step(period, states[0], ops[0]);
    assert states[2] == Step(period, states[1], ops[1]);
    assert states[3] == Step(period, states[2], ops[2]);
    assert states[4] == Step(period, states[3], ops[3]);
    assert IsRun(period, 2, ops, states) && Outside(states[|ops|]);
  }

  /** The position told with a packet is that of its period less what was lost untold before it, so it
      is right if and only if nothing was. */
  lemma PositionTold(period: nat, pool: nat, s: State)
    requires Inv(period, pool, s) && s.next.Some? && 0 < period
    ensures s.next.value.lag <= s.next.value.number
    ensures Position(period, s.clock, s.next.value) == period * (s.next.value.number - s.next.value.lag)
    ensures Position(period, s.clock, s.next.value) == period * s.next.value.number <==> s.next.value.lag == 0
  {
    var p, n, h := s.next.value, |s.filled|, Marked(Head(s.filled));
    assert s.held == period * (n + 1);
    assert p.number - p.lag == |s.recording| - s.untold - n - 1 - h;
    Sum(period, s.clock, Marked(s.next), n + 1, h + s.untold, |s.recording|);
  }

  lemma Sum(period: nat, clock: nat, m: nat, n: nat, u: nat, r: nat)
    requires 0 < period && m <= 1 && clock + period * n + period * (m + u) == period * r
    ensures n + u <= r && clock + (if m == 1 then period else 0) == period * (r - n - u)
  {
  }

  /** Between packets handed out one after the other exactly the marks and the untold losses are missing. */
  lemma GapsTold(period: nat, pool: nat, s: State)
    requires Inv(period, pool, s)
    ensures s.next.Some? && s.filled != [] ==>
              s.filled[0].number - s.next.value.number
                == 1 + Marked(Head(s.filled)) + s.filled[0].lag - s.next.value.lag
    ensures forall k :: 0 < k < |s.filled| ==>
              !s.filled[k].mark && s.filled[k].number - s.filled[k - 1].number
                == 1 + s.filled[k].lag - s.filled[k - 1].lag
  {
  }

  // ---- positions over runs -----------------------------------------------------------------

  /** A period goes without a trace: the newest is dropped because the oldest has its mark already, or a
      mark is thrown away with the packets of a reset. */
  ghost predicate Loses(s: State, op: Op) {
    match op
    case Take(_, _) => s.free == 0 && s.filled != [] && s.filled[0].mark
    case Reset => !s.started && !s.locked && 0 < Marked(s.next) + Marked(Head(s.filled))
    case _ => false
  }

  lemma StepUntold(period: nat, s: State, op: Op)
    requires Defined(s, op)
    ensures var s' := Step(period, s, op); s.untold <= s'.untold && (s.untold < s'.untold <==> Loses(s, op))
  {
  }

  lemma {:induction false} RunUntold(period: nat, pool: nat, ops: seq<Op>, states: seq<State>, k: nat)
    requires IsRun(period, pool, ops, states) && k <= |ops|
    ensures states[k].untold == 0 <==> forall j :: 0 <= j < k ==> !Loses(states[j], ops[j])
  {
    hide Step, Defined, Loses;
    if k != 0 {
      RunUntold(period, pool, ops, states, k - 1);
      StepUntold(period, states[k - 1], ops[k - 1]);
    }
  }

  /** A packet holds what operation i recorded. */
  ghost predicate Recorded(p: Packet, s: State, op: Op, s': State) {
    && op.Take? && p.number == |s.recording| < |s'.recording|
    && p.data == op.data && p.stamp == op.stamp && p.lag == s'.untold
  }

  ghost predicate FromRun(ops: seq<Op>, states: seq<State>, k: nat, p: Packet)
    requires |states| == |ops| + 1 && k <= |ops|
  {
    exists i :: 0 <= i < k && Recorded(p, states[i], ops[i], states[i + 1])
  }

  ghost predicate At(s: State, p: Packet) { p in Optional(s.next) || p in s.filled }

  /** Every packet after a step was there before, but for a mark, or was recorded by the step. */
  lemma StepTraced(period: nat, s: State, op: Op, p: Packet)
    requires Defined(s, op) && At(Step(period, s, op), p)
    ensures At(s, p) || At(s, p.(mark := false)) || Recorded(p, s, op, Step(period, s, op))
  {
  }

  lemma {:induction false} RunTraced(period: nat, pool: nat, ops: seq<Op>, states: seq<State>, k: nat, p: Packet)
    requires IsRun(period, pool, ops, states) && k <= |ops| && At(states[k], p)
    ensures FromRun(ops, states, k, p)
  {
    hide Step, Defined, At;
    if k == 0 {
      NoneAtStart(pool, p);
    } else {
      StepTraced(period, states[k - 1], ops[k - 1], p);
      if !Recorded(p, states[k - 1], ops[k - 1], states[k]) {
        var q := if At(states[k - 1], p) then p else p.(mark := false);
        RunTraced(period, pool, ops, states, k - 1, q);
        var i :| 0 <= i < k - 1 && Recorded(q, states[i], ops[i], states[i + 1]);
        assert Recorded(p, states[i], ops[i], states[i + 1]);
      }
    }
  }

  lemma NoneAtStart(pool: nat, p: Packet)
    ensures !At(Init(pool), p)
  {
  }

  /** Whenever the application looks at a packet, that packet was recorded by some operation of the run,
      and the position told with it is that of its period if and only if no operation up to that one
      lost a period without a trace. */
  lemma PositionExactIff(period: nat, pool: nat, ops: seq<Op>, states: seq<State>, k: nat) returns (i: nat)
    requires IsRun(period, pool, ops, states) && k <= |ops| && states[k].next.Some? && 0 < period
    ensures i < k && Recorded(states[k].next.value, states[i], ops[i], states[i + 1])
    ensures Position(period, states[k].clock, states[k].next.value) == period * states[k].next.value.number <==>
            forall j :: 0 <= j <= i ==> !Loses(states[j], ops[j])
  {
    hide Step, Defined, Loses;
    var p := states[k].next.value;
    assert At(states[k], p);
    RunKeeps(period, pool, ops, states, k);
    PositionTold(period, pool, states[k]);
    RunTraced(period, pool, ops, states, k, p);
    i :| 0 <= i < k && Recorded(p, states[i], ops[i], states[i + 1]);
    RunUntold(period, pool, ops, states, i + 1);
  }
}
