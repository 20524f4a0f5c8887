/** What the render side of a PulseAudio stream means, on values: a bounded queue of bytes that
    PulseAudio drains, a paced clock that only counts, and one buffer granted to the application. */
module RenderModel {
  import opened Common

  /** The sizes fixed when a stream is created. The ring is twice the size the application sees. */
  datatype Geometry = Geometry(frame: nat, bufFrames: nat, ring: nat, periodFrames: nat, silence: byte) {
    ghost predicate Valid() {
      && 0 < frame && 0 < bufFrames
      && ring == Bytes(bufFrames) + Bytes(bufFrames)
      && 0 < ring < 0x8000_0000
    }

    /** So many frames, in bytes. */
    function Bytes(frames: nat): nat {
      if frames == 0 then 0 else frame + Bytes(frames - 1)
    }

    lemma {:induction false} Product(frames: nat)
      ensures Bytes(frames) == frames * frame
    {
      if frames != 0 {
        Product(frames - 1);
        assert frames * frame == (frames - 1) * frame + frame;
      }
    }

    lemma {:induction false} Sum(a: nat, b: nat)
      ensures Bytes(a + b) == Bytes(a) + Bytes(b)
    {
      if b != 0 { Sum(a, b - 1); }
    }

    /** Counting in frames and counting in bytes agree. */
    lemma Order(a: nat, b: nat)
      requires 0 < frame
      ensures a <= b <==> Bytes(a) <= Bytes(b)
    {
    }
  }

  datatype Hresult =
    | Ok | DeviceInvalidated | OutOfOrder | BufferTooLarge | OutOfMemory | InvalidSize
    | NotStopped | OperationPending | EventHandleNotSet | Fail | False

  /** The buffer handed out by GetBuffer: a stretch of the ring itself, or a separate buffer when
      that stretch would cross the end of the ring. */
  datatype Grant = Nothing | Grant(direct: bool, frames: nat, data: seq<byte>) {
    function Frames(): nat { if Nothing? then 0 else frames }
  }

  /** Underrun silence: how much was sent, and how many stream bytes had been sent before it. */
  datatype Gap = Gap(at: nat, length: nat)

  datatype Fifo = Fifo(
    pending: seq<byte>,   // released, not yet handed to PulseAudio
    held: nat,            // frames the paced clock has yet to consume
    wpos: nat,            // where in the ring the next released byte goes
    grant: Grant,
    started: bool,
    underran: bool,
    sent: seq<byte>,      // stream bytes handed to PulseAudio
    gaps: seq<Gap>,       // silence handed to PulseAudio in between
    released: seq<byte>)  // every byte the application has released since the last reset

  datatype Op =
    | Get(ready: bool, frames: nat, tmpOk: bool)
    | Fill(at: nat, bytes: seq<byte>)
    | Release(frames: nat, silent: bool, writable: nat)
    | Tick(timed: bool, writable: nat)
    | Underflow
    | Start(ready: bool, noEvent: bool, writable: nat, uncorked: bool)
    | Stop(ready: bool, corked: bool)
    | Reset(ready: bool, flushed: bool)

  function Min(a: nat, b: nat): nat { if a <= b then a else b }

  /** Where position x lands in a ring, for x at most one turn ahead. */
  function Wrap(x: nat, ring: nat): nat { if x < ring then x else x - ring }

  /** A grant inside the ring shares the ring with the oldest pending bytes when both do not fit:
      the pending bytes as they read while the granted bytes are `data`. */
  function Overlay(pending: seq<byte>, data: seq<byte>, ring: nat): (r: seq<byte>)
    requires |pending| <= ring && |data| <= ring
    ensures |r| == |pending|
  {
    if |pending| + |data| <= ring then pending
    else data[ring - |pending|..] + pending[|pending| + |data| - ring..]
  }

  /** Appending to a full queue drops its oldest bytes. */
  function Append(pending: seq<byte>, data: seq<byte>, ring: nat): seq<byte> {
    var all := pending + data;
    if |all| <= ring then all else all[|all| - ring..]
  }

  ghost predicate Inv(g: Geometry, s: Fifo) {
    && g.Valid()
    && |s.pending| <= g.ring
    && s.wpos < g.ring
    && s.held + s.grant.Frames() <= g.bufFrames
    && (s.grant.Grant? ==>
         && 0 < s.grant.frames && |s.grant.data| == g.Bytes(s.grant.frames)
         && (s.grant.direct <==> s.wpos + |s.grant.data| <= g.ring))
  }

  // ---- one operation at a time -------------------------------------------------------------

  function WriteStep(s: Fifo, writable: nat): Fifo {
    var m := Min(|s.pending|, writable);
    s.(sent := s.sent + s.pending[..m],
       pending := s.pending[m..],
       gaps := if s.underran && |s.pending| < writable
               then s.gaps + [Gap(|s.sent|, writable - |s.pending|)] else s.gaps,
       underran := false)
  }

  function GetResult(g: Geometry, s: Fifo, ready: bool, frames: nat, tmpOk: bool): Hresult {
    if !ready then DeviceInvalidated
    else if s.grant.Grant? then OutOfOrder
    else if frames == 0 then Ok
    else if g.bufFrames < s.held + frames then BufferTooLarge
    else if g.ring < s.wpos + g.Bytes(frames) && !tmpOk then OutOfMemory
    else Ok
  }

  ghost function GetStep(g: Geometry, s: Fifo, ready: bool, frames: nat, tmpOk: bool): Fifo
    requires Inv(g, s)
  {
    if GetResult(g, s, ready, frames, tmpOk) == Ok && frames != 0 then
      GrantHalfRing(g, s.held, frames);
      var data := Silence(g.silence, g.Bytes(frames));
      if s.wpos + |data| <= g.ring then
        s.(grant := Grant(true, frames, data), pending := Overlay(s.pending, data, g.ring))
      else
        s.(grant := Grant(false, frames, data))
    else s
  }

  ghost predicate FillFits(s: Fifo, at: nat, bytes: seq<byte>) {
    s.grant.Grant? && at + |bytes| <= |s.grant.data|
  }

  ghost function FillStep(g: Geometry, s: Fifo, at: nat, bytes: seq<byte>): Fifo
    requires Inv(g, s) && FillFits(s, at, bytes)
  {
    GrantHalfRing(g, s.held, s.grant.frames);
    var data := Patch(s.grant.data, at, bytes);
    s.(grant := s.grant.(data := data),
       pending := if s.grant.direct then Overlay(s.pending, data, g.ring) else s.pending)
  }

  function ReleaseResult(s: Fifo, frames: nat): Hresult {
    if frames == 0 then Ok
    else if s.grant.Nothing? then OutOfOrder
    else if s.grant.frames < frames then InvalidSize
    else Ok
  }

  /** The bytes a successful release of `frames` frames adds to the stream. */
  ghost function Released(g: Geometry, s: Fifo, frames: nat, silent: bool): (r: seq<byte>)
    requires Inv(g, s) && s.grant.Grant? && frames <= s.grant.frames
    ensures |r| == g.Bytes(frames) <= |s.grant.data|
  {
    g.Order(frames, s.grant.frames);
    if silent then Silence(g.silence, g.Bytes(frames)) else s.grant.data[..g.Bytes(frames)]
  }

  function AfterRelease(g: Geometry, s: Fifo, frames: nat, data: seq<byte>): Fifo {
    s.(pending := Append(s.pending, data, g.ring),
       held := s.held + frames,
       wpos := Wrap(s.wpos + |data|, g.ring),
       grant := Nothing,
       released := s.released + data)
  }

  ghost function ReleaseStep(g: Geometry, s: Fifo, frames: nat, silent: bool, writable: nat): Fifo
    requires Inv(g, s)
  {
    if s.grant.Nothing? || frames == 0 then s.(grant := Nothing)
    else if s.grant.frames < frames then s
    else
      WriteStep(AfterRelease(g, s, frames, Released(g, s, frames, silent)), writable)
  }

  function TickStep(g: Geometry, s: Fifo, timed: bool, writable: nat): Fifo {
    if timed && s.started && 0 < s.held then
      WriteStep(s, writable).(held := s.held - Min(g.periodFrames, s.held))
    else s
  }

  function ResetResult(s: Fifo, ready: bool): Hresult {
    if !ready then DeviceInvalidated
    else if s.started then NotStopped
    else if s.grant.Grant? then OperationPending
    else Ok
  }

  function ResetStep(s: Fifo, ready: bool, flushed: bool): Fifo {
    if ResetResult(s, ready) == Ok && (flushed || s.held == 0) then
      s.(pending := [], held := 0, wpos := 0, sent := [], gaps := [], released := [])
    else s
  }

  /** `noEvent`: the stream is to be driven by an event that has not been set. */
  function StartResult(s: Fifo, ready: bool, noEvent: bool, uncorked: bool): Hresult {
    if !ready then Ok else if noEvent then EventHandleNotSet
    else if s.started then NotStopped else if uncorked then Ok else Fail
  }

  function StartStep(s: Fifo, ready: bool, noEvent: bool, writable: nat, uncorked: bool): Fifo {
    if !ready || noEvent || s.started then s else WriteStep(s, writable).(started := uncorked)
  }

  function StopResult(s: Fifo, ready: bool, corked: bool): Hresult {
    if !ready then DeviceInvalidated else if !s.started then False else if corked then Ok else Fail
  }

  function StopStep(s: Fifo, ready: bool, corked: bool): Fifo {
    if ready && corked then s.(started := false) else s
  }

  /** The application writes only inside the buffer it holds; everything else may always happen. */
  ghost predicate Enabled(s: Fifo, op: Op) {
    op.Fill? ==> FillFits(s, op.at, op.bytes)
  }

  ghost function Step(g: Geometry, s: Fifo, op: Op): Fifo
    requires Inv(g, s) && Enabled(s, op)
  {
    match op
    case Get(ready, frames, tmpOk) => GetStep(g, s, ready, frames, tmpOk)
    case Fill(at, bytes) => FillStep(g, s, at, bytes)
    case Release(frames, silent, writable) => ReleaseStep(g, s, frames, silent, writable)
    case Tick(timed, writable) => TickStep(g, s, timed, writable)
    case Underflow => s.(underran := true)
    case Start(ready, noEvent, writable, uncorked) => StartStep(s, ready, noEvent, writable, uncorked)
    case Stop(ready, corked) => StopStep(s, ready, corked)
    case Reset(ready, flushed) => ResetStep(s, ready, flushed)
  }

  // ---- arithmetic of frames and bytes ------------------------------------------------------

  lemma ModWrap(x: nat, m: nat)
    requires x < m + m
    ensures x % m == Wrap(x, m)
  {
  }

  /** Dropping what does not fit moves the oldest byte to where the newest one ends. */
  lemma DropPosition(w: nat, p: nat, n: nat, ring: nat)
    requires w < ring && p <= ring && n <= ring
    ensures var all := Min(p + n, ring);
            Wrap(Wrap(w + ring - p, ring) + (p + n - all), ring) == Wrap(Wrap(w + n, ring) + ring - all, ring)
  {
  }

  lemma GrantHalfRing(g: Geometry, held: nat, frames: nat)
    requires g.Valid() && held + frames <= g.bufFrames
    ensures g.Bytes(frames) + g.Bytes(frames) <= g.ring
  {
    g.Order(frames, g.bufFrames);
  }

  // ---- runs --------------------------------------------------------------------------------

  lemma WriteKeepsInv(g: Geometry, s: Fifo, writable: nat)
    requires Inv(g, s)
    ensures Inv(g, WriteStep(s, writable))
  {
  }

  lemma ClockKeepsInv(g: Geometry, s: Fifo, frames: nat)
    requires Inv(g, s) && frames <= s.held
    ensures Inv(g, s.(held := s.held - frames)) && g.Valid() && s.held <= g.bufFrames
  {
  }

  /** One period of the clock, in frames and in bytes. */
  lemma PeriodBytes(g: Geometry, s: Fifo)
    requires Inv(g, s)
    ensures var frames := Min(g.periodFrames, s.held);
            && frames <= s.held
            && g.Bytes(frames) == Min(g.Bytes(g.periodFrames), g.Bytes(s.held))
            && g.Bytes(s.held - frames) == g.Bytes(s.held) - g.Bytes(frames)
    ensures Min(g.Bytes(g.periodFrames), g.Bytes(s.held)) ==
            if g.Bytes(g.periodFrames) < g.Bytes(s.held) then g.Bytes(g.periodFrames) else g.Bytes(s.held)
    ensures 0 < g.ring && g.Bytes(s.held) <= g.ring
  {
    var frames := Min(g.periodFrames, s.held);
    g.Order(g.periodFrames, s.held);
    g.Sum(s.held - frames, frames);
    GrantHalfRing(g, 0, s.held);
  }

  lemma GetKeepsInv(g: Geometry, s: Fifo, ready: bool, frames: nat, tmpOk: bool)
    requires Inv(g, s)
    ensures Inv(g, GetStep(g, s, ready, frames, tmpOk))
  {
    if GetResult(g, s, ready, frames, tmpOk) == Ok && frames != 0 { GrantHalfRing(g, s.held, frames); }
  }

  lemma FillKeepsInv(g: Geometry, s: Fifo, at: nat, bytes: seq<byte>)
    requires Inv(g, s) && FillFits(s, at, bytes)
    ensures Inv(g, FillStep(g, s, at, bytes))
  {
    GrantHalfRing(g, s.held, s.grant.frames);
  }

  /** There is room in the sizes of a stream for a release of part of the grant. */
  lemma ReleaseRoom(g: Geometry, s: Fifo, frames: nat)
    requires Inv(g, s) && s.grant.Grant? && frames <= s.grant.frames
    ensures g.Valid() && s.wpos < g.ring && s.held + frames <= g.bufFrames
    ensures g.Bytes(frames) <= |s.grant.data| && g.Bytes(s.held + frames) + g.Bytes(s.held + frames) <= g.ring
  {
    g.Order(frames, s.grant.frames);
    GrantHalfRing(g, 0, s.held + frames);
  }

  lemma AfterReleaseInv(g: Geometry, s: Fifo, frames: nat, data: seq<byte>)
    requires Inv(g, s) && s.held + frames <= g.bufFrames && |data| <= g.ring
    ensures Inv(g, AfterRelease(g, s, frames, data))
  {
  }

  lemma ReleaseKeepsInv(g: Geometry, s: Fifo, frames: nat, silent: bool, writable: nat)
    requires Inv(g, s)
    ensures Inv(g, ReleaseStep(g, s, frames, silent, writable))
  {
    if s.grant.Grant? && 0 < frames <= s.grant.frames {
      ReleaseRoom(g, s, frames);
      g.Sum(s.held, frames);
      var data := Released(g, s, frames, silent);
      AfterReleaseInv(g, s, frames, data);
      WriteKeepsInv(g, AfterRelease(g, s, frames, data), writable);
    }
  }

  lemma StepKeepsInv(g: Geometry, s: Fifo, op: Op)
    requires Inv(g, s) && Enabled(s, op)
    ensures Inv(g, Step(g, s, op))
  {
    hide WriteStep, GetStep, FillStep, ReleaseStep;
    match op
    case Get(ready, frames, tmpOk) => GetKeepsInv(g, s, ready, frames, tmpOk);
    case Fill(at, bytes) => FillKeepsInv(g, s, at, bytes);
    case Release(frames, silent, writable) => ReleaseKeepsInv(g, s, frames, silent, writable);
    case Tick(_, writable) =>
      WriteKeepsInv(g, s, writable);
      WriteHolds(s, writable);
    case Start(_, _, writable, _) => WriteKeepsInv(g, s, writable);
    case _ =>
  }

  /** What a write leaves alone. */
  lemma WriteHolds(s: Fifo, writable: nat)
    ensures var s' := WriteStep(s, writable);
            (s'.held, s'.wpos, s'.grant, s'.started, s'.released) == (s.held, s.wpos, s.grant, s.started, s.released)
  {
  }

  /** Between GetBuffer and ReleaseBuffer nothing moves the place the next byte goes, however many
      ticks, writes and refused calls come in between: the release writes where the grant was. */
  lemma {:induction false} GrantStaysPut(g: Geometry, ops: seq<Op>, states: seq<Fifo>)
    requires IsRun(g, ops, states) && states[0].grant.Grant?
    requires forall i :: 0 <= i < |ops| ==> !ops[i].Release?
    ensures forall i :: 0 <= i < |states| ==>
              && states[i].wpos == states[0].wpos && states[i].grant.Grant?
              && states[i].grant.direct == states[0].grant.direct
              && states[i].grant.frames == states[0].grant.frames
  {
    for k := 0 to |ops|
      invariant forall i :: 0 <= i <= k ==>
                  && states[i].wpos == states[0].wpos && states[i].grant.Grant?
                  && states[i].grant.direct == states[0].grant.direct
                  && states[i].grant.frames == states[0].grant.frames
    {
      assert states[k + 1] == Step(g, states[k], ops[k]);
    }
  }

  /** What the application released is, in order, what PulseAudio was given followed by what is
      still pending. */
  ghost predicate Exact(s: Fifo) { s.sent + s.pending == s.released }

  /** The granted bytes and the pending ones fit in the ring together. */
  ghost predicate Apart(g: Geometry, s: Fifo) {
    s.grant.Grant? && s.grant.direct ==> |s.pending| + |s.grant.data| <= g.ring
  }

  /** The stream is a FIFO, and stays one whatever the application writes to the buffer it holds. */
  ghost predicate Good(g: Geometry, s: Fifo)
    requires Inv(g, s)
  {
    Exact(s) && forall at, bytes :: FillFits(s, at, bytes) ==> Exact(FillStep(g, s, at, bytes))
  }

  /** A write reaches pending bytes exactly when they and the grant do not fit in the ring together. */
  lemma GoodIffApart(g: Geometry, s: Fifo)
    requires Inv(g, s)
    ensures Good(g, s) <==> Exact(s) && Apart(g, s)
  {
    if Exact(s) && Apart(g, s) {
      forall at, bytes | FillFits(s, at, bytes) ensures Exact(FillStep(g, s, at, bytes)) {}
    } else if Exact(s) {
      var at, other: byte := g.ring - |s.pending|, if s.pending[0] == 0 then 1 else 0;
      assert FillFits(s, at, [other]);
      var s' := FillStep(g, s, at, [other]);
      assert s'.pending[0] == other;
      assert (s.sent + s'.pending)[|s.sent|] == other && (s.sent + s.pending)[|s.sent|] == s.pending[0];
    }
  }

  /** What a caller could test before an operation: the ring has room, beside what PulseAudio has
      yet to take, for a grant inside the ring, and for the bytes of a release. */
  ghost predicate Roomy(g: Geometry, s: Fifo, op: Op)
    requires Inv(g, s)
  {
    match op
    case Get(ready, frames, tmpOk) =>
      GetResult(g, s, ready, frames, tmpOk) == Ok && s.wpos + g.Bytes(frames) <= g.ring && frames != 0 ==>
        |s.pending| + g.Bytes(frames) <= g.ring
    case Release(frames, silent, _) =>
      s.grant.Grant? && frames <= s.grant.frames && frames != 0 ==>
        |s.pending| + |Released(g, s, frames, silent)| <= g.ring
    case _ => true
  }

  lemma WriteKeepsExact(s: Fifo, writable: nat)
    ensures Exact(WriteStep(s, writable)) <==> Exact(s)
  {
  }

  lemma ReleaseExactIffRoomy(g: Geometry, s: Fifo, frames: nat, silent: bool, writable: nat)
    requires Inv(g, s) && Exact(s) && s.grant.Grant? && 0 < frames <= s.grant.frames
    ensures Exact(ReleaseStep(g, s, frames, silent, writable)) <==>
            |s.pending| + |Released(g, s, frames, silent)| <= g.ring
  {
  }

  /** The exact condition under which one operation keeps the stream a FIFO, whatever is written. */
  lemma {:induction false} StepGoodIffRoomy(g: Geometry, s: Fifo, op: Op)
    requires Inv(g, s) && Enabled(s, op) && Good(g, s)
    ensures Inv(g, Step(g, s, op)) && (Good(g, Step(g, s, op)) <==> Roomy(g, s, op))
  {
    GoodIffApart(g, s);
    StepKeepsInv(g, s, op);
    GoodIffApart(g, Step(g, s, op));
    StepApartIffRoomy(g, s, op);
  }

  lemma {:induction false} StepApartIffRoomy(g: Geometry, s: Fifo, op: Op)
    requires Inv(g, s) && Enabled(s, op) && Exact(s) && Apart(g, s)
    ensures var s' := Step(g, s, op); Exact(s') && Apart(g, s') <==> Roomy(g, s, op)
  {
    match op
    case Release(frames, silent, writable) =>
      if s.grant.Grant? && 0 < frames <= s.grant.frames {
        ReleaseExactIffRoomy(g, s, frames, silent, writable);
      }
    case Tick(_, writable) => WriteKeepsExact(s, writable);
    case Start(_, _, writable, _) => WriteKeepsExact(s, writable);
    case _ =>
  }

  /** A run: the states before each operation and after the last one. */
  ghost predicate IsRun(g: Geometry, ops: seq<Op>, states: seq<Fifo>) {
    && |states| == |ops| + 1
    && (forall i :: 0 <= i < |states| ==> Inv(g, states[i]))
    && (forall i :: 0 <= i < |ops| ==> Enabled(states[i], ops[i]) && states[i + 1] == Step(g, states[i], ops[i]))
  }

  /** A run can always go on: the invariant it passes through is no restriction. */
  lemma RunGoesOn(g: Geometry, ops: seq<Op>, states: seq<Fifo>, op: Op)
    requires IsRun(g, ops, states) && Enabled(states[|ops|], op)
    ensures IsRun(g, ops + [op], states + [Step(g, states[|ops|], op)])
  {
    hide Inv, Step, Enabled;
    StepKeepsInv(g, states[|ops|], op);
  }

  /** Over every run, from a good state: the stream is a FIFO at every point, whatever the application
      writes, if and only if every grant and every release found room. */
  lemma {:induction false} RunGoodIffRoomy(g: Geometry, ops: seq<Op>, states: seq<Fifo>)
    requires IsRun(g, ops, states) && Good(g, states[0])
    ensures (forall i :: 0 <= i < |states| ==> Good(g, states[i])) <==>
            (forall i :: 0 <= i < |ops| ==> Roomy(g, states[i], ops[i]))
  {
    hide Inv, Step, Good, Roomy;
    if forall i :: 0 <= i < |ops| ==> Roomy(g, states[i], ops[i]) {
      for k := 0 to |ops|
        invariant forall i :: 0 <= i <= k ==> Good(g, states[i])
      {
        StepGoodIffRoomy(g, states[k], ops[k]);
      }
    } else {
      var k :| 0 <= k < |ops| && !Roomy(g, states[k], ops[k]);
      if Good(g, states[k]) {
        StepGoodIffRoomy(g, states[k], ops[k]);
        assert !Good(g, states[k + 1]);
      }
    }
  }

  /** Room at GetBuffer, whether or not the grant wraps. */
  ghost predicate GetFits(g: Geometry, s: Fifo, op: Op) {
    op.Get? ==> |s.pending| + g.Bytes(op.frames) <= g.ring
  }

  ghost predicate GrantFits(g: Geometry, s: Fifo) {
    s.grant.Grant? ==> |s.pending| + |s.grant.data| <= g.ring
  }

  lemma {:induction false} GrantFitsKept(g: Geometry, s: Fifo, op: Op)
    requires Inv(g, s) && Enabled(s, op) && GrantFits(g, s) && GetFits(g, s, op)
    ensures GrantFits(g, Step(g, s, op)) && Roomy(g, s, op)
  {
  }

  /** If every GetBuffer finds the ring big enough for the pending bytes and the request, then at
      every point of the run PulseAudio has been given exactly the first bytes released, in order,
      and the rest are pending: nothing lost, repeated or torn, whatever ticks come in between. */
  lemma {:induction false} FifoWhenGetsFit(g: Geometry, ops: seq<Op>, states: seq<Fifo>)
    requires IsRun(g, ops, states) && Exact(states[0]) && states[0].grant.Nothing?
    requires forall i :: 0 <= i < |ops| ==> GetFits(g, states[i], ops[i])
    ensures forall i :: 0 <= i < |states| ==> states[i].sent + states[i].pending == states[i].released
  {
    for k := 0 to |ops|
      invariant forall i :: 0 <= i < k ==> Roomy(g, states[i], ops[i])
      invariant GrantFits(g, states[k])
    {
      GrantFitsKept(g, states[k], ops[k]);
    }
    GoodIffApart(g, states[0]);
    RunGoodIffRoomy(g, ops, states);
    assert forall i :: 0 <= i < |states| ==> Good(g, states[i]);
  }

  // ---- how much PulseAudio is given --------------------------------------------------------

  /** What PulseAudio will take at an operation that serves it, when nothing is granted or released. */
  function Offered(s: Fifo, op: Op): nat {
    match op
    case Tick(timed, writable) => if timed && s.started && 0 < s.held then writable else 0
    case Start(ready, noEvent, writable, _) => if ready && !noEvent && !s.started then writable else 0
    case _ => 0
  }

  ghost function OfferedUpTo(ops: seq<Op>, states: seq<Fifo>, k: nat): nat
    requires k <= |ops| <= |states|
  {
    if k == 0 then 0 else OfferedUpTo(ops, states, k - 1) + Offered(states[k - 1], ops[k - 1])
  }

  ghost predicate OnlyServes(ops: seq<Op>) {
    forall i :: 0 <= i < |ops| ==> ops[i].Tick? || ops[i].Underflow? || ops[i].Start? || ops[i].Stop?
  }

  /** The first n pending bytes of an earlier state have been sent since, and nothing else. */
  ghost predicate HasSent(a: Fifo, b: Fifo, n: nat) {
    && n <= |a.pending| && b.released == a.released
    && b.sent == a.sent + a.pending[..n] && b.pending == a.pending[n..]
  }

  /** As long as the application grants and releases nothing, PulseAudio gets the pending bytes in order, as
      many as it was willing to take altogether, and they are all the stream sends. */
  lemma {:induction false} Drains(g: Geometry, ops: seq<Op>, states: seq<Fifo>, k: nat)
    requires IsRun(g, ops, states) && OnlyServes(ops) && k <= |ops|
    ensures HasSent(states[0], states[k], Min(OfferedUpTo(ops, states, k), |states[0].pending|))
  {
    hide Inv, Step, Enabled, Offered;
    if k != 0 {
      Drains(g, ops, states, k - 1);
      var s, op := states[k - 1], ops[k - 1];
      assert states[k] == Step(g, s, op);
      ServedBy(g, s, op);
      hide HasSent;
      SentMore(states[0], s, states[k], OfferedUpTo(ops, states, k - 1), Offered(s, op));
    }
  }

  lemma SentMore(a: Fifo, b: Fifo, c: Fifo, n: nat, m: nat)
    requires HasSent(a, b, Min(n, |a.pending|)) && HasSent(b, c, Min(m, |b.pending|))
    ensures HasSent(a, c, Min(n + m, |a.pending|))
  {
    SplitOn(a.pending, Min(n, |a.pending|), Min(m, |b.pending|));
  }

  lemma ServedBy(g: Geometry, s: Fifo, op: Op)
    requires Inv(g, s) && (op.Tick? || op.Underflow? || op.Start? || op.Stop?)
    ensures HasSent(s, Step(g, s, op), Min(Offered(s, op), |s.pending|))
  {
  }

  lemma SplitOn(p: seq<byte>, n: nat, m: nat)
    requires n <= |p| && m <= |p| - n
    ensures p[..n] + p[n..][..m] == p[..n + m] && p[n..][m..] == p[n + m..]
  {
  }

  /** So a FIFO stream has given PulseAudio everything exactly when it has been willing to take as much as
      was pending. */
  lemma DrainedIff(g: Geometry, ops: seq<Op>, states: seq<Fifo>, k: nat)
    requires IsRun(g, ops, states) && OnlyServes(ops) && k <= |ops| && Exact(states[0])
    ensures states[k].sent == states[k].released <==> |states[0].pending| <= OfferedUpTo(ops, states, k)
  {
    Drains(g, ops, states, k);
  }

  /** Ticks do not serve PulseAudio once the paced clock has consumed what was released: what is pending then
      stays, however many ticks come. */
  lemma {:induction false} ClockRunsOut(g: Geometry, ops: seq<Op>, states: seq<Fifo>, k: nat)
    requires IsRun(g, ops, states) && k <= |ops| && states[0].held == 0
    requires forall i :: 0 <= i < |ops| ==> ops[i].Tick? || ops[i].Underflow?
    ensures states[k].held == 0 && states[k].pending == states[0].pending && states[k].sent == states[0].sent
  {
    if k != 0 {
      ClockRunsOut(g, ops, states, k - 1);
      assert states[k] == Step(g, states[k - 1], ops[k - 1]);
    }
  }

  /** A release without room loses the oldest bytes for good: the count never recovers before a
      reset. */
  ghost predicate Short(s: Fifo) { |s.sent| + |s.pending| < |s.released| }

  lemma {:induction false} LossIsForGood(g: Geometry, ops: seq<Op>, states: seq<Fifo>)
    requires IsRun(g, ops, states) && Short(states[0])
    requires forall i :: 0 <= i < |ops| ==> !ops[i].Reset?
    ensures forall i :: 0 <= i < |states| ==> Short(states[i])
  {
    for k := 0 to |ops|
      invariant forall i :: 0 <= i <= k ==> Short(states[i])
    {
      StepKeepsShort(g, states[k], ops[k]);
    }
  }

  lemma {:induction false} StepKeepsShort(g: Geometry, s: Fifo, op: Op)
    requires Inv(g, s) && Enabled(s, op) && Short(s) && !op.Reset?
    ensures Short(Step(g, s, op))
  {
  }

  /** The other failure: a grant inside the ring that overlaps pending bytes silences exactly the
      oldest of them, before PulseAudio has had them; only silence survives that. */
  lemma OverlappingGrantSilences(g: Geometry, s: Fifo, frames: nat)
    requires Inv(g, s) && Exact(s) && GetResult(g, s, true, frames, true) == Ok && frames != 0
    requires s.wpos + g.Bytes(frames) <= g.ring < |s.pending| + g.Bytes(frames)
    ensures var s' := GetStep(g, s, true, frames, true);
            var k := |s.pending| + g.Bytes(frames) - g.ring;
            && 0 < k <= |s.pending|
            && s'.pending == Silence(g.silence, k) + s.pending[k..]
            && (Exact(s') <==> s.pending[..k] == Silence(g.silence, k))
  {
    GrantHalfRing(g, s.held, frames);
    var s' := GetStep(g, s, true, frames, true);
    var k := |s.pending| + g.Bytes(frames) - g.ring;
    assert s.pending == s.pending[..k] + s.pending[k..];
    assert s'.pending[..k] == Silence(g.silence, k);
    if Exact(s') {
      assert s'.pending == (s.sent + s'.pending)[|s.sent|..];
      assert s.pending == (s.sent + s.pending)[|s.sent|..];
    }
  }
}
