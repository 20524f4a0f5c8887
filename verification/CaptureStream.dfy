/** The capture side of a PulseAudio stream: sound comes in fragments of any size, goes out in
    packets of one period, and what is left of a fragment waits in the peek buffer. */
module CaptureStream {
  import opened CaptureModel
  import opened Common

  /** What PulseAudio has recorded: sound, or a hole for which there is none. */
  datatype Fragment = Sound(bytes: seq<byte>) | Hole(length: nat)

  datatype Result =
    | Ok | BufferEmpty | DeviceInvalidated | OutOfOrder | InvalidSize
    | NotStopped | OperationPending | EventHandleNotSet | Fail | AlreadyStopped

  /** How a reading ends: with less than a period left, without a packet to take, or where a mark is to go
      outside the pool. */
  datatype ReadEnd = AllRead | NoPacket | Stray

  /** What the application is told of the packet it gets; where its sound is in local. */
  datatype Buffer = Buffer(frames: nat, data: nat, discontinuity: bool, devpos: nat, qpcpos: nat)

  function Size(f: Fragment): nat { if f.Sound? then |f.bytes| else f.length }

  function Content(silence: byte, f: Fragment): (r: seq<byte>)
    ensures |r| == Size(f)
  {
    if f.Sound? then f.bytes else Silence(silence, f.length)
  }

  function Contents(silence: byte, fs: seq<Fragment>): seq<byte> {
    if fs == [] then [] else Content(silence, fs[0]) + Contents(silence, fs[1..])
  }

  // ---- sound cut into periods --------------------------------------------------------------

  function Periods(period: nat, sound: seq<byte>): seq<seq<byte>>
    requires 0 < period
  {
    if |sound| < period then [] else [sound[..period]] + Periods(period, sound[period..])
  }

  /** What is left of the sound when no whole period is. */
  function Rest(period: nat, sound: seq<byte>): (r: seq<byte>)
    requires 0 < period
    ensures |r| < period
  {
    if |sound| < period then sound else Rest(period, sound[period..])
  }

  function Joined(slices: seq<seq<byte>>): seq<byte> {
    if slices == [] then [] else slices[0] + Joined(slices[1..])
  }

  /** The periods are the sound, cut up. */
  lemma {:induction false} PeriodsJoined(period: nat, sound: seq<byte>)
    requires 0 < period
    ensures Joined(Periods(period, sound)) + Rest(period, sound) == sound
  {
    if period <= |sound| {
      var head, tail := sound[..period], sound[period..];
      PeriodsJoined(period, tail);
      assert Periods(period, sound) == [head] + Periods(period, tail) && Rest(period, sound) == Rest(period, tail);
      assert sound == head + tail;
      hide *;
      JoinedFirst(head, Periods(period, tail));
      Prefixed(head, Joined(Periods(period, tail)), Rest(period, tail), tail);
    }
  }

  lemma Prefixed(a: seq<byte>, b: seq<byte>, c: seq<byte>, d: seq<byte>)
    requires b + c == d
    ensures a + b + c == a + d
  {
  }

  lemma CutWithin(a: seq<byte>, b: seq<byte>)
    ensures [] + (a + b) == a + b
    ensures forall n :: 0 <= n <= |a| ==> (a + b)[..n] == a[..n] && (a + b)[n..] == a[n..] + b
  {
  }

  lemma JoinedFirst(slice: seq<byte>, slices: seq<seq<byte>>)
    ensures Joined([slice] + slices) == slice + Joined(slices)
  {
  }

  lemma {:induction false} PeriodsWhole(period: nat, sound: seq<byte>, k: nat)
    requires 0 < period && k < |Periods(period, sound)|
    ensures |Periods(period, sound)[k]| == period
  {
    if k != 0 { PeriodsWhole(period, sound[period..], k - 1); }
  }

  // ---- where sound is copied to ------------------------------------------------------------

  /** There is room for n bytes, if they are copied anywhere. */
  predicate Room(size: nat, dst: Option<nat>, n: nat) { dst.Some? ==> dst.value + n <= size }

  function Later(dst: Option<nat>, n: nat): Option<nat> { if dst.Some? then Some(dst.value + n) else None }

  function Stored(s: seq<byte>, dst: Option<nat>, bytes: seq<byte>): (r: seq<byte>)
    requires Room(|s|, dst, |bytes|)
    ensures |r| == |s|
  {
    if dst.Some? then Patch(s, dst.value, bytes) else s
  }

  lemma RoomLater(size: nat, dst: Option<nat>, n: nat, m: nat)
    requires Room(size, dst, n + m)
    ensures Room(size, dst, n) && Room(size, Later(dst, n), m)
  {
  }

  lemma StoredTwice(s: seq<byte>, dst: Option<nat>, a: seq<byte>, b: seq<byte>, more: nat)
    requires Room(|s|, dst, |a| + |b| + more)
    ensures Room(|s|, dst, |a|) && Room(|s|, Later(dst, |a|), |b|) && Room(|s|, dst, |a + b|)
    ensures Stored(Stored(s, dst, a), Later(dst, |a|), b) == Stored(s, dst, a + b)
  {
  }

  // ---- packets in memory -------------------------------------------------------------------

  /** What the packets are in memory: where each has its sound, all of that sound, and their fields. */
  datatype Memory = Memory(period: nat, offs: seq<nat>, sound: seq<byte>, stamps: seq<nat>, marks: seq<bool>) {
    predicate Carved() {
      && |offs| == |stamps| == |marks|
      && (forall i :: 0 <= i < |offs| ==> offs[i] + period <= |sound|)
      && forall i, j :: 0 <= i < j < |offs| ==> offs[i] + period <= offs[j]
    }

    predicate Holds(i: nat, p: Packet)
      requires Carved()
    {
      i < |offs| && stamps[i] == p.stamp && marks[i] == p.mark && sound[offs[i]..offs[i] + period] == p.data
    }

    /** A list of packet numbers stands for a list of packets. */
    ghost predicate Lists(numbers: seq<nat>, packets: seq<Packet>)
      requires Carved()
    {
      |numbers| == |packets| && forall k :: 0 <= k < |numbers| ==> Holds(numbers[k], packets[k])
    }

    function Set(i: nat, stamp: nat, mark: bool): (m: Memory)
      requires Carved() && i < |offs|
      ensures m.Carved() && m.offs == offs && m.period == period
    {
      this.(stamps := stamps[i := stamp], marks := marks[i := mark])
    }

    function Mark(i: nat): (m: Memory)
      requires Carved() && i < |offs|
      ensures m.Carved() && m.offs == offs && m.period == period
    {
      this.(marks := marks[i := true])
    }

    function Fill(i: nat, data: seq<byte>): (m: Memory)
      requires Carved() && i < |offs| && |data| == period
      ensures m.Carved() && m.offs == offs && m.period == period
    {
      this.(sound := Patch(sound, offs[i], data))
    }

    lemma Part(numbers: seq<nat>, packets: seq<Packet>, from: nat, to: nat)
      requires Carved() && Lists(numbers, packets) && from <= to <= |numbers|
      ensures |packets| == |numbers| && Lists(numbers[from..to], packets[from..to])
    {
    }

    lemma FirstAndRest(numbers: seq<nat>, packets: seq<Packet>)
      requires Carved() && Lists(numbers, packets) && numbers != []
      ensures packets != [] && Lists(numbers[1..], packets[1..]) && Lists([numbers[0]], [packets[0]])
    {
    }

    lemma SetElsewhere(i: nat, stamp: nat, mark: bool, numbers: seq<nat>, packets: seq<Packet>)
      requires Carved() && i < |offs| && Lists(numbers, packets) && i !in numbers
      ensures Set(i, stamp, mark).Lists(numbers, packets)
    {
    }

    lemma MarkFirst(numbers: seq<nat>, packets: seq<Packet>)
      requires Carved() && Lists(numbers, packets) && numbers != [] && Distinct(numbers)
      ensures Mark(numbers[0]).Lists(numbers, packets[0 := packets[0].(mark := true)])
    {
    }

    lemma MarkElsewhere(i: nat, numbers: seq<nat>, packets: seq<Packet>)
      requires Carved() && i < |offs| && Lists(numbers, packets) && i !in numbers
      ensures Mark(i).Lists(numbers, packets)
    {
    }

    /** Filling one packet leaves the others alone. */
    lemma FillElsewhere(i: nat, data: seq<byte>, numbers: seq<nat>, packets: seq<Packet>)
      requires Carved() && i < |offs| && |data| == period && Lists(numbers, packets) && i !in numbers
      ensures Fill(i, data).Lists(numbers, packets)
    {
    }

    lemma FillLast(i: nat, data: seq<byte>, numbers: seq<nat>, packets: seq<Packet>, p: Packet)
      requires Carved() && i < |offs| && |data| == period && Lists(numbers, packets) && i !in numbers
      requires p.stamp == stamps[i] && p.mark == marks[i] && p.data == data
      ensures Fill(i, data).Lists(numbers + [i], packets + [p])
    {
    }

    lemma FillOne(i: nat, data: seq<byte>, j: nat)
      requires Carved() && i < |offs| && j < |offs| && |data| == period
      ensures var after := Fill(i, data).sound[offs[j]..offs[j] + period];
              after == if i == j then data else sound[offs[j]..offs[j] + period]
    {
    }
  }

  // ---- lists of packets --------------------------------------------------------------------

  function Numbers(o: Option<nat>): seq<nat> { if o.Some? then [o.value] else [] }

  /** Every packet is in one place at most. */
  ghost predicate OnePlace(free: seq<nat>, filled: seq<nat>, next: Option<nat>, pool: nat) {
    && Distinct(free) && Distinct(filled)
    && (forall i :: i in free ==> i < pool && i !in filled)
    && (forall i :: i in filled ==> i < pool)
    && (next.Some? ==> next.value < pool && next.value !in free && next.value !in filled)
  }

  lemma PlaceFree(free: seq<nat>, filled: seq<nat>, next: Option<nat>, pool: nat)
    requires OnePlace(free, filled, next, pool) && free != []
    ensures OnePlace(free[1..], filled + [free[0]], next, pool)
    ensures free[0] < pool && free[0] !in filled && free[0] !in Numbers(next)
  {
    assert free[0] in free;
    forall i | i in free[1..] ensures i < pool && i !in filled + [free[0]] { assert i in free; }
  }

  lemma PlaceOldest(free: seq<nat>, filled: seq<nat>, next: Option<nat>, pool: nat)
    requires OnePlace(free, filled, next, pool) && filled != []
    ensures OnePlace(free, filled[1..] + [filled[0]], next, pool)
    ensures filled[0] < pool && filled[0] !in filled[1..] && filled[0] !in Numbers(next) && Distinct(filled[1..])
    ensures forall i :: i in filled[1..] ==> i < pool && i !in Numbers(next)
  {
    var rest := filled[1..];
    assert filled[0] in filled;
    forall i | i in rest + [filled[0]] ensures i in filled { if i in rest { assert i in filled; } }
    forall i | i in rest ensures i < pool && i !in Numbers(next) { assert i in filled; }
  }

  lemma PlaceNewest(free: seq<nat>, filled: seq<nat>, next: Option<nat>, pool: nat)
    requires OnePlace(free, filled, next, pool) && filled != []
    ensures var n := |filled| - 1;
            && filled[..n] + [filled[n]] == filled && filled[n] < pool && filled[n] !in filled[..n]
               && filled[n] !in Numbers(next)
  {
    assert filled[|filled| - 1] in filled;
  }

  lemma PlaceNext(free: seq<nat>, filled: seq<nat>, pool: nat)
    requires OnePlace(free, filled, None, pool) && filled != []
    ensures OnePlace(free, filled[1..], Some(filled[0]), pool)
  {
    PlaceOldest(free, filled, None, pool);
    forall i | i in filled[1..] ensures i in filled {}
    assert filled[0] in filled;
  }

  lemma PlaceBack(free: seq<nat>, filled: seq<nat>, i: nat, pool: nat)
    requires OnePlace(free, filled, Some(i), pool)
    ensures OnePlace(free + [i], filled, None, pool)
  {
  }

  lemma PlaceAll(free: seq<nat>, filled: seq<nat>, pool: nat)
    requires OnePlace(free, filled, None, pool)
    ensures OnePlace(free + filled, [], None, pool)
  {
    var all := free + filled;
    forall i, j | 0 <= i < j < |all| ensures all[i] != all[j] {
      if i < |free| <= j { assert all[i] in free && all[j] in filled; }
    }
  }

  class Stream {
    const period: nat              // bytes
    const frame: nat
    const silence: byte
    const local: array<byte>
    const offs: seq<nat>           // where each packet's sound is in local
    const stamps: array<nat>       // of each packet
    const marks: array<bool>
    var free: seq<nat>             // packets by number
    var filled: seq<nat>
    var lockedPtr: Option<nat>
    var locked: nat                // frames
    var started: bool
    var held: nat
    var clockWritten: nat

    var peek: array<byte>
    var peekOfs: nat
    var peekLen: nat
    var source: seq<Fragment>      // waiting in PulseAudio
    var now: nat                   // the performance counter

    ghost var model: State

    /** A stream for a buffer of so many bytes, made up to whole periods; none when a period is no frame. */
    static method Create(asked: nat, period: nat, frame: nat, silence: byte) returns (stream: Option<Stream>)
      requires 0 < frame && (0 < period ==> frame <= period)
      ensures stream.None? <==> period == 0
      ensures stream.Some? ==>
                var s := stream.value;
                && fresh(s) && s.Valid() && s.period == period && s.frame == frame && s.silence == silence
                && s.Pending() == [] && s.model == Init(PoolSize(asked, period))
                && s.local.Length == WholePeriods(asked, period) == |s.offs| * period
                && asked <= s.local.Length < asked + period && |s.free| == |s.offs| && !s.started && s.clockWritten == 0
    {
      if period == 0 { return None; }
      PoolFits(asked, period, 0);
      var bytes := asked;
      var unalign := bytes % period;
      if unalign != 0 { bytes := bytes + (period - unalign); }
      assert bytes == WholePeriods(asked, period);
      hide WholePeriods;
      var s := new Stream(period, frame, silence, bytes / period);
      stream := Some(s);
    }

    /** A buffer cut into packets of one period, all free. */
    constructor (period: nat, frame: nat, silence: byte, pool: nat)
      requires 0 < frame <= period
      ensures Valid() && this.period == period && this.silence == silence && model == Init(pool) && Pending() == []
      ensures this.frame == frame && local.Length == pool * period && |offs| == |free| == pool
      ensures filled == [] && lockedPtr == None && locked == held == clockWritten == 0 && !started
      ensures fresh(local) && fresh(stamps) && fresh(marks) && fresh(peek)
    {
      var parts, size := Carve(period, pool);
      this.period, this.frame, this.silence := period, frame, silence;
      local := new byte[size](_ => silence);
      offs := parts;
      stamps := new nat[pool](_ => 0);
      marks := new bool[pool](_ => false);
      free, filled, lockedPtr, locked := seq(pool, i => i), [], None, 0;
      started, held, clockWritten, now := false, 0, 0, 0;
      peek := new byte[0];
      peekOfs, peekLen, source := 0, 0, [];
      model := Init(pool);
      new;
      InitKept(period, pool);
      AllFree(pool);
    }

    static method Carve(period: nat, pool: nat) returns (parts: seq<nat>, size: nat)
      ensures size == pool * period
      ensures |parts| == pool && (forall i :: 0 <= i < pool ==> parts[i] + period <= size)
      ensures forall i, j :: 0 <= i < j < pool ==> parts[i] + period <= parts[j]
    {
      parts, size := [], 0;
      for i := 0 to pool
        invariant size == i * period && |parts| == i && forall k :: 0 <= k < i ==> parts[k] + period <= size
        invariant forall j, k :: 0 <= j < k < i ==> parts[j] + period <= parts[k]
      {
        parts := parts + [size];
        size := size + period;
      }
    }

    // ---- fragments to bytes ------------------------------------------------------------------

    ghost predicate Peeked()
      reads this`peek, this`peekOfs, this`peekLen, this`source
    {
      && peek != local
      && peekOfs <= peekLen <= peek.Length && (0 < peekLen ==> peekOfs < peekLen)
      && forall k :: 0 <= k < |source| ==> 0 < Size(source[k])
    }

    /** The sound not used yet: what was fetched of it, and what was not. */
    ghost function Pending(): seq<byte>
      requires Peeked()
      reads this`peek, this`peekOfs, this`peekLen, this`source, peek
    {
      peek[peekOfs..peekLen] + Contents(silence, source)
    }

    /** PulseAudio records some more. */
    method Record(f: Fragment)
      requires Peeked() && 0 < Size(f)
      modifies this`source
      ensures Peeked() && Pending() == old(Pending()) + Content(silence, f)
      ensures f.Sound? ==> Pending() == old(Pending()) + f.bytes
      ensures f.Hole? ==>
                && old(Pending()) <= Pending() && |Pending()| == |old(Pending())| + f.length
                && forall k :: |old(Pending())| <= k < |Pending()| ==> Pending()[k] == silence
    {
      ContentsMore(silence, source, f);
      ghost var more := Content(silence, f);
      assert if f.Sound? then more == f.bytes
             else |more| == f.length && forall k :: 0 <= k < |more| ==> more[k] == silence;
      hide Content, Contents;
      Prefixed(peek[peekOfs..peekLen], Contents(silence, source), Content(silence, f), Contents(silence, source + [f]));
      source := source + [f];
    }

    /** Copies to a packet, if there is one to copy to. */
    method CopyTo(dst: Option<nat>, bytes: seq<byte>)
      requires Room(local.Length, dst, |bytes|)
      modifies local
      ensures local[..] == Stored(old(local[..]), dst, bytes)
    {
      if dst.Some? {
        forall i | 0 <= i < |bytes| { local[dst.value + i] := bytes[i]; }
        assert local[..] == Patch(old(local[..]), dst.value, bytes);
      }
    }

    lemma PeekedSome()
      requires Peeked()
      ensures forall n :: 0 <= n <= peekLen - peekOfs ==>
                && Pending()[..n] == peek[peekOfs..peekOfs + n]
                && Pending()[n..] == peek[peekOfs + n..peekLen] + Contents(silence, source)
    {
    }

    method TakePeeked(dst: Option<nat>, rem: nat) returns (copy: nat)
      requires Peeked() && 0 < peekLen && 0 < rem && Room(local.Length, dst, rem)
      modifies this`peekOfs, this`peekLen, local
      ensures Peeked() && 0 < copy <= rem && copy <= |old(Pending())| && Pending() == old(Pending())[copy..]
      ensures local[..] == Stored(old(local[..]), dst, old(Pending())[..copy])
    {
      hide Stored, Contents;
      PeekedSome();
      copy := if rem < peekLen - peekOfs then rem else peekLen - peekOfs;
      CopyTo(dst, peek[peekOfs..peekOfs + copy]);
      peekOfs := peekOfs + copy;
      if peekOfs == peekLen { peekOfs, peekLen := 0, 0; }
    }

    method TakeFragment(dst: Option<nat>, rem: nat) returns (copy: nat)
      requires Peeked() && peekLen == 0 && source != [] && 0 < rem && Room(local.Length, dst, rem)
      modifies this`peek, this`peekOfs, this`peekLen, this`source, peek, local
      ensures Peeked() && 0 < copy <= rem && copy <= |old(Pending())| && Pending() == old(Pending())[copy..]
      ensures local[..] == Stored(old(local[..]), dst, old(Pending())[..copy])
      ensures peek == old(peek) || fresh(peek)
    {
      hide Stored, Content, Contents;
      FirstFragment();
      var length := Size(source[0]);
      var bytes := Content(silence, source[0]);
      copy := if rem < length then rem else length;
      CopyTo(dst, bytes[..copy]);
      peekOfs := 0;
      if copy < length { KeepRest(bytes, copy); }
      source := source[1..];
      assert peek[..peekLen] == bytes[copy..];
    }

    lemma FirstFragment()
      requires Peeked() && peekLen == 0 && source != []
      ensures var bytes, more := Content(silence, source[0]), Contents(silence, source[1..]);
              && 0 < |bytes| && Pending() == bytes + more
              && forall n :: 0 <= n <= |bytes| ==> Pending()[..n] == bytes[..n] && Pending()[n..] == bytes[n..] + more
    {
      hide Content;
      assert peek[peekOfs..peekLen] == [];
      CutWithin(Content(silence, source[0]), Contents(silence, source[1..]));
    }

    /** Keeps the rest of a fragment, in a larger buffer if need be. */
    method KeepRest(bytes: seq<byte>, copy: nat)
      requires copy < |bytes| && peek != local
      modifies this`peek, this`peekLen, peek
      ensures peekLen == |bytes| - copy && peek != local && peekLen <= peek.Length && peek[..peekLen] == bytes[copy..]
      ensures peek == old(peek) || fresh(peek)
    {
      if peek.Length < |bytes| { peek := new byte[|bytes|]; }
      forall i | 0 <= i < |bytes| - copy { peek[i] := bytes[copy + i]; }
      peekLen := |bytes| - copy;
    }

    /** Uses up one period of sound, copying it to a packet if there is one. */
    method FetchPeriod(dst: Option<nat>)
      requires Peeked() && period <= |Pending()| && Room(local.Length, dst, period)
      modifies this`peek, this`peekOfs, this`peekLen, this`source, peek, local
      ensures Fetched(old(local[..]), dst, old(Pending()), 0)
      ensures peek == old(peek) || fresh(peek)
    {
      FetchedNone(local[..], dst, Pending());
      FetchRest(dst, period, local[..], Pending());
    }

    /** The loop over what is still missing of a period. */
    method FetchRest(dst: Option<nat>, left: nat, ghost before: seq<byte>, ghost sound: seq<byte>)
      requires Fetched(before, dst, sound, left)
      modifies this`peek, this`peekOfs, this`peekLen, this`source, peek, local
      ensures Fetched(before, dst, sound, 0)
      ensures peek == old(peek) || fresh(peek)
    {
      hide *;
      var rem := left;
      while 0 < rem
        invariant Fetched(before, dst, sound, rem)
        invariant peek == old(peek) || fresh(peek)
      {
        var copy := FetchNext(dst, rem, before, sound);
        rem := rem - copy;
      }
    }

    /** All but rem bytes of a period of some sound are used up, and copied to a packet if there is one. */
    ghost predicate Fetched(before: seq<byte>, dst: Option<nat>, sound: seq<byte>, rem: nat)
      reads this`peek, this`peekOfs, this`peekLen, this`source, peek, local
    {
      && rem <= period <= |sound| && |before| == local.Length && Room(|before|, dst, period)
      && var n := period - rem;
         Peeked() && Pending() == sound[n..] && local[..] == Stored(before, dst, sound[..n])
    }

    lemma FetchedNone(before: seq<byte>, dst: Option<nat>, sound: seq<byte>)
      requires Peeked() && Pending() == sound && local[..] == before && period <= |sound| && Room(|before|, dst, period)
      ensures Fetched(before, dst, sound, period)
    {
    }

    lemma FetchedAll(before: seq<byte>, dst: Option<nat>, sound: seq<byte>)
      requires Fetched(before, dst, sound, 0)
      ensures Peeked() && period <= |sound| && Room(|before|, dst, period)
      ensures Pending() == sound[period..] && local[..] == Stored(before, dst, sound[..period])
    {
    }

    method FetchNext(dst: Option<nat>, rem: nat, ghost before: seq<byte>, ghost sound: seq<byte>) returns (copy: nat)
      requires Fetched(before, dst, sound, rem) && 0 < rem
      modifies this`peek, this`peekOfs, this`peekLen, this`source, peek, local
      ensures 0 < copy <= rem && Fetched(before, dst, sound, rem - copy)
      ensures peek == old(peek) || fresh(peek)
    {
      hide Stored, Room, Later, Peeked, Pending;
      var n := period - rem;
      RoomLater(|before|, dst, n, rem);
      copy := FetchSome(Later(dst, n), rem);
      StoredTwice(before, dst, sound[..n], sound[n..][..copy], rem - copy);
      assert sound[..n] + sound[n..][..copy] == sound[..n + copy];
      assert sound[n..][copy..] == sound[n + copy..];
    }

    method FetchSome(dst: Option<nat>, rem: nat) returns (copy: nat)
      requires Peeked() && 0 < rem <= |Pending()| && Room(local.Length, dst, rem)
      modifies this`peek, this`peekOfs, this`peekLen, this`source, peek, local
      ensures Peeked() && 0 < copy <= rem && copy <= |old(Pending())| && Pending() == old(Pending())[copy..]
      ensures local[..] == Stored(old(local[..]), dst, old(Pending())[..copy])
      ensures peek == old(peek) || fresh(peek)
    {
      hide Stored;
      if peekLen != 0 {
        copy := TakePeeked(dst, rem);
      } else {
        copy := TakeFragment(dst, rem);
      }
    }

    // ---- the packets -------------------------------------------------------------------------

    /** Each packet has its own part of the buffer. */
    ghost predicate Carved() {
      && 0 < frame <= period && |offs| == stamps.Length == marks.Length
      && (forall i :: 0 <= i < |offs| ==> offs[i] + period <= local.Length)
      && forall i, j :: 0 <= i < j < |offs| ==> offs[i] + period <= offs[j]
    }

    ghost function Packets(): (m: Memory)
      requires Carved()
      reads local, stamps, marks
      ensures m.Carved()
    {
      Memory(period, offs, local[..], stamps[..], marks[..])
    }

    function Frames(bytes: nat): nat
      requires 0 < frame
    {
      bytes / frame
    }

    ghost predicate Scalars()
      requires Carved()
      reads this`free, this`locked, this`started, this`held, this`clockWritten, this`now, this`model
    {
      Others() && (|free|, held) == (model.free, model.held)
    }

    ghost predicate Others()
      requires Carved()
      reads this`locked, this`started, this`clockWritten, this`now, this`model
    {
      && (0 < locked <==> model.locked) && (locked == 0 || locked == Frames(period))
      && (started, clockWritten) == (model.started, model.clock) && model.stamp <= now
    }

    /** The packets in memory are those of the model. */
    ghost predicate Agrees()
      requires Carved()
      reads this`free, this`filled, this`lockedPtr, this`model, local, stamps, marks
    {
      && OnePlace(free, filled, lockedPtr, |offs|)
      && Packets().Lists(filled, model.filled) && Packets().Lists(Numbers(lockedPtr), Optional(model.next))
    }

    ghost predicate Valid()
      reads this, local, peek, stamps, marks
    {
      Peeked() && Carved() && Inv(period, |offs|, model) && Scalars() && Agrees()
    }

    method Stamp(i: nat, stamp: nat)
      requires Carved() && i < |offs|
      modifies stamps, marks
      ensures Packets() == old(Packets()).Set(i, stamp, false) && stamps[i] == stamp && !marks[i]
    {
      stamps[i] := stamp;
      marks[i] := false;
    }

    method Mark(i: nat)
      requires Carved() && i < |offs|
      modifies marks
      ensures Packets() == old(Packets()).Mark(i)
    {
      marks[i] := true;
    }

    /** A packet is at the end of the filled ones; all the others are those of the model. */
    ghost predicate Begun(i: nat, stamp: nat, packets: seq<Packet>, next: Option<Packet>)
      requires Carved()
      reads this`free, this`filled, this`lockedPtr, local, stamps, marks
    {
      var n := |filled| - 1;
      && OnePlace(free, filled, lockedPtr, |offs|) && i < |offs|
      && 0 <= n && filled[n] == i && i !in filled[..n] && i !in Numbers(lockedPtr)
      && Packets().Lists(filled[..n], packets) && Packets().Lists(Numbers(lockedPtr), Optional(next))
      && stamps[i] == stamp && !marks[i]
    }

    method UseFree(stamp: nat) returns (i: nat)
      requires Carved() && Agrees() && free != []
      modifies this`free, this`filled, this`held, stamps, marks
      ensures Begun(i, stamp, model.filled, model.next) && |free| == |old(free)| - 1 && held == old(held) + period
    {
      hide Memory.Lists, OnePlace;
      PlaceFree(free, filled, lockedPtr, |offs|);
      i := free[0];
      held := held + period;
      Packets().SetElsewhere(i, stamp, false, filled, model.filled);
      Packets().SetElsewhere(i, stamp, false, Numbers(lockedPtr), Optional(model.next));
      Stamp(i, stamp);
      free := free[1..];
      assert (filled + [i])[..|filled|] == filled;
      filled := filled + [i];
    }

    method UseOldest(stamp: nat) returns (i: nat)
      requires Carved() && Agrees() && 1 < |filled| == |model.filled| && !marks[filled[0]]
      modifies this`filled, stamps, marks
      ensures |filled| == |old(filled)|
              && Begun(i, stamp, [model.filled[1].(mark := true)] + model.filled[2..], model.next)
    {
      hide Memory.Lists, OnePlace, Memory.Set, Memory.Mark, Memory.Carved;
      ghost var m, next := Packets(), Optional(model.next);
      ghost var rest, packets := filled[1..|filled|], model.filled[1..|filled|];
      m.Part(filled, model.filled, 1, |filled|);
      PlaceOldest(free, filled, lockedPtr, |offs|);
      assert rest == filled[1..] && rest[0] in rest;
      i := filled[0];
      m.MarkFirst(rest, packets);
      m.MarkElsewhere(rest[0], Numbers(lockedPtr), next);
      ghost var marked := packets[0 := packets[0].(mark := true)];
      m.Mark(rest[0]).SetElsewhere(i, stamp, false, rest, marked);
      m.Mark(rest[0]).SetElsewhere(i, stamp, false, Numbers(lockedPtr), next);
      assert marked == [model.filled[1].(mark := true)] + model.filled[2..];
      Mark(filled[1]);
      Stamp(i, stamp);
      filled := filled[1..] + [i];
      assert filled[..|filled| - 1] == rest;
    }

    method UseNewest(stamp: nat) returns (i: nat)
      requires Carved() && Agrees() && 0 < |filled| == |model.filled|
      modifies this`filled, stamps, marks
      ensures |filled| == |old(filled)| == |model.filled| && Begun(i, stamp, model.filled[..|filled| - 1], model.next)
    {
      hide Memory.Lists, OnePlace, Memory.Set, Memory.Carved;
      ghost var n := |filled| - 1;
      Packets().Part(filled, model.filled, 0, n);
      PlaceNewest(free, filled, lockedPtr, |offs|);
      i := filled[|filled| - 1];
      Packets().SetElsewhere(i, stamp, false, filled[0..n], model.filled[0..n]);
      Packets().SetElsewhere(i, stamp, false, Numbers(lockedPtr), Optional(model.next));
      Stamp(i, stamp);
      filled := filled[..|filled| - 1] + [i];
      assert filled[..n] == old(filled)[0..n] && model.filled[..n] == model.filled[0..n];
    }

    // ---- recording ---------------------------------------------------------------------------

    /** Selects a packet for a period of sound: a free one, else the oldest, with a mark for the one
        after it, else, if the oldest has a mark, the newest. */
    method TakePacket(stamp: nat, ghost data: seq<byte>) returns (i: nat)
      requires Carved() && Inv(period, |offs|, model) && Scalars() && Agrees() && model.stamp <= stamp <= now
      requires !Outside(model) && (free != [] || filled != [])
      modifies this`free, this`filled, this`held, this`model, stamps, marks
      ensures model == TakeStep(period, old(model), stamp, data) && Inv(period, |offs|, model) && Scalars()
      ensures Filling(i, stamp, data)
      ensures model.recording == old(model.recording) + [data] && Alike(old(model), model)
    {
      Counts();
      TakeKeeps(period, |offs|, model, stamp, data);
      hide TakeStep, Inv, Outside, Carved, Scalars, Agrees, Filling, Alike;
      if free != [] {
        i := TakeFreePacket(stamp, data);
      } else {
        i := TakeUsedPacket(stamp, data);
      }
    }

    /** The last filled packet is that of the model but for its sound. */
    ghost predicate Filling(i: nat, stamp: nat, data: seq<byte>)
      requires Carved()
      reads this`free, this`filled, this`lockedPtr, this`model, local, stamps, marks
    {
      var n := |filled| - 1;
      && 0 <= n && |model.filled| == n + 1 && Begun(i, stamp, model.filled[..n], model.next)
      && var p := model.filled[n]; p.stamp == stamp && !p.mark && p.data == data
    }

    method TakeFreePacket(stamp: nat, ghost data: seq<byte>) returns (i: nat)
      requires Carved() && Scalars() && Agrees() && free != [] && |free| == model.free && stamp <= now
      modifies this`free, this`filled, this`held, this`model, stamps, marks
      ensures model == TakeStep(period, old(model), stamp, data) && Scalars() && Filling(i, stamp, data)
      ensures model.recording == old(model.recording) + [data] && Alike(old(model), model)
    {
      TakeFree(period, model, stamp, data);
      assert Others();
      hide TakeStep, Carved, Others, Agrees, Begun, Filling, Alike;
      i := UseFree(stamp);
      Enter(i, stamp, data, model.filled);
    }

    method TakeUsedPacket(stamp: nat, ghost data: seq<byte>) returns (i: nat)
      requires Carved() && Scalars() && Agrees() && free == [] && 0 < |filled| == |model.filled| && stamp <= now
      requires model.free == 0 && !Outside(model)
      modifies this`filled, this`model, stamps, marks
      ensures model == TakeStep(period, old(model), stamp, data) && Scalars() && Filling(i, stamp, data)
      ensures model.recording == old(model.recording) + [data] && Alike(old(model), model)
    {
      TakeFull(period, model, stamp, data);
      assert Others();
      hide TakeStep, Carved, Others, Agrees, Begun, Filling, Kept, Alike;
      i := Recycle(stamp);
      Enter(i, stamp, data, Kept(model.filled));
    }

    /** The model follows, once a packet has been selected. */
    ghost method Enter(i: nat, stamp: nat, data: seq<byte>, packets: seq<Packet>)
      requires Carved() && Others() && Begun(i, stamp, packets, model.next) && |filled| == |packets| + 1
               && !Outside(model)
      requires var m := TakeStep(period, model, stamp, data);
               && Alike(model, m) && m.free == |free| && m.held == held && m.stamp == stamp <= now
               && |m.filled| == |packets| + 1 && m.filled[..|packets|] == packets
               && var p := m.filled[|packets|]; p.stamp == stamp && !p.mark && p.data == data
      modifies this`model
      ensures model == TakeStep(period, old(model), stamp, data) && Scalars() && Filling(i, stamp, data)
    {
      hide TakeStep, Carved, Begun;
      model := TakeStep(period, model, stamp, data);
    }

    method Recycle(stamp: nat) returns (i: nat)
      requires Carved() && Agrees() && 0 < |filled| == |model.filled| && (|filled| == 1 ==> model.filled[0].mark)
      modifies this`filled, stamps, marks
      ensures |filled| == |old(filled)| == |model.filled|
      ensures Begun(i, stamp, Kept(model.filled), model.next)
    {
      FirstMark();
      hide OnePlace, Memory.Lists;
      if marks[filled[0]] {
        i := UseNewest(stamp);
      } else {
        i := UseOldest(stamp);
      }
    }

    lemma Counts()
      requires Carved() && Scalars() && Agrees()
      ensures |free| == model.free && |filled| == |model.filled|
    {
    }

    /** With three packets there is always one to take. */
    lemma NeverOutside()
      requires Carved() && 3 <= |offs| && Inv(period, |offs|, model) && Scalars() && Agrees()
      ensures !Outside(model) && (free != [] || filled != [])
    {
    }

    lemma FirstMark()
      requires Carved() && Agrees() && filled != []
      ensures filled[0] < |offs| && model.filled != [] && marks[filled[0]] == model.filled[0].mark
    {
    }

    /** The performance counter never goes back. */
    method Counter() returns (stamp: nat)
      requires Carved() && Scalars()
      modifies this`now
      ensures old(now) <= stamp == now && Scalars() && model.stamp <= stamp
    {
      var tick :| 0 <= tick;
      now := now + tick;
      stamp := now;
    }

    /** Copies a period of sound to the packet selected for it. */
    method FillPacket(i: nat, stamp: nat, ghost data: seq<byte>)
      requires Peeked() && period <= |Pending()| && data == Pending()[..period] && Carved() && Filling(i, stamp, data)
      modifies this`peek, this`peekOfs, this`peekLen, this`source, local, peek
      ensures Peeked() && (peek == old(peek) || fresh(peek)) && Pending() == old(Pending())[period..] && Agrees()
    {
      hide Peeked, Pending, Fetched, Memory.Lists, Memory.Fill, OnePlace;
      ghost var m, n, next := Packets(), |filled| - 1, Optional(model.next);
      m.FillLast(i, data, filled[..n], model.filled[..n], model.filled[n]);
      m.FillElsewhere(i, data, Numbers(lockedPtr), next);
      assert filled[..n] + [i] == filled && model.filled[..n] + [model.filled[n]] == model.filled;
      ghost var sound, before := Pending(), local[..];
      FetchPeriod(Some(offs[i]));
      FetchedAll(before, Some(offs[i]), sound);
      assert Packets() == m.Fill(i, data) by { FillIs(m, i, data); }
    }

    lemma FillIs(m: Memory, i: nat, data: seq<byte>)
      requires Carved() && m.Carved() && (m.period, m.offs, m.stamps, m.marks) == (period, offs, stamps[..], marks[..])
      requires i < |offs| && |data| == period && |m.sound| == local.Length
      requires local[..] == Stored(m.sound, Some(offs[i]), data)
      ensures Packets() == m.Fill(i, data)
    {
    }

    /** Uses up a period of sound without keeping it. */
    method DropPeriod()
      requires Peeked() && period <= |Pending()|
      modifies this`peek, this`peekOfs, this`peekLen, this`source, local, peek
      ensures Peeked() && (peek == old(peek) || fresh(peek)) && Pending() == old(Pending())[period..]
              && local[..] == old(local[..])
    {
      hide Peeked, Pending, Fetched;
      ghost var sound, before := Pending(), local[..];
      FetchPeriod(None);
      FetchedAll(before, None, sound);
    }

    /** Uses up a period of sound: recorded in a packet while started, dropped otherwise. Without any
        packet to take it gives up. */
    method ReadPeriod() returns (ok: bool)
      requires Valid() && period <= |Pending()| && (started ==> !Outside(model))
      modifies this`free, this`filled, this`held, this`model, this`now, this`peek, this`peekOfs, this`peekLen,
               this`source
      modifies local, peek, stamps, marks
      ensures Valid() && (peek == old(peek) || fresh(peek)) && ok == !old(started && free == [] && filled == [])
      ensures Pending() == if ok then old(Pending())[period..] else old(Pending())
      ensures if ok && started then Arrival(period, old(model), now, old(Pending())[..period], model)
              else model == old(model)
      ensures ok && started ==> model.recording == old(model.recording) + [old(Pending())[..period]]
      ensures ok && started ==> Alike(old(model), model)
      ensures !ok ==> free == [] && filled == []
    {
      hide Peeked, Pending, Inv, Agrees, Arrival, Outside, Alike;
      if started {
        if free == [] && filled == [] { return false; }
        RecordPeriod();
      } else {
        DropPeriod();
        StillAgrees();
      }
      ok := true;
    }

    twostate lemma StillAgrees()
      requires Carved() && old(Agrees()) && local[..] == old(local[..]) && unchanged(stamps) && unchanged(marks)
      requires (free, filled, lockedPtr, model) == old((free, filled, lockedPtr, model))
      ensures Agrees()
    {
    }

    method RecordPeriod()
      requires Valid() && started && period <= |Pending()| && !Outside(model) && (free != [] || filled != [])
      modifies this`free, this`filled, this`held, this`model, this`now, this`peek, this`peekOfs, this`peekLen,
               this`source
      modifies local, peek, stamps, marks
      ensures Valid() && (peek == old(peek) || fresh(peek)) && Pending() == old(Pending())[period..]
      ensures Arrival(period, old(model), now, old(Pending())[..period], model) && Alike(old(model), model)
      ensures model.recording == old(model.recording) + [old(Pending())[..period]]
    {
      hide Peeked, Pending, Inv, Carved, Scalars, Agrees, Filling, TakeStep, Outside, Alike;
      ghost var data := Pending()[..period];
      var stamp := Counter();
      var i := TakePacket(stamp, data);
      FillPacket(i, stamp, data);
    }

    /** Uses up all whole periods of the sound there is; while started each of them is recorded. It gives
        up before a period for which there is no packet to take. Where the mark would go to what is not a
        packet the model ends; with three packets neither happens. */
    method PulseRead() returns (end: ReadEnd, ghost done: seq<seq<byte>>)
      requires Valid()
      modifies this`free, this`filled, this`held, this`model, this`now, this`peek, this`peekOfs, this`peekLen,
               this`source
      modifies local, peek, stamps, marks
      ensures Valid() && (peek == old(peek) || fresh(peek)) && Alike(old(model), model)
      ensures done + Periods(period, Pending()) == Periods(period, old(Pending()))
      ensures Rest(period, Pending()) == Rest(period, old(Pending()))
      ensures if started then Arrive(period, old(model), done, model) && model.recording == old(model).recording + done
              else model == old(model)
      ensures match end
              case AllRead => done == Periods(period, old(Pending())) && Pending() == Rest(period, old(Pending()))
              case NoPacket => started && free == [] && filled == [] && period <= |Pending()|
              case Stray => started && Outside(model) && period <= |Pending()|
      ensures !started || 3 <= |offs| ==> end == AllRead
      ensures started && offs == [] ==> done == []
    {
      ghost var start, sound := model, Pending();
      AlikeSame(model);
      assert ReadUpTo(period, started, start, [], start, sound, sound);
      end, done := ReadAll(start, sound);
      if end == AllRead { ReadUp(period, started, start, done, model, Pending(), sound); }
    }

    /** The loop over whole periods. */
    method ReadAll(ghost start: State, ghost sound: seq<byte>) returns (end: ReadEnd, ghost done: seq<seq<byte>>)
      requires Valid() && ReadUpTo(period, started, start, [], model, Pending(), sound)
      modifies this`free, this`filled, this`held, this`model, this`now, this`peek, this`peekOfs, this`peekLen,
               this`source
      modifies local, peek, stamps, marks
      ensures Valid() && (peek == old(peek) || fresh(peek))
      ensures ReadUpTo(period, started, start, done, model, Pending(), sound)
      ensures match end
              case AllRead => |Pending()| < period
              case NoPacket => started && free == [] && filled == [] && period <= |Pending()|
              case Stray => started && Outside(model) && period <= |Pending()|
      ensures !started || 3 <= |offs| ==> end == AllRead
      ensures started && offs == [] ==> done == []
    {
      done := [];
      var bytes := |Contents(silence, source)| + (peekLen - peekOfs);
      hide Inv, Scalars, Agrees, ReadUpTo, Outside, Strays;
      while period <= bytes
        invariant Valid() && (peek == old(peek) || fresh(peek)) && bytes == |Pending()|
        invariant ReadUpTo(period, started, start, done, model, Pending(), sound)
        invariant started && offs == [] ==> done == []
      {
        StraysOutside();
        if started && Strays() { return Stray, done; }
        var ok;
        ok, done := ReadNext(start, done, sound);
        if !ok { return NoPacket, done; }
        bytes := bytes - period;
      }
      end := AllRead;
    }

    /** The packet to take is the only filled one, and has no mark: the one behind it, which is none, is to
        get it. */
    predicate Strays()
      requires forall k :: 0 <= k < |filled| ==> filled[k] < marks.Length
      reads this`free, this`filled, marks
    {
      free == [] && |filled| == 1 && !marks[filled[0]]
    }

    lemma StraysOutside()
      requires Carved() && Inv(period, |offs|, model) && Scalars() && Agrees()
      ensures forall k :: 0 <= k < |filled| ==> filled[k] < marks.Length
      ensures Strays() <==> Outside(model)
      ensures 3 <= |offs| ==> !Strays() && (free != [] || filled != [])
      ensures offs == [] ==> free == [] && filled == []
    {
      Known();
      Counts();
      forall k | 0 <= k < |filled| ensures filled[k] < marks.Length { assert filled[k] in filled; }
      if filled != [] { FirstMark(); }
      if 3 <= |offs| { NeverOutside(); }
    }

    method ReadNext(ghost start: State, ghost done: seq<seq<byte>>, ghost sound: seq<byte>)
      returns (ok: bool, ghost more: seq<seq<byte>>)
      requires Valid() && (started ==> !Outside(model)) && period <= |Pending()|
      requires ReadUpTo(period, started, start, done, model, Pending(), sound)
      modifies this`free, this`filled, this`held, this`model, this`now, this`peek, this`peekOfs, this`peekLen,
               this`source
      modifies local, peek, stamps, marks
      ensures Valid() && (peek == old(peek) || fresh(peek)) && ok == !old(started && free == [] && filled == [])
      ensures ReadUpTo(period, started, start, more, model, Pending(), sound)
      ensures |Pending()| == |old(Pending())| - if ok then period else 0
      ensures !ok ==> more == done && free == [] && filled == []
    {
      assert 0 < period;
      hide Carved, Inv, Scalars, Agrees, Peeked, Pending, Alike, ReadUpTo, Arrival, Outside;
      ghost var was, pending := model, Pending();
      ok := ReadPeriod();
      if !ok { return false, done; }
      more := done + [pending[..period]];
      ReadFurther(period, started, start, done, was, pending, sound, now, model);
    }

    // ---- the application ---------------------------------------------------------------------

    /** Takes the oldest filled packet out of reach of recording, if none is yet. */
    method CapturePadding() returns (frames: nat)
      requires Valid()
      modifies this`filled, this`lockedPtr, this`model
      ensures Valid() && model == PaddingStep(old(model)) && frames == held / frame
      ensures Advanced(old(lockedPtr), old(filled), lockedPtr, filled)
    {
      PaddingKeeps(period, |offs|, model);
      Known();
      WholeFrame();
      hide Inv, Peeked, Scalars, Agrees;
      if lockedPtr == None && filled != [] { LockNext(); }
      frames := Frames(held);
    }

    lemma Known()
      requires Carved() && Agrees()
      ensures OnePlace(free, filled, lockedPtr, |offs|)
      ensures |filled| == |model.filled| && (lockedPtr == None <==> model.next == None)
      ensures forall i :: i in filled ==> i < |offs|
      ensures lockedPtr.Some? ==> lockedPtr.value < |offs| && Packets().Holds(lockedPtr.value, model.next.value)
    {
      assert |Numbers(lockedPtr)| == |Optional(model.next)|;
      if lockedPtr.Some? {
        assert Packets().Holds(Numbers(lockedPtr)[0], Optional(model.next)[0]);
      }
    }

    method LockNext()
      requires Carved() && Scalars() && Agrees() && lockedPtr == None && filled != []
      modifies this`filled, this`lockedPtr, this`model
      ensures Scalars() && Agrees() && model == PaddingStep(old(model))
      ensures lockedPtr == Some(old(filled[0])) && filled == old(filled)[1..]
    {
      Known();
      hide Memory.Lists, OnePlace, Memory.Carved;
      Packets().FirstAndRest(filled, model.filled);
      PlaceNext(free, filled, |offs|);
      lockedPtr := Some(filled[0]);
      filled := filled[1..];
      model := PaddingStep(model);
    }

    /** A description is true of a packet: its sound, its time, whether there is a gap before it, and the
        position of its sound. */
    ghost predicate Tells(b: Buffer, clock: nat, p: Packet)
      requires 0 < frame
      reads local
    {
      && b.frames == Frames(period) && b.discontinuity == p.mark && b.qpcpos == p.stamp
      && b.devpos == Frames(Position(period, clock, p))
      && b.data + period <= local.Length && local[b.data..b.data + period] == p.data
    }

    /** Hands out the oldest packet. */
    method GetBuffer(ready: bool) returns (result: Result, buffer: Buffer)
      requires Valid()
      modifies this`filled, this`lockedPtr, this`locked, this`model
      ensures Valid() && model == if ready then GetStep(old(model)) else old(model)
      ensures result == if !ready then DeviceInvalidated else if old(locked) != 0 then OutOfOrder
                        else if model.next.Some? then Ok else BufferEmpty
      ensures if result == Ok then Tells(buffer, model.clock, model.next.value) else buffer == Buffer(0, 0, false, 0, 0)
      ensures !ready || old(locked) != 0 ==> (lockedPtr, filled, locked) == old((lockedPtr, filled, locked))
      ensures ready && old(locked) == 0 ==>
                && (result == BufferEmpty <==> old(lockedPtr) == None && old(filled) == [])
                && Advanced(old(lockedPtr), old(filled), lockedPtr, filled) && locked == buffer.frames
      ensures result == Ok ==>
                lockedPtr.Some? && Shown(buffer, lockedPtr.value, offs, marks[..], stamps[..], clockWritten)
    {
      hide Inv, Peeked, Scalars, Agrees, Tells, Carved, GetStep, Shown;
      buffer := Buffer(0, 0, false, 0, 0);
      if !ready { return DeviceInvalidated, buffer; }
      if locked != 0 {
        AlreadyLocked();
        return OutOfOrder, buffer;
      }
      buffer := HandOut();
      result := if buffer.frames != 0 then Ok else BufferEmpty;
    }

    lemma AlreadyLocked()
      requires Carved() && Scalars() && locked != 0
      ensures GetStep(model) == model
    {
    }

    method HandOut() returns (buffer: Buffer)
      requires Valid() && locked == 0
      modifies this`filled, this`lockedPtr, this`locked, this`model
      ensures Valid() && model == GetStep(old(model)) && Handed(buffer) && ShownNext(buffer)
      ensures buffer.frames != 0 <==> lockedPtr.Some?
      ensures Advanced(old(lockedPtr), old(filled), lockedPtr, filled) && locked == buffer.frames
    {
      assert !model.locked;
      GetKeeps(period, |offs|, model);
      hide Inv, Peeked, Scalars, Agrees, Handed, Carved, GetStep, PaddingStep, Shown, Advanced;
      ghost var was := model;
      var padding := CapturePadding();
      buffer := Lend(was);
    }

    /** The same by what is in memory. */
    ghost predicate Shown(b: Buffer, i: nat, offs: seq<nat>, marks: seq<bool>, stamps: seq<nat>, clock: nat) {
      && i < |offs| == |marks| == |stamps| && 0 < frame
      && b.frames == period / frame && b.data == offs[i] && b.discontinuity == marks[i] && b.qpcpos == stamps[i]
      && b.devpos == (if marks[i] then clock + period else clock) / frame
    }

    /** The oldest filled packet has become the one the application looks at, if it had none. */
    ghost predicate Advanced(was: Option<nat>, before: seq<nat>, ptr: Option<nat>, filled: seq<nat>) {
      if was.None? && before != [] then ptr == Some(before[0]) && filled == before[1..]
      else ptr == was && filled == before
    }

    ghost predicate ShownNext(b: Buffer)
      reads this`lockedPtr, this`clockWritten, stamps, marks
    {
      if lockedPtr.None? then b == Buffer(0, 0, false, 0, 0)
      else Shown(b, lockedPtr.value, offs, marks[..], stamps[..], clockWritten)
    }

    /** The application is told of the packet it gets, or that there is none. */
    ghost predicate Handed(b: Buffer)
      requires 0 < frame
      reads this`model, local
    {
      && (b.frames != 0 <==> model.next.Some?)
      && if model.next.Some? then Tells(b, model.clock, model.next.value) else b == Buffer(0, 0, false, 0, 0)
    }

    method Lend(ghost was: State) returns (buffer: Buffer)
      requires Carved() && Scalars() && Agrees() && locked == 0 && model == PaddingStep(was) && !was.locked
      modifies this`locked, this`model
      ensures Scalars() && Agrees() && model == GetStep(was) && Handed(buffer) && ShownNext(buffer)
      ensures buffer.frames != 0 <==> lockedPtr.Some?
      ensures locked == buffer.frames
    {
      WholeFrame();
      SameNext();
      hide Carved, Scalars, Agrees, Tells, Frames, GetStep, PaddingStep;
      buffer := Buffer(0, 0, false, 0, 0);
      if lockedPtr.Some? { buffer := Describe(); }
      LockFrames(buffer.frames, was);
    }

    lemma SameNext()
      requires Carved() && Agrees()
      ensures lockedPtr == None <==> model.next == None
    {
    }

    method LockFrames(frames: nat, ghost was: State)
      requires Carved() && Scalars() && Agrees() && locked == 0 && model == PaddingStep(was) && !was.locked
      requires frames == if model.next.Some? then Frames(period) else 0
      modifies this`locked, this`model
      ensures Scalars() && Agrees() && model == GetStep(was) && model.next == old(model).next
              && model.clock == old(model).clock && locked == frames
    {
      WholeFrame();
      hide Carved, OnePlace;
      locked := frames;
      model := model.(locked := model.next.Some?);
    }

    method Describe() returns (b: Buffer)
      requires Carved() && Scalars() && Agrees() && lockedPtr.Some? && model.next.Some?
      ensures b.frames == Frames(period) && Tells(b, model.clock, model.next.value) && ShownNext(b)
    {
      Known();
      hide Agrees;
      var i := lockedPtr.value;
      var devpos := Frames(if marks[i] then clockWritten + period else clockWritten);
      b := Buffer(Frames(period), offs[i], marks[i], devpos, stamps[i]);
    }

    lemma WholeFrame()
      requires Carved()
      ensures 0 < Frames(period)
    {
    }

    /** Takes a packet back from the application, or leaves it to be handed out again. */
    method ReleaseBuffer(done: nat) returns (result: Result)
      requires Valid()
      modifies this`free, this`lockedPtr, this`locked, this`held, this`clockWritten, this`model
      ensures Valid()
      ensures result == if old(locked) == 0 && done != 0 then OutOfOrder
                        else if done != 0 && done != old(locked) then InvalidSize else Ok
      ensures model == if result == Ok then ReleaseStep(period, old(model), 0 < done) else old(model)
      ensures result == Ok && 0 < done ==>
                && old(lockedPtr).Some? && old(lockedPtr).value < marks.Length && period <= old(held)
                && var i := old(lockedPtr).value;
                   && free == old(free) + [i] && lockedPtr == None && locked == 0 && held == old(held) - period
                   && clockWritten == old(clockWritten) + if marks[i] then 2 * period else period
      ensures result != Ok || done == 0 ==>
                (free, lockedPtr, held, clockWritten) == old((free, lockedPtr, held, clockWritten))
      ensures result != Ok ==> locked == old(locked)
      ensures result == Ok ==> locked == 0
    {
      hide Inv, Peeked, Carved, Scalars, Agrees, ReleaseStep;
      if locked == 0 && done != 0 { return OutOfOrder; }
      if done != 0 && locked != done { return InvalidSize; }
      ReleaseKeeps(period, |offs|, model, done != 0);
      LockedByPackets();
      if done != 0 { GiveBack(); } else { LeaveLocked(); }
      return Ok;
    }

    method LeaveLocked()
      requires Carved() && Scalars() && Agrees() && (model.locked ==> model.next.Some?)
      modifies this`locked, this`model
      ensures Scalars() && Agrees() && model == ReleaseStep(period, old(model), false) && locked == 0
    {
      hide Carved, OnePlace;
      locked := 0;
      model := ReleaseStep(period, model, false);
    }

    lemma LockedByPackets()
      requires Valid()
      ensures model.locked ==> model.next.Some?
      ensures locked != 0 ==> lockedPtr.Some? && model.next.Some? && period <= held
    {
      Known();
      hide Peeked, OnePlace, Memory.Lists;
    }

    method GiveBack()
      requires Carved() && Scalars() && Agrees() && locked != 0 && lockedPtr.Some? && model.next.Some? && period <= held
      modifies this`free, this`lockedPtr, this`locked, this`held, this`clockWritten, this`model
      ensures Scalars() && Agrees() && model == ReleaseStep(period, old(model), true)
      ensures var i := old(lockedPtr).value;
              && i < marks.Length && free == old(free) + [i] && lockedPtr == None
              && locked == 0 && held == old(held) - period
              && clockWritten == old(clockWritten) + if marks[i] then 2 * period else period
    {
      Known();
      held := held - period;
      clockWritten := clockWritten + (if marks[lockedPtr.value] then 2 * period else period);
      hide Carved, OnePlace, Agrees, Frames;
      FreeLocked();
      locked := 0;
      model := ReleaseStep(period, model, true);
      Returned();
    }

    twostate lemma Returned()
      requires Carved() && old(Agrees()) && unchanged(local) && unchanged(stamps) && unchanged(marks)
      requires filled == old(filled) && lockedPtr == None && OnePlace(free, filled, None, |offs|)
      requires model.filled == old(model.filled) && model.next == None
      ensures Agrees()
    {
      NoneListed();
      hide OnePlace, Memory.Lists;
    }

    lemma NoneListed()
      requires Carved()
      ensures Packets().Lists([], [])
    {
    }

    method FreeLocked()
      requires OnePlace(free, filled, lockedPtr, |offs|) && lockedPtr.Some?
      modifies this`free, this`lockedPtr
      ensures free == old(free) + [old(lockedPtr.value)] && lockedPtr == None && OnePlace(free, filled, None, |offs|)
    {
      PlaceBack(free, filled, lockedPtr.value, |offs|);
      free := free + [lockedPtr.value];
      lockedPtr := None;
    }

    method FreeAll()
      requires OnePlace(free, filled, lockedPtr, |offs|)
      modifies this`free, this`filled, this`lockedPtr
      ensures filled == [] && lockedPtr == None && OnePlace(free, [], None, |offs|)
      ensures free == old(free) + Numbers(old(lockedPtr)) + old(filled)
    {
      hide OnePlace;
      if lockedPtr.Some? { FreeLocked(); }
      PlaceAll(free, filled, |offs|);
      free, filled := free + filled, [];
    }

    method DropAll()
      requires Carved() && Scalars() && Agrees() && !started && locked == 0
      modifies this`free, this`filled, this`lockedPtr, this`held, this`clockWritten, this`model
      ensures Scalars() && Agrees() && model == ResetStep(old(model)) && filled == [] && lockedPtr == None
      ensures free == old(free) + Numbers(old(lockedPtr)) + old(filled)
      ensures held == 0 && clockWritten == old(clockWritten) + old(held)
    {
      Known();
      hide Carved, OnePlace, Agrees;
      clockWritten := clockWritten + held;
      held := 0;
      FreeAll();
      model := ResetStep(model);
      NoneAgrees();
    }

    lemma NoneAgrees()
      requires Carved() && filled == [] && model.filled == [] && lockedPtr == None && model.next == None
      requires OnePlace(free, [], None, |offs|)
      ensures Agrees()
    {
      NoneListed();
    }

    /** Drops all sound that has not been released. */
    method Reset(ready: bool) returns (result: Result)
      requires Valid()
      modifies this`free, this`filled, this`lockedPtr, this`held, this`clockWritten, this`model
      ensures Valid() && model == if ready then ResetStep(old(model)) else old(model)
      ensures result == if !ready then DeviceInvalidated else if started then NotStopped
                        else if 0 < locked then OperationPending else Ok
      ensures result != Ok ==>
                (free, filled, lockedPtr, held, clockWritten) == old((free, filled, lockedPtr, held, clockWritten))
      ensures result == Ok ==>
                && filled == [] && lockedPtr == None && held == 0 && clockWritten == old(clockWritten) + old(held)
                && free == old(free) + (if old(lockedPtr).Some? then [old(lockedPtr).value] else []) + old(filled)
    {
      if !ready { return DeviceInvalidated; }
      if started { return NotStopped; }
      if locked != 0 { return OperationPending; }
      ResetKeeps(period, |offs|, model);
      hide Inv, Peeked, Agrees;
      DropAll();
      return Ok;
    }

    method Start(ready: bool, noEvent: bool, uncorked: bool) returns (result: Result)
      requires Valid()
      modifies this`started, this`model
      ensures Valid() && model == old(model).(started := started)
      ensures started == (old(started) || (ready && !noEvent && uncorked))
      ensures result == if !ready then Ok else if noEvent then EventHandleNotSet else if old(started) then NotStopped
                        else if uncorked then Ok else Fail
    {
      StartStopKeeps(period, |offs|, model, true);
      hide Inv, Peeked;
      if !ready { return Ok; }
      if noEvent { return EventHandleNotSet; }
      if started { return NotStopped; }
      if !uncorked { return Fail; }
      started := true;
      model := model.(started := true);
      return Ok;
    }

    method Stop(ready: bool) returns (result: Result)
      requires Valid()
      modifies this`started, this`model
      ensures Valid() && model == old(model).(started := started) && started == (old(started) && !ready)
      ensures result == if !ready then DeviceInvalidated else if old(started) then Ok else AlreadyStopped
    {
      StartStopKeeps(period, |offs|, model, false);
      hide Inv, Peeked;
      if !ready { return DeviceInvalidated; }
      if !started { return AlreadyStopped; }
      started := false;
      model := model.(started := false);
      return Ok;
    }
  }

  /** Some sound has been used up to what is pending now; done are its periods so far. */
  ghost predicate ReadUpTo(period: nat, started: bool, start: State, done: seq<seq<byte>>, m: State,
                           pending: seq<byte>, sound: seq<byte>)
    requires 0 < period
  {
    && Rest(period, pending) == Rest(period, sound) && done + Periods(period, pending) == Periods(period, sound)
    && Alike(start, m)
    && if started then Arrive(period, start, done, m) && m.recording == start.recording + done else m == start
  }

  lemma ReadFurther(period: nat, started: bool, start: State, done: seq<seq<byte>>, was: State, pending: seq<byte>,
                    sound: seq<byte>, stamp: nat, m: State)
    requires 0 < period <= |pending| && ReadUpTo(period, started, start, done, was, pending, sound)
    requires if started then Arrival(period, was, stamp, pending[..period], m) && Alike(was, m)
                             && m.recording == was.recording + [pending[..period]]
             else m == was
    ensures ReadUpTo(period, started, start, done + [pending[..period]], m, pending[period..], sound)
  {
    NextPeriod(period, done, pending);
    hide Rest, Periods, Alike, Arrive, Arrival;
    if started {
      AlikeAgain(start, was, m);
      ArriveMore(period, start, done, was, stamp, pending[..period], m);
    }
  }

  lemma NextPeriod(period: nat, done: seq<seq<byte>>, pending: seq<byte>)
    requires 0 < period <= |pending|
    ensures done + [pending[..period]] + Periods(period, pending[period..]) == done + Periods(period, pending)
    ensures Rest(period, pending[period..]) == Rest(period, pending)
  {
  }

  lemma ReadUp(period: nat, started: bool, start: State, done: seq<seq<byte>>, m: State, pending: seq<byte>,
               sound: seq<byte>)
    requires 0 < period && ReadUpTo(period, started, start, done, m, pending, sound) && |pending| < period
    ensures pending == Rest(period, sound) && Alike(start, m) && done == Periods(period, sound)
    ensures if started then Arrive(period, start, done, m) && m.recording == start.recording + done else m == start
  {
  }

  lemma AllFree(pool: nat)
    ensures OnePlace(seq(pool, i => i), [], None, pool)
  {
  }

  lemma {:induction false} ContentsMore(silence: byte, fs: seq<Fragment>, f: Fragment)
    ensures Contents(silence, fs + [f]) == Contents(silence, fs) + Content(silence, f)
  {
    if fs != [] {
      ContentsMore(silence, fs[1..], f);
      assert (fs + [f])[1..] == fs[1..] + [f];
    } else {
      assert (fs + [f])[1..] == [];
    }
  }
}
