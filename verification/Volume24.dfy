/** Volume adjustment of packed 24-bit samples: twelve bytes at a time through 32-bit words, then
    the rest sample by sample, against scaling every sample on its own. */
module Volume24 {
  import opened Common

  type Octet = bv8

  /** A sample widened to the top 24 bits of a word. */
  function Widen(b0: Octet, b1: Octet, b2: Octet): bv32 {
    ((b0 as bv32) << 8) | ((b1 as bv32) << 16) | ((b2 as bv32) << 24)
  }

  /** The bytes of a sample are those of the word, from the second on. */
  lemma WidenBytes(b0: Octet, b1: Octet, b2: Octet)
    ensures var w := Widen(b0, b1, b2);
            && w & 0xff == 0 && (w >> 8) & 0xff == b0 as bv32 && (w >> 16) & 0xff == b1 as bv32 && w >> 24 == b2 as bv32
  {
  }

  function Low(v: bv32): Octet { ((v >> 8) & 0xff) as Octet }
  function Mid(v: bv32): Octet { ((v >> 16) & 0xff) as Octet }
  function High(v: bv32): Octet { (v >> 24) as Octet }

  /** A little-endian word of four bytes. */
  function Word(b0: Octet, b1: Octet, b2: Octet, b3: Octet): bv32 {
    (b0 as bv32) | ((b1 as bv32) << 8) | ((b2 as bv32) << 16) | ((b3 as bv32) << 24)
  }

  function Byte0(w: bv32): Octet { (w & 0xff) as Octet }
  function Byte1(w: bv32): Octet { ((w >> 8) & 0xff) as Octet }
  function Byte2(w: bv32): Octet { ((w >> 16) & 0xff) as Octet }
  function Byte3(w: bv32): Octet { (w >> 24) as Octet }

  // the four samples in three words of packed bytes
  function First(q0: bv32): bv32 { q0 << 8 }
  function Second(q0: bv32, q1: bv32): bv32 { (q1 << 16) | ((q0 >> 16) & 0xffff_ff00) }
  function Third(q1: bv32, q2: bv32): bv32 { (q2 << 24) | ((q1 >> 8) & 0xffff_ff00) }
  function Fourth(q2: bv32): bv32 { q2 & 0xffff_ff00 }

  lemma Unpack(b0: Octet, b1: Octet, b2: Octet, b3: Octet, b4: Octet, b5: Octet,
               b6: Octet, b7: Octet, b8: Octet, b9: Octet, b10: Octet, b11: Octet)
    ensures var q0, q1, q2 := Word(b0, b1, b2, b3), Word(b4, b5, b6, b7), Word(b8, b9, b10, b11);
            && First(q0) == Widen(b0, b1, b2) && Second(q0, q1) == Widen(b3, b4, b5)
            && Third(q1, q2) == Widen(b6, b7, b8) && Fourth(q2) == Widen(b9, b10, b11)
  {
  }

  // four scaled samples packed into three words
  function Packed0(v0: bv32, v1: bv32): bv32 { (v0 >> 8) | ((v1 & 0xffff_ff00) << 16) }
  function Packed1(v1: bv32, v2: bv32): bv32 { (v1 >> 16) | ((v2 & 0xffff_ff00) << 8) }
  function Packed2(v2: bv32, v3: bv32): bv32 { (v2 >> 24) | (v3 & 0xffff_ff00) }

  function Bytes(w: bv32): (r: seq<Octet>)
    ensures |r| == 4
  {
    [Byte0(w), Byte1(w), Byte2(w), Byte3(w)]
  }

  function Triple(v: bv32): (r: seq<Octet>)
    ensures |r| == 3
  {
    [Low(v), Mid(v), High(v)]
  }

  /** What is written of a scaled sample is all but its lowest byte. */
  lemma TripleBack(v: bv32)
    ensures Widen(Triple(v)[0], Triple(v)[1], Triple(v)[2]) == v & 0xffff_ff00
  {
  }

  lemma PackedBytes(v0: bv32, v1: bv32, v2: bv32, v3: bv32)
    ensures Bytes(Packed0(v0, v1)) == Triple(v0) + [Low(v1)]
    ensures Bytes(Packed1(v1, v2)) == [Mid(v1), High(v1)] + [Low(v2), Mid(v2)]
    ensures Bytes(Packed2(v2, v3)) == [High(v2)] + Triple(v3)
  {
  }

  lemma Pack(v0: bv32, v1: bv32, v2: bv32, v3: bv32)
    ensures Bytes(Packed0(v0, v1)) + Bytes(Packed1(v1, v2)) + Bytes(Packed2(v2, v3))
         == Triple(v0) + Triple(v1) + Triple(v2) + Triple(v3)
  {
    PackedBytes(v0, v1, v2, v3);
    hide Bytes, Packed0, Packed1, Packed2, Low, Mid, High;
  }

  // ---- what scaling means ------------------------------------------------------------------

  /** Scaling one widened sample for one channel: the volume arithmetic itself is left open. */
  type Scale = (bv32, nat) -> bv32

  function Next(channel: nat, channels: nat): nat {
    if channel + 1 == channels then 0 else channel + 1
  }

  function Sample(b0: Octet, b1: Octet, b2: Octet, channel: nat, scale: Scale): (r: seq<Octet>)
    ensures |r| == 3
  {
    Triple(scale(Widen(b0, b1, b2), channel))
  }

  /** Every sample scaled on its own, the channels taking turns. */
  function Scaled(bytes: seq<Octet>, channel: nat, channels: nat, scale: Scale): (r: seq<Octet>)
    requires |bytes| % 3 == 0
    ensures |r| == |bytes|
  {
    if bytes == [] then []
    else Sample(bytes[0], bytes[1], bytes[2], channel, scale)
         + Scaled(bytes[3..], Next(channel, channels), channels, scale)
  }

  /** Sample k gets the volume of channel k modulo the number of channels. */
  lemma {:induction false} SampleAt(bytes: seq<Octet>, channel: nat, channels: nat, scale: Scale, k: nat)
    requires |bytes| % 3 == 0 && channel < channels && 3 * k < |bytes|
    ensures var r := Scaled(bytes, channel, channels, scale);
            r[3 * k..3 * k + 3] ==
            Sample(bytes[3 * k], bytes[3 * k + 1], bytes[3 * k + 2], (channel + k) % channels, scale)
  {
    hide Sample;
    if k == 0 {
      SmallMod(channel, channels);
    } else {
      SampleAt(bytes[3..], Next(channel, channels), channels, scale, k - 1);
      var first := Sample(bytes[0], bytes[1], bytes[2], channel, scale);
      var rest := Scaled(bytes[3..], Next(channel, channels), channels, scale);
      assert (first + rest)[3 * k..3 * k + 3] == rest[3 * k - 3..3 * k];
      NextMod(channel, channels, k);
    }
  }

  lemma SmallMod(a: nat, m: nat)
    requires a < m
    ensures a % m == a
  {
  }

  lemma NextMod(channel: nat, channels: nat, k: nat)
    requires channel < channels && 1 <= k
    ensures (Next(channel, channels) + (k - 1)) % channels == (channel + k) % channels
  {
    if channel + 1 == channels {
      assert channel + k == channels + (k - 1);
      AddMod(k - 1, channels);
    }
  }

  lemma AddMod(a: nat, m: nat)
    requires 0 < m
    ensures (m + a) % m == a % m
  {
    var q, r := (m + a) / m - a / m - 1, (m + a) % m - a % m;
    assert q * m + r == 0;
    if q >= 1 { AtLeast(q, m); }
    if q <= -1 { AtLeast(-q, m); }
  }

  /** The channel after so many samples. */
  function After(channel: nat, channels: nat, samples: nat): nat
    decreases samples
  {
    if samples == 0 then channel else After(Next(channel, channels), channels, samples - 1)
  }

  lemma Associate(x: seq<Octet>, y: seq<Octet>, z: seq<Octet>)
    ensures x + (y + z) == (x + y) + z
  {
  }

  lemma {:induction false} Concat(a: seq<Octet>, b: seq<Octet>, channel: nat, channels: nat, scale: Scale)
    requires |a| % 3 == 0 && |b| % 3 == 0
    ensures Scaled(a + b, channel, channels, scale) ==
            Scaled(a, channel, channels, scale) + Scaled(b, After(channel, channels, |a| / 3), channels, scale)
  {
    hide Sample;
    if a == [] {
      assert a + b == b;
    } else {
      var c := Next(channel, channels);
      assert (a + b)[0] == a[0] && (a + b)[1] == a[1] && (a + b)[2] == a[2];
      Concat(a[3..], b, c, channels, scale);
      assert (a + b)[3..] == a[3..] + b;
      Associate(Sample(a[0], a[1], a[2], channel, scale), Scaled(a[3..], c, channels, scale),
                Scaled(b, After(channel, channels, |a| / 3), channels, scale));
    }
  }

  lemma {:induction false} WholeFrames(channel: nat, channels: nat, samples: nat, frames: nat)
    requires channel < channels && samples == frames * channels
    ensures After(channel, channels, samples) == channel
    decreases frames
  {
    if frames != 0 {
      assert samples == channels + (frames - 1) * channels;
      Turn(channel, channels, channels - channel);
      AfterSum(channel, channels, channels - channel, channel);
      FromZero(channels, channel);
      AfterSum(channel, channels, channels, samples - channels);
      WholeFrames(channel, channels, samples - channels, frames - 1);
    }
  }

  lemma {:induction false} AfterSum(channel: nat, channels: nat, a: nat, b: nat)
    ensures After(channel, channels, a + b) == After(After(channel, channels, a), channels, b)
    decreases a
  {
    if a != 0 { AfterSum(Next(channel, channels), channels, a - 1, b); }
  }

  /** Counting up to the last channel wraps to the first. */
  lemma {:induction false} Turn(channel: nat, channels: nat, left: nat)
    requires channel < channels && left == channels - channel
    ensures After(channel, channels, left) == 0
    decreases left
  {
    if left != 1 { Turn(channel + 1, channels, left - 1); }
  }

  lemma {:induction false} FromZero(channels: nat, channel: nat)
    requires channel < channels
    ensures After(0, channels, channel) == channel
  {
    if channel != 0 {
      FromZero(channels, channel - 1);
      AfterSum(0, channels, channel - 1, 1);
    }
  }

  /** Scaling a buffer in two chunks of whole frames, as happens where the ring wraps, is scaling it
      at once. */
  lemma ChunksAgree(a: seq<Octet>, b: seq<Octet>, frames: nat, channels: nat, scale: Scale)
    requires 0 < channels && |b| % 3 == 0 && |a| == 3 * (frames * channels)
    ensures Scaled(a + b, 0, channels, scale) == Scaled(a, 0, channels, scale) + Scaled(b, 0, channels, scale)
  {
    hide Scaled;
    var samples := frames * channels;
    assert |a| / 3 == samples;
    WholeFrames(0, channels, samples, frames);
    hide After;
    Concat(a, b, 0, channels, scale);
  }

  // ---- the code ----------------------------------------------------------------------------

  /** The four samples of a twelve-byte group, scaled. */
  function Group(b: seq<Octet>, channel: nat, channels: nat, scale: Scale): (r: seq<Octet>)
    requires |b| == 12
    ensures |r| == 12
  {
    var c1 := Next(channel, channels);
    var c2 := Next(c1, channels);
    Sample(b[0], b[1], b[2], channel, scale) + Sample(b[3], b[4], b[5], c1, scale)
    + Sample(b[6], b[7], b[8], c2, scale) + Sample(b[9], b[10], b[11], Next(c2, channels), scale)
  }

  lemma GroupScaled(b: seq<Octet>, channel: nat, channels: nat, scale: Scale)
    requires |b| == 12
    ensures Scaled(b, channel, channels, scale) == Group(b, channel, channels, scale)
  {
    hide Sample;
    var c1 := Next(channel, channels);
    var c2 := Next(c1, channels);
    var b1, b2, b3 := b[3..], b[6..], b[9..];
    assert b1[3..] == b2 && b2[3..] == b3 && b3[3..] == [];
    assert Scaled(b3, Next(c2, channels), channels, scale)
        == Sample(b[9], b[10], b[11], Next(c2, channels), scale);
    assert Scaled(b2, c2, channels, scale)
        == Sample(b[6], b[7], b[8], c2, scale) + Sample(b[9], b[10], b[11], Next(c2, channels), scale);
  }

  method PutWord(buffer: array<Octet>, q: nat, w: bv32)
    requires q + 4 <= buffer.Length
    modifies buffer
    ensures buffer[..] == Patch(old(buffer[..]), q, Bytes(w))
  {
    buffer[q], buffer[q + 1], buffer[q + 2], buffer[q + 3] := Byte0(w), Byte1(w), Byte2(w), Byte3(w);
  }

  method PutGroup(buffer: array<Octet>, q: nat, v0: bv32, v1: bv32, v2: bv32, v3: bv32)
    requires q + 12 <= buffer.Length
    modifies buffer
    ensures buffer[..] == Patch(old(buffer[..]), q, Triple(v0) + Triple(v1) + Triple(v2) + Triple(v3))
  {
    hide *;
    var q0, q1, q2 := Packed0(v0, v1), Packed1(v1, v2), Packed2(v2, v3);
    Pack(v0, v1, v2, v3);
    PatchTwice(buffer[..], q, Bytes(q0), Bytes(q1));
    PatchTwice(buffer[..], q, Bytes(q0) + Bytes(q1), Bytes(q2));
    PutWord(buffer, q, q0);
    PutWord(buffer, q + 4, q1);
    PutWord(buffer, q + 8, q2);
  }

  /** The samples of a twelve-byte group taken out of its three words, and scaled. */
  method ScaleWords(q0: bv32, q1: bv32, q2: bv32, channel: nat, channels: nat, scale: Scale, ghost b: seq<Octet>)
    returns (i: nat, v0: bv32, v1: bv32, v2: bv32, v3: bv32)
    requires |b| == 12 && q0 == Word(b[0], b[1], b[2], b[3])
    requires q1 == Word(b[4], b[5], b[6], b[7]) && q2 == Word(b[8], b[9], b[10], b[11])
    ensures i == After(channel, channels, 4)
    ensures Triple(v0) + Triple(v1) + Triple(v2) + Triple(v3) == Group(b, channel, channels, scale)
  {
    hide Widen, First, Second, Third, Fourth, Word, Triple, After;
    Unpack(b[0], b[1], b[2], b[3], b[4], b[5], b[6], b[7], b[8], b[9], b[10], b[11]);
    i := channel;
    v0 := scale(First(q0), i);
    i := if i + 1 == channels then 0 else i + 1;
    v1 := scale(Second(q0, q1), i);
    i := if i + 1 == channels then 0 else i + 1;
    v2 := scale(Third(q1, q2), i);
    i := if i + 1 == channels then 0 else i + 1;
    v3 := scale(Fourth(q2), i);
    FourOn(channel, channels);
    i := if i + 1 == channels then 0 else i + 1;
  }

  lemma FourOn(channel: nat, channels: nat)
    ensures After(channel, channels, 4) == Next(Next(Next(Next(channel, channels), channels), channels), channels)
  {
  }

  method ScaleGroup(buffer: array<Octet>, q: nat, channel: nat, channels: nat, scale: Scale) returns (i: nat)
    requires q + 12 <= buffer.Length && (buffer.Length - q) % 3 == 0
    modifies buffer
    ensures Outcome(buffer[..], q + 12, i, channels, scale) == Outcome(old(buffer[..]), q, channel, channels, scale)
  {
    ghost var now := buffer[..];
    GroupScaled(now[q..q + 12], channel, channels, scale);
    var v0, v1, v2, v3;
    i, v0, v1, v2, v3 := ScaleWords(
      Word(buffer[q], buffer[q + 1], buffer[q + 2], buffer[q + 3]),
      Word(buffer[q + 4], buffer[q + 5], buffer[q + 6], buffer[q + 7]),
      Word(buffer[q + 8], buffer[q + 9], buffer[q + 10], buffer[q + 11]),
      channel, channels, scale, now[q..q + 12]);
    PutGroup(buffer, q, v0, v1, v2, v3);
    Progress(now, buffer[..], q, 4, channel, channels, scale);
  }

  method ScaleOne(buffer: array<Octet>, q: nat, channel: nat, channels: nat, scale: Scale) returns (i: nat)
    requires q + 3 <= buffer.Length && (buffer.Length - q) % 3 == 0
    modifies buffer
    ensures Outcome(buffer[..], q + 3, i, channels, scale) == Outcome(old(buffer[..]), q, channel, channels, scale)
  {
    ghost var now := buffer[..];
    ghost var b := now[q..q + 3];
    var v := scale(Widen(buffer[q], buffer[q + 1], buffer[q + 2]), channel);
    assert Scaled(b, channel, channels, scale) == Triple(v);
    buffer[q], buffer[q + 1], buffer[q + 2] := Low(v), Mid(v), High(v);
    i := if channel + 1 == channels then 0 else channel + 1;
    Progress(now, buffer[..], q, 1, channel, channels, scale);
  }

  /** The buffer as it will be: the part before q is done, the rest is still to be scaled. */
  function Outcome(s: seq<Octet>, q: nat, i: nat, channels: nat, scale: Scale): seq<Octet>
    requires q <= |s| && (|s| - q) % 3 == 0
  {
    s[..q] + Scaled(s[q..], i, channels, scale)
  }

  lemma Progress(now: seq<Octet>, after: seq<Octet>, q: nat, n: nat, i: nat, channels: nat, scale: Scale)
    requires q + 3 * n <= |now| && (|now| - q) % 3 == 0
    requires after == Patch(now, q, Scaled(now[q..q + 3 * n], i, channels, scale))
    ensures Outcome(now, q, i, channels, scale)
         == Outcome(after, q + 3 * n, After(i, channels, n), channels, scale)
  {
    hide Patch, Scaled, After;
    var a, b := now[q..q + 3 * n], now[q + 3 * n..];
    assert Scaled(now[q..], i, channels, scale)
           == Scaled(a, i, channels, scale) + Scaled(b, After(i, channels, n), channels, scale) by {
      assert now[q..] == a + b;
      Concat(a, b, i, channels, scale);
    }
    PutEnds(now, q, Scaled(a, i, channels, scale));
    Associate(now[..q], Scaled(a, i, channels, scale), Scaled(b, After(i, channels, n), channels, scale));
  }

  lemma PutEnds(s: seq<Octet>, q: nat, w: seq<Octet>)
    requires q + |w| <= |s|
    ensures Patch(s, q, w)[..q + |w|] == s[..q] + w && Patch(s, q, w)[q + |w|..] == s[q + |w|..]
  {
  }

  /** The volume loop for packed 24-bit samples. */
  method ScaleBuffer(buffer: array<Octet>, channels: nat, scale: Scale)
    requires buffer.Length % 3 == 0
    modifies buffer
    ensures buffer[..] == Scaled(old(buffer[..]), 0, channels, scale)
  {
    hide *;
    var i: nat := 0;
    var q := 0;
    Whole(buffer[..], channels, scale);
    while buffer.Length - q >= 12
      invariant q <= buffer.Length && (buffer.Length - q) % 3 == 0
      invariant Outcome(buffer[..], q, i, channels, scale) == Scaled(old(buffer[..]), 0, channels, scale)
    {
      i := ScaleGroup(buffer, q, i, channels, scale);
      q := q + 12;
    }
    ScaleTail(buffer, q, i, channels, scale);
  }

  method ScaleTail(buffer: array<Octet>, start: nat, channel0: nat, channels: nat, scale: Scale)
    requires start <= buffer.Length && (buffer.Length - start) % 3 == 0
    modifies buffer
    ensures buffer[..] == Outcome(old(buffer[..]), start, channel0, channels, scale)
  {
    hide *;
    var q, i: nat := start, channel0;
    while q != buffer.Length
      invariant q <= buffer.Length && (buffer.Length - q) % 3 == 0
      invariant Outcome(buffer[..], q, i, channels, scale) == Outcome(old(buffer[..]), start, channel0, channels, scale)
    {
      ThreeLeft(buffer.Length - q);
      i := ScaleOne(buffer, q, i, channels, scale);
      q := q + 3;
    }
    Finished(buffer[..], i, channels, scale);
  }

  lemma ThreeLeft(left: nat)
    requires left % 3 == 0 && left != 0
    ensures 3 <= left && (left - 3) % 3 == 0
  {
  }

  lemma Whole(s: seq<Octet>, channels: nat, scale: Scale)
    requires |s| % 3 == 0
    ensures Outcome(s, 0, 0, channels, scale) == Scaled(s, 0, channels, scale)
  {
  }

  lemma Finished(s: seq<Octet>, i: nat, channels: nat, scale: Scale)
    ensures Outcome(s, |s|, i, channels, scale) == s
  {
  }
}
