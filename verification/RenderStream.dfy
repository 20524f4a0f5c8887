/** The render side of a PulseAudio stream as the driver keeps it: a ring of bytes with one writer
    and two readers, updated in place. Every method is proved against RenderModel. */
module RenderStream {
  import opened RenderModel
  import opened Common

  // ---- reading and writing a ring ----------------------------------------------------------

  /** The ring read once round from position w: oldest byte first when w is where the next goes. */
  function Turned(ring: seq<byte>, w: nat): (r: seq<byte>)
    requires w <= |ring|
    ensures |r| == |ring|
  {
    ring[w..] + ring[..w]
  }

  lemma TurnedPatch(ring: seq<byte>, w: nat, d: seq<byte>)
    requires w + |d| <= |ring|
    ensures Turned(Patch(ring, w, d), w) == d + Turned(ring, w)[|d|..]
  {
  }

  /** Rewriting part of a stretch of the ring rewrites the stretch. */
  lemma PatchWithin(ring: seq<byte>, w: nat, n: nat, at: nat, d: seq<byte>)
    requires w + n <= |ring| && at + |d| <= n
    ensures Patch(ring, w + at, d) == Patch(ring, w, Patch(ring[w..w + n], at, d))
  {
  }

  lemma TurnedWrap(ring: seq<byte>, w: nat, d: seq<byte>)
    requires w <= |ring| < w + |d| && |d| <= |ring|
    ensures var c := |ring| - w;
            Turned(Patch(Patch(ring, w, d[..c]), 0, d[c..]), w) == d + Turned(ring, w)[|d|..]
  {
    var c := |ring| - w;
    var after := Patch(Patch(ring, w, d[..c]), 0, d[c..]);
    assert after[w..] == d[..c] && after[..w] == d[c..] + ring[|d| - c..w];
    assert Turned(ring, w)[|d|..] == ring[|d| - c..w];
    assert d[..c] + (d[c..] + ring[|d| - c..w]) == d + ring[|d| - c..w];
  }

  lemma TurnedOn(ring: seq<byte>, w: nat, n: nat)
    requires w < |ring| && n <= |ring|
    ensures Turned(ring, Wrap(w + n, |ring|)) == Turned(ring, w)[n..] + Turned(ring, w)[..n]
  {
    if w + n < |ring| {
      assert ring[w..] == ring[w..w + n] + ring[w + n..];
      assert ring[..w + n] == ring[..w] + ring[w..w + n];
    } else {
      var m := w + n - |ring|;
      assert ring[..w] == ring[..m] + ring[m..w];
      assert ring[m..] == ring[m..w] + ring[w..];
    }
  }

  /** Storing d behind the pending bytes p, in a ring seen from there: what p reads as now. */
  lemma StoredBehind(turn: seq<byte>, p: seq<byte>, d: seq<byte>)
    requires |p| <= |turn| && |d| <= |turn| && turn[|turn| - |p|..] == p
    ensures var turn' := d + turn[|d|..];
            turn'[|turn| - |p|..] == Overlay(p, d, |turn|) && turn'[..|d|] == d
  {
  }

  lemma StoredAppends(turn: seq<byte>, p: seq<byte>, d: seq<byte>)
    requires |p| <= |turn| && |d| <= |turn| && turn[|turn| - |p|..] == p
    ensures var all := Append(p, d, |turn|);
            (turn[|d|..] + d)[|turn| - |all|..] == all
  {
  }

  /** Storing d where the next byte goes and moving on appends it to the pending bytes p. */
  lemma Committed(turn: seq<byte>, after: seq<byte>, w: nat, p: seq<byte>, d: seq<byte>)
    requires w < |after| == |turn| && |p| <= |turn| && |d| <= |turn| && turn[|turn| - |p|..] == p
    requires Turned(after, w) == d + turn[|d|..]
    ensures var all := Append(p, d, |turn|);
            Turned(after, Wrap(w + |d|, |turn|))[|turn| - |all|..] == all
  {
    TurnedOn(after, w, |d|);
    assert (d + turn[|d|..])[|d|..] == turn[|d|..] && (d + turn[|d|..])[..|d|] == d;
    StoredAppends(turn, p, d);
  }

  /** Rewriting part of a stretch d that begins where the next byte goes. */
  lemma Rewritten(ring: seq<byte>, w: nat, n: nat, at: nat, bytes: seq<byte>, p: seq<byte>)
    requires w + n <= |ring| && at + |bytes| <= n && |p| <= |ring| && Turned(ring, w)[|ring| - |p|..] == p
    ensures var d := Patch(ring[w..w + n], at, bytes);
            var turn := Turned(Patch(ring, w + at, bytes), w);
            turn[..n] == d && turn[|ring| - |p|..] == Overlay(p, d, |ring|)
  {
    var d := Patch(ring[w..w + n], at, bytes);
    PatchWithin(ring, w, n, at, bytes);
    TurnedPatch(ring, w, d);
    StoredBehind(Turned(ring, w), p, d);
  }

  /** Pending bytes p end where the next byte goes; they begin at o. A chunk of them in the ring. */
  lemma ChunkOf(ring: seq<byte>, w: nat, p: seq<byte>, o: nat, m: nat)
    requires w < |ring| && m <= |p| <= |ring| && o == Wrap(w + |ring| - |p|, |ring|)
    requires Turned(ring, w)[|ring| - |p|..] == p
    ensures o + m <= |ring| ==> ring[o..o + m] == p[..m]
    ensures |ring| < o + m ==> ring[o..] == p[..|ring| - o] && ring[..o + m - |ring|] == p[|ring| - o..m]
  {
    var T := Turned(ring, w);
    assert forall i :: 0 <= i < |p| ==> p[i] == T[|ring| - |p| + i];
  }

  // ---- the stream --------------------------------------------------------------------------

  class Stream {
    const geo: Geometry
    const local: array<byte>       // the ring
    var tmp: array<byte>           // for grants that would cross the end of the ring
    var lclOffs: nat               // the paced clock's read position, in bytes
    var paOffs: nat                // PulseAudio's read position, in bytes
    var held: nat                  // bytes left for the paced clock
    var paHeld: nat                // bytes left for PulseAudio
    var locked: int                // size of the grant in bytes; negative when it is in tmp
    var data: nat                  // where the last grant inside the ring begins
    var started: bool
    var justUnderran: bool
    var sent: seq<byte>            // what PulseAudio has received of the stream
    var gaps: seq<Gap>             // and the silence in between

    ghost var model: Fifo          // the queue these fields stand for

    ghost predicate Valid()
      reads this, local, tmp
    {
      && Inv(geo, model)
      && local.Length == geo.ring && tmp != local
      && Readers()
      && Granted()
      && (started, justUnderran, sent, gaps) == (model.started, model.underran, model.sent, model.gaps)
    }

    /** Both readers agree on where the next byte goes, and the pending bytes are those before it. */
    ghost predicate Readers()
      requires local.Length == geo.ring
      reads this`lclOffs, this`held, this`paOffs, this`paHeld, this`model, local
    {
      && held == geo.Bytes(model.held)
      && lclOffs < geo.ring && model.wpos < geo.ring && Wrap(lclOffs + held, geo.ring) == model.wpos
      && Pending(model.wpos, model.pending)
    }

    ghost predicate Pending(w: nat, p: seq<byte>)
      requires w < local.Length
      reads this`paOffs, this`paHeld, local
    {
      && paHeld == |p| <= local.Length && paOffs == Wrap(w + local.Length - |p|, local.Length)
      && Turned(local[..], w)[local.Length - |p|..] == p
    }

    /** The buffer handed out is where it was, and still where the next byte goes. */
    ghost predicate Granted()
      reads this`locked, this`data, this`tmp, this`model, local, tmp
    {
      match model.grant
      case Nothing => locked == 0
      case Grant(true, _, bytes) =>
        && locked == |bytes| <= local.Length && data == model.wpos <= local.Length
        && Turned(local[..], data)[..|bytes|] == bytes
      case Grant(false, _, bytes) =>
        locked == -|bytes| && |bytes| <= tmp.Length && tmp[..|bytes|] == bytes
    }

    constructor (g: Geometry)
      requires g.Valid()
      ensures Valid() && geo == g && fresh(local) && fresh(tmp)
      ensures model == Fifo([], 0, 0, Nothing, false, false, [], [], [])
    {
      geo := g;
      local := new byte[g.ring];
      tmp := new byte[0];
      lclOffs, paOffs, held, paHeld, locked, data := 0, 0, 0, 0, 0, 0;
      started, justUnderran := false, false;
      sent, gaps := [], [];
      model := Fifo([], 0, 0, Nothing, false, false, [], [], []);
    }

    // ---- handing bytes to PulseAudio ---------------------------------------------------------

    /** Full volume: the bytes go to PulseAudio as they are. */
    method WriteBuffer(offs: nat, bytes: nat)
      requires offs + bytes <= local.Length
      modifies this`sent
      ensures sent == old(sent) + local[offs..offs + bytes]
    {
      if bytes == 0 { return; }
      sent := sent + local[offs..offs + bytes];
    }

    method Prebuffer(writable: nat)
      modifies this`justUnderran, this`gaps
      ensures !justUnderran
      ensures gaps == if old(justUnderran) && paHeld < writable
                      then old(gaps) + [Gap(|sent|, writable - paHeld)] else old(gaps)
    {
      if justUnderran {
        if paHeld < writable {
          gaps := gaps + [Gap(|sent|, writable - paHeld)];
        }
        justUnderran := false;
      }
    }

    /** Sends the oldest pending bytes, the chunk up to the end of the ring first. */
    method WriteChunks(bytes: nat, ghost w: nat, ghost p: seq<byte>)
      requires w < local.Length && Pending(w, p) && bytes <= |p|
      modifies this`paOffs, this`paHeld, this`sent
      ensures Pending(w, p[bytes..]) && sent == old(sent) + p[..bytes] && paHeld == old(paHeld) - bytes
    {
      hide Pending, Turned;
      Oldest(w, p, bytes);
      var toWrite;
      if paOffs + bytes > local.Length {
        toWrite := local.Length - paOffs;
        assert p[..bytes] == p[..toWrite] + p[toWrite..bytes];
        WriteBuffer(paOffs, toWrite);
        paHeld := paHeld - toWrite;
        toWrite := bytes - toWrite;
        paOffs := 0;
      } else {
        toWrite := bytes;
      }
      WriteBuffer(paOffs, toWrite);
      paOffs := paOffs + toWrite;
      ModWrap(paOffs, local.Length);
      paOffs := paOffs % local.Length;
      paHeld := paHeld - toWrite;
      Taken(w, p, bytes);
    }

    /** Where the oldest m pending bytes are. */
    lemma Oldest(w: nat, p: seq<byte>, m: nat)
      requires w < local.Length && Pending(w, p) && m <= |p|
      ensures paHeld == |p| <= local.Length && paOffs == Wrap(w + local.Length - |p|, local.Length) < local.Length
      ensures Turned(local[..], w)[local.Length - |p|..] == p
      ensures paOffs + m <= local.Length ==> local[paOffs..paOffs + m] == p[..m]
      ensures local.Length < paOffs + m ==>
                var c := local.Length - paOffs; local[paOffs..local.Length] == p[..c] && local[..m - c] == p[c..m]
    {
      ChunkOf(local[..], w, p, paOffs, m);
    }

    /** The oldest m pending bytes have been read. */
    lemma Taken(w: nat, p: seq<byte>, m: nat)
      requires w < local.Length && m <= |p| <= local.Length && Turned(local[..], w)[local.Length - |p|..] == p
      requires paHeld == |p| - m
      requires paOffs == Wrap(Wrap(w + local.Length - |p|, local.Length) + m, local.Length)
      ensures Pending(w, p[m..])
    {
      hide Turned;
    }

    method PulseWrite(writable: nat)
      requires Valid()
      modifies this`paOffs, this`paHeld, this`justUnderran, this`sent, this`gaps, this`model
      ensures Valid() && model == WriteStep(old(model), writable)
      // all that is pending goes out, or as much as PulseAudio will take
      ensures paHeld == if old(paHeld) < writable then 0 else old(paHeld) - writable
      ensures old(paHeld) <= |old(model).pending| && sent == old(sent) + old(model).pending[..old(paHeld) - paHeld]
      ensures !justUnderran && gaps == if old(justUnderran && paHeld < writable)
                                       then old(gaps) + [Gap(|old(sent)|, writable - old(paHeld))] else old(gaps)
    {
      hide Inv, Granted, Pending;
      PendingSize(model.wpos, model.pending);
      WriteKeepsInv(geo, model, writable);
      Prebuffer(writable);
      WriteChunks(if paHeld < writable then paHeld else writable, model.wpos, model.pending);
      model := WriteStep(model, writable);
      GrantedStays();
    }

    lemma PendingSize(w: nat, p: seq<byte>)
      requires w < local.Length && Pending(w, p)
      ensures paHeld == |p|
    {
    }

    /** The grant is as it was when nothing it rests on has changed. */
    twostate lemma GrantedStays()
      requires old(Granted()) && local[..] == old(local[..]) && tmp == old(tmp) && tmp[..] == old(tmp[..])
      requires locked == old(locked) && data == old(data)
      requires model.grant == old(model.grant) && (model.wpos == old(model.wpos) || model.grant.Nothing?)
      ensures Granted()
    {
    }

    // ---- the application's buffer ------------------------------------------------------------

    method CopyIn(offs: nat, bytes: seq<byte>)
      requires offs + |bytes| <= local.Length
      modifies local
      ensures local[..] == Patch(old(local[..]), offs, bytes)
    {
      forall i | 0 <= i < |bytes| { local[offs + i] := bytes[i]; }
    }

    method AllocTmpBuffer(bytes: nat, allocOk: bool) returns (ok: bool)
      modifies this`tmp
      ensures ok == (allocOk || bytes <= old(tmp.Length))
      ensures ok ==> bytes <= tmp.Length
      ensures tmp == old(tmp) || fresh(tmp)
    {
      if tmp.Length >= bytes { return true; }
      if allocOk { tmp := new byte[bytes]; } else { tmp := new byte[0]; }
      ok := allocOk;
    }

    method WriteOffs() returns (offs: nat)
      requires 0 < geo.ring == local.Length && Readers()
      ensures offs == model.wpos
    {
      ModWrap(lclOffs + held, geo.ring);
      offs := (lclOffs + held) % geo.ring;
    }

    method GetBuffer(ready: bool, frames: nat, allocOk: bool) returns (result: Hresult)
      requires Valid()
      modifies this`tmp, this`locked, this`data, this`model, local, tmp
      ensures Valid() && (tmp == old(tmp) || fresh(tmp))
      ensures var tmpOk := allocOk || geo.Bytes(frames) <= old(tmp.Length);
              && result == GetResult(geo, old(model), ready, frames, tmpOk)
              && model == GetStep(geo, old(model), ready, frames, tmpOk)
      ensures 0 < geo.ring
      ensures var n, offs := geo.Bytes(frames), old(Wrap(lclOffs + held, geo.ring));
              result == if !ready then DeviceInvalidated
                        else if old(locked) != 0 then OutOfOrder
                        else if frames == 0 then Ok
                        else if geo.Bytes(geo.bufFrames) < old(held) + n then BufferTooLarge
                        else if geo.ring < offs + n && !allocOk && old(tmp.Length) < n then OutOfMemory
                        else Ok
      ensures if result == Ok && frames != 0 then Granting(geo.Bytes(frames), old(Wrap(lclOffs + held, geo.ring)))
              else locked == old(locked) && data == old(data)
    {
      WritePosition();
      HeldFits(frames);
      LockedSize();
      if !ready { return DeviceInvalidated; }
      if locked != 0 { return OutOfOrder; }
      if frames == 0 { return Ok; }
      geo.Product(model.held);
      DivMul(model.held, geo.frame);
      if held / geo.frame + frames > geo.bufFrames { return BufferTooLarge; }
      GrantHalfRing(geo, model.held, frames);
      geo.Product(frames);
      hide Inv, Readers, Granted, GetStep, Granting;
      result := GrantBytes(frames, frames * geo.frame, allocOk);
    }

    /** The lock is on n bytes of silence, in the ring if they fit there at offset offs. */
    ghost predicate Granting(n: nat, offs: nat)
      reads this`locked, this`data, this`tmp, local, tmp
    {
      if offs + n <= local.Length then
        locked == n && data == offs && local[offs..offs + n] == Silence(geo.silence, n)
      else
        locked + n == 0 && n <= tmp.Length && tmp[..n] == Silence(geo.silence, n)
    }

    lemma WritePosition()
      requires Valid()
      ensures 0 < geo.ring == local.Length && model.wpos == Wrap(lclOffs + held, geo.ring)
    {
    }

    lemma HeldFits(frames: nat)
      requires Valid()
      ensures geo.bufFrames < model.held + frames <==> geo.Bytes(geo.bufFrames) < held + geo.Bytes(frames)
    {
      geo.Sum(model.held, frames);
      geo.Order(model.held + frames, geo.bufFrames);
    }

    method GrantBytes(ghost frames: nat, bytes: nat, allocOk: bool) returns (result: Hresult)
      requires Valid() && locked == 0 && 0 < frames && model.held + frames <= geo.bufFrames
      requires 0 < bytes == geo.Bytes(frames) && bytes + bytes <= geo.ring
      modifies this`tmp, this`locked, this`data, this`model, local, tmp
      ensures Valid() && (tmp == old(tmp) || fresh(tmp))
      ensures var tmpOk := allocOk || bytes <= old(tmp.Length);
              && result == GetResult(geo, old(model), true, frames, tmpOk)
              && model == GetStep(geo, old(model), true, frames, tmpOk)
              && (result != Ok <==> geo.ring < old(model).wpos + bytes && !tmpOk)
      ensures result == Ok || result == OutOfMemory
      ensures if result == Ok then Granting(bytes, old(model).wpos) else locked == old(locked) && data == old(data)
    {
      hide Turned, Overlay, Silence, Granting;
      var writeOffs := WriteOffs();
      if writeOffs + bytes > geo.ring {
        var ok := AllocTmpBuffer(bytes, allocOk);
        if !ok { return OutOfMemory; }
        GrantTmp(frames, bytes);
      } else {
        GrantInRing(frames, bytes, writeOffs);
      }
      return Ok;
    }

    method GrantTmp(ghost frames: nat, bytes: nat)
      requires Valid() && locked == 0 && model.held + frames <= geo.bufFrames
      requires 0 < bytes == geo.Bytes(frames) && bytes + bytes <= geo.ring
      requires geo.ring < model.wpos + bytes && bytes <= tmp.Length
      modifies this`locked, this`model, tmp
      ensures Valid() && model == old(model).(grant := Grant(false, frames, Silence(geo.silence, bytes)))
      ensures Granting(bytes, model.wpos)
    {
      locked := 0 - bytes;
      forall i | 0 <= i < bytes { tmp[i] := geo.silence; }
      model := model.(grant := Grant(false, frames, Silence(geo.silence, bytes)));
      assert local[..] == old(local[..]);
    }

    method GrantInRing(ghost frames: nat, bytes: nat, writeOffs: nat)
      requires Valid() && locked == 0 && model.held + frames <= geo.bufFrames
      requires 0 < bytes == geo.Bytes(frames) && bytes + bytes <= geo.ring
      requires writeOffs == model.wpos && writeOffs + bytes <= geo.ring
      modifies this`locked, this`data, this`model, local
      ensures Valid()
      ensures model == old(model).(grant := Grant(true, frames, Silence(geo.silence, bytes)),
                                   pending := Overlay(old(model).pending, Silence(geo.silence, bytes), geo.ring))
      ensures Granting(bytes, writeOffs)
    {
      hide Pending, Overlay;
      ghost var zeros := Silence(geo.silence, bytes);
      locked, data := bytes, writeOffs;
      CopyAt(0, seq(bytes, i => geo.silence), zeros, model.pending);
      model := model.(grant := Grant(true, frames, zeros), pending := Overlay(model.pending, zeros, geo.ring));
    }

    /** Writes inside a grant in the ring, which then reads d. */
    method CopyAt(at: nat, bytes: seq<byte>, ghost d: seq<byte>, ghost p: seq<byte>)
      requires data < local.Length && data + |d| <= local.Length && Pending(data, p)
      requires at + |bytes| <= |d| && d == Patch(local[data..data + |d|], at, bytes)
      modifies local
      ensures Turned(local[..], data)[..|d|] == d
      ensures Pending(data, Overlay(p, d, local.Length))
    {
      hide Turned, Patch, Overlay;
      Rewritten(local[..], data, |d|, at, bytes, p);
      CopyIn(data + at, bytes);
    }

    /** The application writes into the buffer it was given, wherever that is. */
    method FillGrant(at: nat, bytes: seq<byte>)
      requires Valid() && FillFits(model, at, bytes)
      modifies this`model, local, tmp
      ensures Valid() && model == FillStep(geo, old(model), at, bytes)
      ensures at + |bytes| <= |old(GrantedBytes())| && GrantedBytes() == Patch(old(GrantedBytes()), at, bytes)
    {
      GrantMemory();
      if 0 < locked { FillRing(at, bytes); } else { FillTmp(at, bytes); }
      GrantMemory();
    }

    /** What can be read in the buffer handed out. */
    ghost function GrantedBytes(): seq<byte>
      reads this`locked, this`data, this`tmp, local, tmp
    {
      if 0 < locked && data + locked <= local.Length then local[data..data + locked]
      else if locked < 0 && 0 - locked <= tmp.Length then tmp[..0 - locked]
      else []
    }

    lemma GrantMemory()
      requires Valid()
      ensures GrantedBytes() == if model.grant.Grant? then model.grant.data else []
    {
    }

    method FillRing(at: nat, bytes: seq<byte>)
      requires Valid() && FillFits(model, at, bytes) && 0 < locked
      modifies this`model, local
      ensures Valid() && model == FillStep(geo, old(model), at, bytes)
    {
      assert local[data..data + locked] == model.grant.data;
      CopyAt(at, bytes, Patch(model.grant.data, at, bytes), model.pending);
      model := FillStep(geo, model, at, bytes);
    }

    method FillTmp(at: nat, bytes: seq<byte>)
      requires Valid() && FillFits(model, at, bytes) && locked <= 0
      modifies this`model, tmp
      ensures Valid() && model == FillStep(geo, old(model), at, bytes)
    {
      forall i | 0 <= i < |bytes| { tmp[at + i] := bytes[i]; }
      assert tmp[..|model.grant.data|] == Patch(model.grant.data, at, bytes);
      assert local[..] == old(local[..]);
      model := FillStep(geo, model, at, bytes);
    }

    // ---- releasing it ------------------------------------------------------------------------

    /** Copies a grant kept apart into the ring, in two pieces if it crosses the end. */
    method WrapBuffer(bytes: nat)
      requires 0 < geo.ring == local.Length && Readers() && tmp != local
      requires bytes <= tmp.Length && bytes <= geo.ring
      modifies local
      ensures var w := model.wpos;
              Turned(local[..], w) == tmp[..bytes] + old(Turned(local[..], w))[bytes..]
    {
      hide Patch, Turned;
      var writeOffs := WriteOffs();
      var chunk := local.Length - writeOffs;
      ghost var before, d := local[..], tmp[..bytes];
      if bytes <= chunk {
        TurnedPatch(before, writeOffs, d);
        CopyIn(writeOffs, tmp[..bytes]);
      } else {
        TurnedWrap(before, writeOffs, d);
        assert d[..chunk] == tmp[..chunk] && d[chunk..] == tmp[chunk..bytes];
        CopyIn(writeOffs, tmp[..chunk]);
        CopyIn(0, tmp[chunk..bytes]);
      }
    }

    /** Puts the bytes being released where the next byte goes, if they are not there already. */
    method PlaceReleased(bytes: nat, silent: bool)
      requires Valid() && model.grant.Grant? && bytes <= |model.grant.data| && bytes <= geo.ring
      modifies local, tmp
      ensures var d := if silent then Silence(geo.silence, bytes) else old(model.grant.data)[..bytes];
              Turned(local[..], model.wpos) == d + old(Turned(local[..], model.wpos))[bytes..]
    {
      hide Pending, Patch;
      if locked > 0 {
        if silent {
          TurnedPatch(local[..], data, Silence(geo.silence, bytes));
          var writeOffs := WriteOffs();
          CopyIn(writeOffs, seq(bytes, i => geo.silence));
        }
      } else {
        if silent {
          forall i | 0 <= i < bytes { tmp[i] := geo.silence; }
          assert tmp[..bytes] == Silence(geo.silence, bytes);
          assert local[..] == old(local[..]);
        }
        WrapBuffer(bytes);
      }
    }

    /** Advances both counts; when PulseAudio's passes the ring size its oldest bytes are dropped. */
    method Advance(bytes: nat)
      requires 0 < geo.ring && paHeld <= geo.ring && bytes <= geo.ring && paOffs < geo.ring
      modifies this`held, this`paHeld, this`paOffs
      ensures held == old(held) + bytes
      ensures paHeld == Min(old(paHeld) + bytes, geo.ring)
      ensures paOffs == Wrap(old(paOffs) + (old(paHeld) + bytes - paHeld), geo.ring)
    {
      held := held + bytes;
      paHeld := paHeld + bytes;
      if paHeld > geo.ring {
        paOffs := paOffs + (paHeld - geo.ring);
        ModWrap(paOffs, geo.ring);
        paOffs := paOffs % geo.ring;
        paHeld := geo.ring;
      }
    }

    /** The released bytes d are in place at w, behind the pending bytes p: both counts advance. */
    method Include(bytes: nat, ghost turn: seq<byte>, ghost w: nat, ghost p: seq<byte>, ghost d: seq<byte>)
      requires w < geo.ring == local.Length == |turn| && bytes == |d| <= geo.ring
      requires paHeld == |p| <= geo.ring && paOffs == Wrap(w + geo.ring - |p|, geo.ring)
      requires turn[geo.ring - |p|..] == p && Turned(local[..], w) == d + turn[bytes..]
      modifies this`held, this`paHeld, this`paOffs
      ensures paHeld == Min(old(paHeld) + bytes, geo.ring)
      ensures held == old(held) + bytes && Pending(Wrap(w + bytes, geo.ring), Append(p, d, geo.ring))
    {
      Committed(turn, local[..], w, p, d);
      DropPosition(w, paHeld, bytes, geo.ring);
      Advance(bytes);
    }

    /** The ring and both counts after a release. */
    method Commit(bytes: nat, silent: bool, ghost d: seq<byte>)
      requires Valid() && model.grant.Grant? && bytes == |d| <= |model.grant.data| && bytes <= geo.ring
      requires d == if silent then Silence(geo.silence, bytes) else model.grant.data[..bytes]
      modifies this`held, this`paHeld, this`paOffs, local, tmp
      ensures held == old(held) + bytes && paHeld == Min(old(paHeld) + bytes, geo.ring)
      ensures Pending(Wrap(model.wpos + bytes, geo.ring), Append(model.pending, d, geo.ring))
    {
      hide Inv, Granted, Turned, Append, Readers;
      ReadersAre();
      ghost var turn := Turned(local[..], model.wpos);
      PlaceReleased(bytes, silent);
      Include(bytes, turn, model.wpos, model.pending, d);
    }

    lemma ReadersAre()
      requires Valid()
      ensures 0 < geo.ring == local.Length && model.wpos < geo.ring && Pending(model.wpos, model.pending)
    {
    }

    method ReleaseWhole(ghost frames: nat, bytes: nat, silent: bool)
      requires Valid() && model.grant.Grant? && 0 < frames <= model.grant.frames && bytes == geo.Bytes(frames)
      modifies this`held, this`paHeld, this`paOffs, this`locked, this`model, local, tmp
      ensures Valid()
      ensures model == AfterRelease(geo, old(model), frames, Released(geo, old(model), frames, silent))
      ensures locked == 0 && held == old(held) + bytes && paHeld == Min(old(paHeld) + bytes, geo.ring)
    {
      hide Inv, Granted, Pending, Append;
      ReleaseRoom(geo, model, frames);
      ghost var d := Released(geo, model, frames, silent);
      geo.Sum(model.held, frames);
      Commit(bytes, silent, d);
      locked := 0;
      Settle(frames, d);
    }

    /** The fields after a release stand for the model after it. */
    ghost method Settle(frames: nat, d: seq<byte>)
      requires geo.Valid() && local.Length == geo.ring && tmp != local && locked == 0
      requires Inv(geo, model) && model.held + frames <= geo.bufFrames
      requires held == geo.Bytes(model.held + frames) && held + held <= geo.ring && |d| <= held
      requires lclOffs < geo.ring && Wrap(lclOffs + (held - |d|), geo.ring) == model.wpos
      requires Pending(Wrap(model.wpos + |d|, geo.ring), Append(model.pending, d, geo.ring))
      requires (started, justUnderran, sent, gaps) == (model.started, model.underran, model.sent, model.gaps)
      modifies this`model
      ensures Valid() && model == AfterRelease(geo, old(model), frames, d)
    {
      hide Pending, Append;
      AfterReleaseInv(geo, model, frames, d);
      model := AfterRelease(geo, model, frames, d);
    }

    method Unlock()
      requires Valid()
      modifies this`locked, this`model
      ensures Valid() && model == old(model).(grant := Nothing) && locked == 0
    {
      hide Pending;
      locked := 0;
      model := model.(grant := Nothing);
    }

    /** The lock holds the size of the grant. */
    lemma LockedSize()
      requires Valid()
      ensures 0 < geo.frame && (locked == 0 <==> model.grant.Nothing?)
      ensures model.grant.Grant? ==> (if locked >= 0 then locked else -locked) == geo.Bytes(model.grant.frames)
    {
    }

    method ReleaseBuffer(frames: nat, silent: bool, writable: nat) returns (result: Hresult)
      requires Valid()
      modifies this, local, tmp
      ensures Valid() && tmp == old(tmp)
      ensures result == ReleaseResult(old(model), frames)
      ensures model == ReleaseStep(geo, old(model), frames, silent, writable)
      ensures result == if frames == 0 then Ok
                        else if old(locked) == 0 then OutOfOrder
                        else if |old(GrantedBytes())| < geo.Bytes(frames) then InvalidSize
                        else Ok
      ensures if result == Ok && frames != 0 then
                Releasing(geo.Bytes(frames), silent, writable, old(model), old(GrantedBytes()), old(held), old(paHeld))
              else
                locked == (if result == InvalidSize then old(locked) else 0)
                && held == old(held) && paHeld == old(paHeld) && sent == old(sent)
                && model.released == old(model).released
    {
      hide Inv, Readers, Granted, WriteStep;
      LockedSize();
      GrantMemory();
      if locked == 0 || frames == 0 {
        Unlock();
        return if frames != 0 then OutOfOrder else Ok;
      }
      geo.Order(frames, model.grant.frames);
      geo.Product(frames);
      if frames * geo.frame > (if locked >= 0 then locked else -locked) { return InvalidSize; }
      ReleaseWhole(frames, frames * geo.frame, silent);
      WriteLeaves(writable);
      PulseWrite(writable);
      return Ok;
    }

    lemma WriteLeaves(writable: nat)
      ensures WriteStep(model, writable).released == model.released
    {
    }

    /** The first n bytes of a grant, or as much silence, have been released, both counts have grown by
        them as far as the ring allows, and PulseAudio has had what it would take. */
    ghost predicate Releasing(n: nat, silent: bool, writable: nat, was: Fifo, granted: seq<byte>, heldWas: nat,
                              paWas: nat)
      reads this`locked, this`held, this`paHeld, this`model
    {
      var all := if paWas + n <= geo.ring then paWas + n else geo.ring;
      && n <= |granted| && locked == 0 && held == heldWas + n
      && paHeld == (if all < writable then 0 else all - writable)
      && model.released == was.released + if silent then Silence(geo.silence, n) else granted[..n]
    }

    // ---- the clock and the control operations ------------------------------------------------

    /** The timer's work on a render stream: whatever PulseAudio takes, the clock moves on by at
        most one period. */
    method Tick(timed: bool, writable: nat)
      requires Valid()
      modifies this`lclOffs, this`held, this`paOffs, this`paHeld, this`justUnderran, this`sent, this`gaps, this`model
      ensures Valid() && model == TickStep(geo, old(model), timed, writable)
      ensures 0 < geo.ring
      ensures if timed && started && 0 < old(held) then
                && held == (if geo.Bytes(geo.periodFrames) < old(held) then old(held) - geo.Bytes(geo.periodFrames)
                            else 0)
                && lclOffs == Wrap(old(lclOffs) + (old(held) - held), geo.ring)
                && paHeld == if old(paHeld) < writable then 0 else old(paHeld) - writable
              else
                unchanged(this)
    {
      WritePosition();
      if timed && started && held != 0 {
        PulseWrite(writable);
        AdvanceClock();
      }
      geo.Order(model.held, 0);
    }

    method AdvanceClock()
      requires Valid()
      modifies this`lclOffs, this`held, this`model
      ensures Valid()
      ensures model == old(model).(held := old(model).held - Min(geo.periodFrames, old(model).held))
      ensures 0 < geo.ring
      ensures held == if geo.Bytes(geo.periodFrames) < old(held) then old(held) - geo.Bytes(geo.periodFrames) else 0
      ensures lclOffs == Wrap(old(lclOffs) + (old(held) - held), geo.ring)
    {
      hide Inv, Granted, Pending, Min;
      ghost var frames := Min(geo.periodFrames, model.held);
      PeriodBytes(geo, model);
      ClockKeepsInv(geo, model, frames);
      var period := geo.Bytes(geo.periodFrames);
      Consume(if period < held then period else held);
      model := model.(held := model.held - frames);
      GrantedStays();
    }

    method Consume(adv: nat)
      requires 0 < geo.ring && adv <= held && held <= geo.ring && lclOffs < geo.ring
      modifies this`lclOffs, this`held
      ensures held == old(held) - adv && lclOffs == Wrap(old(lclOffs) + adv, geo.ring) < geo.ring
      ensures Wrap(lclOffs + held, geo.ring) == old(Wrap(lclOffs + held, geo.ring))
    {
      lclOffs := lclOffs + adv;
      ModWrap(lclOffs, geo.ring);
      lclOffs := lclOffs % geo.ring;
      held := held - adv;
    }

    method Underflow()
      requires Valid()
      modifies this`justUnderran, this`model
      ensures Valid() && model == old(model).(underran := true) && justUnderran
    {
      justUnderran := true;
      model := model.(underran := true);
    }

    method Start(ready: bool, noEvent: bool, writable: nat, uncorked: bool) returns (result: Hresult)
      requires Valid()
      modifies this`paOffs, this`paHeld, this`justUnderran, this`sent, this`gaps, this`started, this`model
      ensures Valid() && result == StartResult(old(model), ready, noEvent, uncorked)
      ensures model == StartStep(old(model), ready, noEvent, writable, uncorked)
      ensures result == if !ready then Ok
                        else if noEvent then EventHandleNotSet
                        else if old(started) then NotStopped
                        else if uncorked then Ok
                        else Fail
      ensures started == (old(started) || (ready && !noEvent && uncorked))
      ensures paHeld == if !ready || noEvent || old(started) then old(paHeld)
                        else if old(paHeld) < writable then 0 else old(paHeld) - writable
    {
      hide Inv, Readers, Granted, WriteStep;
      if !ready { return Ok; }
      if noEvent { return EventHandleNotSet; }
      if started { return NotStopped; }
      PulseWrite(writable);
      if !uncorked { return Fail; }
      label Written:
      started := true;
      model := model.(started := true);
      StartedOrNot@Written();
      return Ok;
    }

    /** The queue does not depend on whether the stream is started. */
    twostate lemma StartedOrNot()
      requires old(Inv(geo, model) && local.Length == geo.ring && Readers() && Granted())
      requires unchanged(local) && unchanged(old(tmp)) && unchanged(`tmp) && unchanged(`lclOffs) && unchanged(`held)
      requires unchanged(`paOffs) && unchanged(`paHeld) && unchanged(`locked) && unchanged(`data)
      requires model == old(model).(started := model.started)
      ensures Inv(geo, model) && Readers() && Granted()
    {
      hide Pending;
    }

    method Stop(ready: bool, corked: bool) returns (result: Hresult)
      requires Valid()
      modifies this`started, this`model
      ensures Valid() && result == StopResult(old(model), ready, corked)
      ensures model == StopStep(old(model), ready, corked)
      ensures result == if !ready then DeviceInvalidated
                        else if !old(started) then False
                        else if corked then Ok
                        else Fail
      ensures started == (old(started) && !(ready && corked))
    {
      hide Inv, Readers, Granted;
      if !ready { return DeviceInvalidated; }
      if !started { return False; }
      if !corked { return Fail; }
      started := false;
      model := model.(started := false);
      StartedOrNot();
      return Ok;
    }

    method Reset(ready: bool, flushed: bool) returns (result: Hresult)
      requires Valid()
      modifies this`lclOffs, this`paOffs, this`held, this`paHeld, this`sent, this`gaps, this`model
      ensures Valid() && result == ResetResult(old(model), ready)
      ensures model == ResetStep(old(model), ready, flushed)
      ensures result == if !ready then DeviceInvalidated
                        else if started then NotStopped
                        else if locked != 0 then OperationPending
                        else Ok
      ensures if result == Ok && (flushed || old(held) == 0) then lclOffs == paOffs == held == paHeld == 0
              else unchanged(this)
    {
      if !ready { return DeviceInvalidated; }
      if started { return NotStopped; }
      hide Inv, Granted, Readers;
      LockedSize();
      if locked != 0 { return OperationPending; }
      HeldAtAll();
      if (held != 0 && flushed) || held == 0 { Clear(); }
      return Ok;
    }

    method Clear()
      requires Valid() && model.grant.Nothing?
      modifies this`lclOffs, this`paOffs, this`held, this`paHeld, this`sent, this`gaps, this`model
      ensures Valid()
      ensures model == old(model).(pending := [], held := 0, wpos := 0, sent := [], gaps := [], released := [])
      ensures lclOffs == paOffs == held == paHeld == 0
    {
      hide Inv, Granted, Pending;
      ClearedInv();
      paOffs, lclOffs := 0, 0;
      held, paHeld := 0, 0;
      sent, gaps := [], [];
      model := model.(pending := [], held := 0, wpos := 0, sent := [], gaps := [], released := []);
      NonePending();
      GrantedStays();
    }

    lemma ClearedInv()
      requires Inv(geo, model) && model.grant.Nothing?
      ensures Inv(geo, model.(pending := [], held := 0, wpos := 0, sent := [], gaps := [], released := []))
      ensures 0 < geo.ring
    {
    }

    lemma NonePending()
      requires 0 < local.Length && paOffs == paHeld == 0
      ensures Pending(0, [])
    {
    }

    lemma HeldAtAll()
      requires Valid()
      ensures held == 0 <==> model.held == 0
    {
      geo.Order(model.held, 0);
    }
  }
}
