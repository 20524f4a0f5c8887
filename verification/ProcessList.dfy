/** The list of running processes and their threads, and the reply that carries it: a first pass adds
    up its size, a second fills it in. */
module ProcessList {
  import opened Common

  type u32 = x: nat | x < 0x1_0000_0000
  type u64 = x: nat | x < 0x1_0000_0000_0000_0000

  datatype ThreadInfo = ThreadInfo(
    startTime: u64, tid: u32, basePriority: u32, currentPriority: u32, unixTid: u32, teb: u64, entryPoint: u64)

  datatype Header = Header(
    startTime: u64, priority: u32, pid: u32, parentPid: u32, sessionId: u32, handleCount: u32, unixPid: u32)

  datatype ProcessInfo = ProcessInfo(header: Header, image: seq<byte>, threads: seq<ThreadInfo>)

  // ---- words in memory ---------------------------------------------------------------------

  function Power(w: nat): (r: nat)
    ensures 0 < r
  {
    if w == 0 then 1 else 0x100 * Power(w - 1)
  }

  /** A number in w bytes, lowest first. */
  function Word(n: nat, w: nat): (r: seq<byte>)
    ensures |r| == w
  {
    if w == 0 then [] else [(n % 0x100) as byte] + Word(n / 0x100, w - 1)
  }

  function Value(s: seq<byte>): (r: nat)
    ensures r < Power(|s|)
  {
    if s == [] then 0 else s[0] as nat + 0x100 * Value(s[1..])
  }

  lemma {:induction false} ValueWord(n: nat, w: nat)
    requires n < Power(w)
    ensures Value(Word(n, w)) == n
  {
    if w != 0 {
      ValueWord(n / 0x100, w - 1);
      assert Word(n, w)[1..] == Word(n / 0x100, w - 1);
    }
  }

  /** The bytes of a number, lowest first. */
  lemma {:induction false} WordBytes(n: nat, w: nat, k: nat)
    requires k < w
    ensures Word(n, w)[k] as nat == (n / Power(k)) % 0x100
  {
    if k != 0 {
      WordBytes(n / 0x100, w - 1, k - 1);
      DivTwice(n, Power(k - 1));
    }
  }

  lemma DivTwice(n: nat, m: nat)
    requires 0 < m
    ensures (n / 0x100) / m == n / (0x100 * m)
  {
    var a := n / 0x100;
    var q, r := a / m, a % m;
    assert n == q * (0x100 * m) + (0x100 * r + n % 0x100);
    assert 0x100 * r + n % 0x100 < 0x100 * m;
    QuotientIs(n, 0x100 * m, q, 0x100 * r + n % 0x100);
  }

  lemma QuotientIs(n: nat, m: nat, q: nat, r: nat)
    requires n == q * m + r && r < m
    ensures n / m == q
  {
    var d := n / m - q;
    assert d * m == r - n % m;
    if 1 <= d { AtLeast(d, m); }
    if 1 <= -d { AtLeast(-d, m); }
  }

  lemma Widths()
    ensures Power(4) == 0x1_0000_0000 && Power(8) == 0x1_0000_0000_0000_0000
  {
  }

  // ---- records -----------------------------------------------------------------------------

  const RECORD := 40           // the size of either kind of record

  function HeaderBytes(h: Header, nameLen: u32, threadCount: u32): (r: seq<byte>)
    ensures |r| == RECORD
  {
    Word(h.startTime, 8) + Word(nameLen, 4) + Word(threadCount, 4) + Word(h.priority, 4) + Word(h.pid, 4)
    + Word(h.parentPid, 4) + Word(h.sessionId, 4) + Word(h.handleCount, 4) + Word(h.unixPid, 4)
  }

  function ThreadBytes(t: ThreadInfo): (r: seq<byte>)
    ensures |r| == RECORD
  {
    Word(t.startTime, 8)
    + (Word(t.tid, 4) + Word(t.basePriority, 4) + Word(t.currentPriority, 4) + Word(t.unixTid, 4))
    + (Word(t.teb, 8) + Word(t.entryPoint, 8))
  }

  function Align(n: nat): (r: nat)
    ensures n <= r < n + 8 && r % 8 == 0
  {
    (n + 7) / 8 * 8
  }

  function Zeros(n: nat): (r: seq<byte>)
    ensures |r| == n && forall i :: 0 <= i < n ==> r[i] == 0
  {
    seq(n, _ => 0)
  }

  function Encode(p: ProcessInfo): (r: seq<byte>)
    requires |p.image| < 0x1_0000_0000 && |p.threads| < 0x1_0000_0000
    ensures |r| == Align(RECORD + |p.image|) + RECORD * |p.threads|
  {
    HeaderBytes(p.header, |p.image|, |p.threads|) + p.image + Zeros(Align(RECORD + |p.image|) - RECORD - |p.image|)
    + EncodeThreads(p.threads)
  }

  function EncodeThreads(ts: seq<ThreadInfo>): (r: seq<byte>)
    ensures |r| == RECORD * |ts|
  {
    if ts == [] then [] else EncodeThreads(ts[..|ts| - 1]) + ThreadBytes(ts[|ts| - 1])
  }

  function EncodeAll(ps: seq<ProcessInfo>): (r: seq<byte>)
    requires Fits(ps)
  {
    if ps == [] then [] else EncodeAll(ps[..|ps| - 1]) + Encode(ps[|ps| - 1])
  }

  /** Lengths and counts can be told in 32 bits. */
  predicate Fits(ps: seq<ProcessInfo>) {
    forall i :: 0 <= i < |ps| ==> |ps[i].image| < 0x1_0000_0000 && |ps[i].threads| < 0x1_0000_0000
  }

  function CountThreads(ps: seq<ProcessInfo>): nat {
    if ps == [] then 0 else CountThreads(ps[..|ps| - 1]) + |ps[|ps| - 1].threads|
  }

  function CountNames(ps: seq<ProcessInfo>): nat {
    if ps == [] then 0 else CountNames(ps[..|ps| - 1]) + |ps[|ps| - 1].image|
  }

  /** Where in a record each number is. */
  lemma Layout(h: Header, nameLen: u32, threadCount: u32, t: ThreadInfo)
    ensures var s := HeaderBytes(h, nameLen, threadCount);
            && s[0..8] == Word(h.startTime, 8) && s[8..12] == Word(nameLen, 4) && s[12..16] == Word(threadCount, 4)
            && s[16..20] == Word(h.priority, 4) && s[20..24] == Word(h.pid, 4) && s[24..28] == Word(h.parentPid, 4)
            && s[28..32] == Word(h.sessionId, 4) && s[32..36] == Word(h.handleCount, 4)
            && s[36..40] == Word(h.unixPid, 4)
    ensures var s := ThreadBytes(t);
            && s[0..8] == Word(t.startTime, 8) && s[8..12] == Word(t.tid, 4) && s[12..16] == Word(t.basePriority, 4)
            && s[16..20] == Word(t.currentPriority, 4) && s[20..24] == Word(t.unixTid, 4)
            && s[24..32] == Word(t.teb, 8) && s[32..40] == Word(t.entryPoint, 8)
  {
    hide Word;
  }

  /** A process is its header, its image, zeros up to a multiple of eight, and its threads. */
  lemma Pieces(p: ProcessInfo, k: nat)
    requires |p.image| < 0x1_0000_0000 && |p.threads| < 0x1_0000_0000 && k < |p.threads|
    ensures var s, start := Encode(p), Align(40 + |p.image|);
            && s[..40] == HeaderBytes(p.header, |p.image|, |p.threads|) && s[40..40 + |p.image|] == p.image
            && (forall i :: 40 + |p.image| <= i < start ==> s[i] == 0)
            && s[start + 40 * k..start + 40 * (k + 1)] == ThreadBytes(p.threads[k])
  {
    hide HeaderBytes, ThreadBytes, EncodeThreads, Align;
    var s, start, ts := Encode(p), Align(RECORD + |p.image|), EncodeThreads(p.threads);
    assert s[start..] == ts;
    ThreadPlace(p.threads, k);
    assert s[start + 40 * k..start + 40 * (k + 1)] == ts[40 * k..40 * (k + 1)];
  }

  lemma {:induction false} ThreadPlace(ts: seq<ThreadInfo>, k: nat)
    requires k < |ts|
    ensures EncodeThreads(ts)[40 * k..40 * (k + 1)] == ThreadBytes(ts[k])
  {
    hide ThreadBytes;
    var n := |ts| - 1;
    if k < n {
      ThreadPlace(ts[..n], k);
      assert EncodeThreads(ts)[40 * k..40 * (k + 1)] == EncodeThreads(ts[..n])[40 * k..40 * (k + 1)];
    }
  }

  // ---- reading them back -------------------------------------------------------------------

  function Field32(s: seq<byte>, at: nat): u32
    requires at + 4 <= |s|
  {
    Widths(); Value(s[at..at + 4])
  }

  function Field64(s: seq<byte>, at: nat): u64
    requires at + 8 <= |s|
  {
    Widths(); Value(s[at..at + 8])
  }

  function DecodeHeader(s: seq<byte>): Header
    requires RECORD <= |s|
  {
    Header(Field64(s, 0), Field32(s, 16), Field32(s, 20), Field32(s, 24), Field32(s, 28), Field32(s, 32),
           Field32(s, 36))
  }

  function DecodeThread(s: seq<byte>): ThreadInfo
    requires |s| == RECORD
  {
    ThreadInfo(Field64(s, 0), Field32(s, 8), Field32(s, 12), Field32(s, 16), Field32(s, 20), Field64(s, 24),
               Field64(s, 32))
  }

  function DecodeThreads(s: seq<byte>, n: nat): seq<ThreadInfo>
    requires |s| == RECORD * n
  {
    if n == 0 then []
    else DecodeThreads(s[..RECORD * (n - 1)], n - 1) + [DecodeThread(s[RECORD * (n - 1)..])]
  }

  /** The first process of a reply, and where the next begins. */
  function DecodeOne(s: seq<byte>): Option<(ProcessInfo, nat)> {
    if |s| < RECORD then None
    else
      var nameLen, count := Field32(s, 8), Field32(s, 12);
      var start := Align(RECORD + nameLen);
      if |s| < start + RECORD * count then None
      else Some((ProcessInfo(DecodeHeader(s), s[RECORD..RECORD + nameLen],
                             DecodeThreads(s[start..start + RECORD * count], count)),
                 start + RECORD * count))
  }

  function DecodeAll(s: seq<byte>, count: nat): Option<seq<ProcessInfo>> {
    if count == 0 then Some([])
    else
      match DecodeOne(s)
      case None => None
      case Some(one) =>
        if |s| < one.1 then None
        else
          match DecodeAll(s[one.1..], count - 1)
          case None => None
          case Some(rest) => Some([one.0] + rest)
  }

  lemma HeaderBack(h: Header, nameLen: u32, threadCount: u32, rest: seq<byte>)
    ensures var s := HeaderBytes(h, nameLen, threadCount) + rest;
            DecodeHeader(s) == h && Field32(s, 8) == nameLen && Field32(s, 12) == threadCount
  {
    hide Word, Value, Power;
    Widths();
    var s := HeaderBytes(h, nameLen, threadCount) + rest;
    ValueWord(h.startTime, 8);
    ValueWord(nameLen, 4); ValueWord(threadCount, 4); ValueWord(h.priority, 4); ValueWord(h.pid, 4);
    ValueWord(h.parentPid, 4); ValueWord(h.sessionId, 4); ValueWord(h.handleCount, 4); ValueWord(h.unixPid, 4);
    assert s[0..8] == Word(h.startTime, 8);
    assert s[8..12] == Word(nameLen, 4) && s[12..16] == Word(threadCount, 4);
    assert s[16..20] == Word(h.priority, 4) && s[20..24] == Word(h.pid, 4);
    assert s[24..28] == Word(h.parentPid, 4) && s[28..32] == Word(h.sessionId, 4);
    assert s[32..36] == Word(h.handleCount, 4) && s[36..40] == Word(h.unixPid, 4);
  }

  lemma ThreadBack(t: ThreadInfo)
    ensures DecodeThread(ThreadBytes(t)) == t
  {
    hide Word, Value, Power;
    Widths();
    var s := ThreadBytes(t);
    ValueWord(t.startTime, 8); ValueWord(t.teb, 8); ValueWord(t.entryPoint, 8);
    ValueWord(t.tid, 4); ValueWord(t.basePriority, 4); ValueWord(t.currentPriority, 4); ValueWord(t.unixTid, 4);
    assert s[0..8] == Word(t.startTime, 8);
    assert s[8..12] == Word(t.tid, 4) && s[12..16] == Word(t.basePriority, 4);
    assert s[16..20] == Word(t.currentPriority, 4) && s[20..24] == Word(t.unixTid, 4);
    assert s[24..32] == Word(t.teb, 8);
    assert s[32..40] == Word(t.entryPoint, 8);
  }

  lemma {:induction false} ThreadsBack(ts: seq<ThreadInfo>)
    ensures DecodeThreads(EncodeThreads(ts), |ts|) == ts
  {
    hide ThreadBytes, DecodeThread;
    if ts != [] {
      var n := |ts| - 1;
      ThreadsBack(ts[..n]);
      ThreadBack(ts[n]);
      assert EncodeThreads(ts)[..RECORD * n] == EncodeThreads(ts[..n]);
      assert EncodeThreads(ts)[RECORD * n..] == ThreadBytes(ts[n]);
    }
  }

  /** Whatever follows it, an encoded process is read back as it was. */
  lemma OneBack(p: ProcessInfo, rest: seq<byte>)
    requires |p.image| < 0x1_0000_0000 && |p.threads| < 0x1_0000_0000
    ensures DecodeOne(Encode(p) + rest) == Some((p, |Encode(p)|))
  {
    hide HeaderBytes, DecodeHeader, Field32, EncodeThreads, DecodeThreads, Align;
    var s, start, n := Encode(p) + rest, Align(RECORD + |p.image|), |p.threads|;
    var header, pad := HeaderBytes(p.header, |p.image|, n), Zeros(start - RECORD - |p.image|);
    HeaderBack(p.header, |p.image|, n, p.image + pad + EncodeThreads(p.threads) + rest);
    assert s == header + (p.image + pad + EncodeThreads(p.threads) + rest);
    ThreadsBack(p.threads);
    assert s[start..start + RECORD * n] == EncodeThreads(p.threads);
    assert s[RECORD..RECORD + |p.image|] == p.image;
  }

  /** The reply tells the processes and threads exactly. */
  lemma {:induction false} AllBack(ps: seq<ProcessInfo>)
    requires Fits(ps)
    ensures DecodeAll(EncodeAll(ps), |ps|) == Some(ps)
  {
    hide Encode, DecodeOne;
    if ps != [] {
      EncodeFirst(ps);
      OneBack(ps[0], EncodeAll(ps[1..]));
      AllBack(ps[1..]);
      assert EncodeAll(ps)[|Encode(ps[0])|..] == EncodeAll(ps[1..]);
      assert ps == [ps[0]] + ps[1..];
    }
  }

  lemma {:induction false} EncodeFirst(ps: seq<ProcessInfo>)
    requires Fits(ps) && ps != []
    ensures EncodeAll(ps) == Encode(ps[0]) + EncodeAll(ps[1..])
  {
    hide Encode;
    var n := |ps| - 1;
    if n != 0 {
      EncodeFirst(ps[..n]);
      assert ps[..n][1..] == ps[1..][..n - 1];
    }
  }

  // ---- processes and their threads ---------------------------------------------------------

  class Process {
    const header: Header
    const image: seq<byte>
    var threads: seq<ThreadInfo>
    var runningThreads: nat

    constructor (header: Header, image: seq<byte>)
      ensures this.header == header && this.image == image && threads == [] && runningThreads == 0
    {
      this.header, this.image := header, image;
      threads, runningThreads := [], 0;
    }

    ghost function Info(): ProcessInfo
      reads this
    {
      ProcessInfo(header, image, threads)
    }
  }

  ghost function Infos(list: seq<Process>): seq<ProcessInfo>
    reads list
  {
    seq(|list|, i requires 0 <= i < |list| reads list => list[i].Info())
  }

  datatype Reply = Reply(size: nat, processes: nat, threads: nat, names: nat, data: Option<array<byte>>)

  class Server {
    var list: seq<Process>               // the running processes
    ghost var all: set<Process>

    /** Each process counts its threads right, and is listed, once, exactly while it has any. */
    ghost predicate Valid()
      reads this, all
    {
      && Distinct(list)
      && (forall p :: p in list ==> p in all)
      && forall p :: p in all ==> p.runningThreads == |p.threads| && (p in list <==> 0 < p.runningThreads)
    }

    constructor ()
      ensures Valid() && list == [] && all == {}
    {
      list, all := [], {};
    }

    method NewProcess(header: Header, image: seq<byte>) returns (p: Process)
      requires Valid()
      modifies this`all
      ensures Valid() && fresh(p) && all == old(all) + {p} && p.Info() == ProcessInfo(header, image, [])
    {
      p := new Process(header, image);
      all := all + {p};
    }

    method AddProcessThread(p: Process, t: ThreadInfo)
      requires Valid() && p in all
      modifies this`list, p`threads, p`runningThreads
      ensures Valid() && p.threads == old(p.threads) + [t]
      ensures list == if old(p.threads) == [] then old(list) + [p] else old(list)
    {
      p.threads := p.threads + [t];
      if p.runningThreads == 0 { list := list + [p]; }
      p.runningThreads := p.runningThreads + 1;
    }

    /** The last thread takes the process off the list. */
    method RemoveProcessThread(p: Process, t: ThreadInfo) returns (killed: bool)
      requires Valid() && p in all && t in p.threads
      modifies this`list, p`threads, p`runningThreads
      ensures Valid() && p.threads == Remove(old(p.threads), t) && killed == (p.threads == [])
      ensures list == if killed then Remove(old(list), p) else old(list)
    {
      RemoveSize(p.threads, t);
      p.threads := Remove(p.threads, t);
      p.runningThreads := p.runningThreads - 1;
      killed := p.runningThreads == 0;
      if killed {
        RemoveElements(list, p);
        list := Remove(list, p);
      }
    }

    /** The first pass: how much there is to tell. */
    method AddUp() returns (size: nat, threads: nat, names: nat)
      requires Valid() && Fits(Infos(list))
      ensures size == |EncodeAll(Infos(list))|
      ensures threads == CountThreads(Infos(list)) && names == CountNames(Infos(list))
    {
      hide Encode, Align, Valid, Infos, EncodeAll, Fits, CountThreads, CountNames;
      NoneAdded();
      size, threads, names := 0, 0, 0;
      for i := 0 to |list|
        invariant Fits(Infos(list)[..i]) && size == |EncodeAll(Infos(list)[..i])| && size % 8 == 0
        invariant threads == CountThreads(Infos(list)[..i]) && names == CountNames(Infos(list)[..i])
      {
        AllButLast(i);
        AlignStays(size, RECORD + |list[i].image|, list[i].runningThreads);
        size := Align(size);
        size := size + RECORD + |list[i].image|;
        size := Align(size);
        size := size + list[i].runningThreads * RECORD;
        threads := threads + list[i].runningThreads;
        names := names + |list[i].image|;
      }
    }

    lemma NoneAdded()
      requires Fits(Infos(list))
      ensures |Infos(list)| == |list| && Infos(list)[..|list|] == Infos(list) && Infos(list)[..0] == []
      ensures Fits([]) && EncodeAll([]) == [] && CountThreads([]) == CountNames([]) == 0
    {
    }

    /** Answers the request. When there is room for the size added up first, the second pass fills the
        reply in to exactly its end. */
    method ListProcesses(maxSize: nat) returns (r: Reply)
      requires Valid() && Fits(Infos(list))
      ensures r.size == |EncodeAll(Infos(list))| && (r.data.None? <==> maxSize < r.size)
      ensures r.processes == |list| && r.threads == CountThreads(Infos(list)) && r.names == CountNames(Infos(list))
      ensures r.data.Some? ==> fresh(r.data.value) && r.data.value[..] == EncodeAll(Infos(list))
    {
      hide EncodeAll, CountThreads, CountNames;
      var size, threads, names := AddUp();
      if maxSize < size { return Reply(size, |list|, threads, names, None); }
      var buffer := new byte[size](_ => 0);
      assert buffer[..] == Zeros(size);
      Fill(buffer);
      return Reply(size, |list|, threads, names, Some(buffer));
    }

    lemma AllButLast(i: nat)
      requires Valid() && Fits(Infos(list)) && i < |list|
      ensures |Infos(list)| == |list| && Fits(Infos(list)[..i]) && Fits(Infos(list)[..i + 1])
      ensures var all, p := Infos(list), list[i];
              && p.runningThreads == |p.threads| < 0x1_0000_0000 && |p.image| < 0x1_0000_0000
              && EncodeAll(all[..i + 1]) == EncodeAll(all[..i]) + Encode(p.Info())
              && |Encode(p.Info())| == Align(RECORD + |p.image|) + RECORD * |p.threads|
              && CountThreads(all[..i + 1]) == CountThreads(all[..i]) + p.runningThreads
              && CountNames(all[..i + 1]) == CountNames(all[..i]) + |p.image|
    {
      hide Encode, Align;
      var all := Infos(list);
      assert list[i] in list && all[i] == list[i].Info();
      assert all[..i + 1][..i] == all[..i];
    }

    /** The first i processes are in the buffer, in its first pos bytes. */
    ghost predicate FilledTo(buffer: array<byte>, i: nat, pos: nat)
      requires Fits(Infos(list)) && i <= |list|
      reads this, list, buffer
    {
      && Fits(Infos(list)[..i]) && pos == |EncodeAll(Infos(list)[..i])| <= buffer.Length && pos % 8 == 0
      && buffer[..] == EncodeAll(Infos(list)[..i]) + Zeros(buffer.Length - pos)
    }

    method FillNth(buffer: array<byte>, i: nat, start: nat) returns (pos: nat)
      requires Valid() && Fits(Infos(list)) && i < |list| && buffer.Length == |EncodeAll(Infos(list))|
               && FilledTo(buffer, i, start)
      modifies buffer
      ensures Valid() && FilledTo(buffer, i + 1, pos)
    {
      hide Encode, Align, Valid, Infos;
      ghost var infos := Infos(list);
      AllButLast(i);
      EncodePrefix(infos, i + 1);
      AlignStays(start, RECORD + |list[i].image|, list[i].runningThreads);
      pos := FillOne(buffer, start, list[i], EncodeAll(infos[..i]));
    }

    method Fill(buffer: array<byte>)
      requires Valid() && Fits(Infos(list)) && buffer.Length == |EncodeAll(Infos(list))|
               && buffer[..] == Zeros(buffer.Length)
      modifies buffer
      ensures buffer[..] == EncodeAll(Infos(list))
    {
      hide *;
      var pos := 0;
      FilledNone(buffer);
      for i := 0 to |list|
        invariant Valid() && FilledTo(buffer, i, pos)
      {
        pos := FillNth(buffer, i, pos);
      }
      FilledAll(buffer, pos);
    }

    lemma FilledNone(buffer: array<byte>)
      requires Fits(Infos(list)) && buffer[..] == Zeros(buffer.Length)
      ensures FilledTo(buffer, 0, 0)
    {
      assert Infos(list)[..0] == [];
    }

    lemma FilledAll(buffer: array<byte>, pos: nat)
      requires Fits(Infos(list)) && FilledTo(buffer, |list|, pos) && buffer.Length == |EncodeAll(Infos(list))|
      ensures buffer[..] == EncodeAll(Infos(list))
    {
      assert Infos(list)[..|list|] == Infos(list);
    }

    /** Writes one process with its threads at the end of what is done. */
    method FillOne(buffer: array<byte>, start: nat, p: Process, ghost done: seq<byte>) returns (pos: nat)
      requires |p.image| < 0x1_0000_0000 && |p.threads| < 0x1_0000_0000 && p.runningThreads == |p.threads|
      requires start == |done| && start % 8 == 0 && start + |Encode(p.Info())| <= buffer.Length
      requires buffer[..] == done + Zeros(buffer.Length - start)
      modifies buffer
      ensures pos == start + |Encode(p.Info())|
      ensures buffer[..] == done + Encode(p.Info()) + Zeros(buffer.Length - pos)
    {
      hide HeaderBytes, ThreadBytes, Align, Encode, EncodeThreads;
      Appended(done, p.Info());
      AlignStays(start, RECORD + |p.image|, |p.threads|);
      ghost var header := HeaderBytes(p.header, |p.image|, p.runningThreads);
      pos := Align(start);
      Write(buffer, pos, HeaderBytes(p.header, |p.image|, p.runningThreads), done);
      pos := pos + RECORD;
      Write(buffer, pos, p.image, done + header);
      pos := pos + |p.image|;
      ghost var padding := Align(pos) - pos;
      Skip(buffer, done + header + p.image, padding);
      pos := Align(pos);
      ghost var begun := done + header + p.image + Zeros(padding);
      FillThreads(buffer, pos, p.threads, begun);
      pos := pos + RECORD * |p.threads|;
    }
  }

  /** The pieces of an encoded process, put behind what is done one after another. */
  lemma Appended(done: seq<byte>, p: ProcessInfo)
    requires |p.image| < 0x1_0000_0000 && |p.threads| < 0x1_0000_0000
    ensures var size := RECORD + |p.image|;
            && size <= Align(size) && |Encode(p)| == Align(size) + RECORD * |p.threads|
            && done + HeaderBytes(p.header, |p.image|, |p.threads|) + p.image + Zeros(Align(size) - size)
               + EncodeThreads(p.threads) == done + Encode(p)
  {
    hide HeaderBytes, EncodeThreads, Align;
  }

  /** Sizes that are added up from a multiple of 8 stay what they are relative to it. */
  lemma AlignStays(base: nat, size: nat, records: nat)
    requires base % 8 == 0
    ensures Align(base) == base && Align(base + size) == base + Align(size)
    ensures (base + Align(size) + RECORD * records) % 8 == 0
  {
    assert Align(size) == 8 * ((size + 7) / 8);
    assert base == 8 * (base / 8);
    assert (base + size + 7) / 8 == base / 8 + (size + 7) / 8;
    assert base + Align(size) + RECORD * records == 8 * (base / 8 + (size + 7) / 8 + 5 * records);
  }

  lemma {:induction false} EncodePrefix(ps: seq<ProcessInfo>, i: nat)
    requires i <= |ps| && Fits(ps)
    ensures Fits(ps[..i]) && |EncodeAll(ps[..i])| <= |EncodeAll(ps)|
  {
    hide Encode;
    if i < |ps| {
      assert ps[..|ps| - 1][..i] == ps[..i];
      EncodePrefix(ps[..|ps| - 1], i);
    } else {
      assert ps[..i] == ps;
    }
  }

  /** Copies some bytes to the end of what is done. */
  method Write(buffer: array<byte>, pos: nat, bytes: seq<byte>, ghost done: seq<byte>)
    requires pos == |done| && pos + |bytes| <= buffer.Length && buffer[..] == done + Zeros(buffer.Length - pos)
    modifies buffer
    ensures buffer[..] == done + bytes + Zeros(buffer.Length - pos - |bytes|)
  {
    ghost var before := buffer[..];
    forall i | 0 <= i < |bytes| { buffer[pos + i] := bytes[i]; }
    assert buffer[..pos] == before[..pos] == done;
    assert buffer[pos..pos + |bytes|] == bytes;
    assert buffer[pos + |bytes|..] == before[pos + |bytes|..] == Zeros(buffer.Length - pos - |bytes|);
  }

  /** Zeros that are left alone are done as well. */
  lemma Skip(buffer: array<byte>, done: seq<byte>, n: nat)
    requires |done| + n <= buffer.Length && buffer[..] == done + Zeros(buffer.Length - |done|)
    ensures buffer[..] == done + Zeros(n) + Zeros(buffer.Length - |done| - n)
  {
  }

  method FillThreads(buffer: array<byte>, start: nat, ts: seq<ThreadInfo>, ghost done: seq<byte>)
    requires start == |done| && start + RECORD * |ts| <= buffer.Length
             && buffer[..] == done + Zeros(buffer.Length - start)
    modifies buffer
    ensures buffer[..] == done + EncodeThreads(ts) + Zeros(buffer.Length - start - RECORD * |ts|)
  {
    hide ThreadBytes;
    var pos := start;
    for i := 0 to |ts|
      invariant pos == start + RECORD * i
      invariant buffer[..] == done + EncodeThreads(ts[..i]) + Zeros(buffer.Length - pos)
    {
      assert ts[..i + 1][..i] == ts[..i];
      Write(buffer, pos, ThreadBytes(ts[i]), done + EncodeThreads(ts[..i]));
      assert done + EncodeThreads(ts[..i]) + ThreadBytes(ts[i]) == done + EncodeThreads(ts[..i + 1]);
      pos := pos + RECORD;
    }
    assert ts[..|ts|] == ts;
  }
}
