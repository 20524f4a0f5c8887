/** Register contexts of a suspended thread: what other threads set, and what the thread itself
    reports when it stops, merged group by group in whichever order they arrive. */
module ContextModel {
  import opened Common

  datatype Group = Control | Integer | Segments | FloatingPoint | DebugRegisters | Extended | Ymm | ExecSpace

  datatype Regs = Regs(ctl: int, integer: int, seg: int, fp: int, debug: int, ext: int, ymm: int, execSpace: int) {
    function Get(g: Group): int {
      match g
      case Control => ctl
      case Integer => integer
      case Segments => seg
      case FloatingPoint => fp
      case DebugRegisters => debug
      case Extended => ext
      case Ymm => ymm
      case ExecSpace => execSpace
    }
  }

  const ZEROS := Regs(0, 0, 0, 0, 0, 0, 0, 0)

  /** Registers the server itself writes to the thread; they are never taken from a report. */
  const SYSTEM: set<Group> := {DebugRegisters}

  datatype Data = Data(flags: set<Group>, regs: Regs)

  /** A thread's context in the server. `inWow` is what the source keeps as the machine of the
      second half: whether it is in use. */
  datatype Context = Context(pending: bool, native: Data, wow: Data, inWow: bool)

  const FRESH := Context(true, Data({}, ZEROS), Data({}, ZEROS), false)

  /** A request to set registers: contents for the native half, maybe for the WoW half, the groups
      that always belong to the native half, and whether the system registers could be written. */
  datatype Request = Request(native: Data, wow: Option<Data>, nativeFlags: set<Group>, systemOk: bool)

  /** What a thread reports when it stops: its native registers, its WoW ones, or both. */
  datatype Report = Report(native: Option<Data>, wow: Option<Data>)

  function Copied(to: Regs, from: Regs, flags: set<Group>): (r: Regs)
    ensures forall g: Group :: r.Get(g) == if g in flags then from.Get(g) else to.Get(g)
  {
    Regs(if Control in flags then from.ctl else to.ctl,
         if Integer in flags then from.integer else to.integer,
         if Segments in flags then from.seg else to.seg,
         if FloatingPoint in flags then from.fp else to.fp,
         if DebugRegisters in flags then from.debug else to.debug,
         if Extended in flags then from.ext else to.ext,
         if Ymm in flags then from.ymm else to.ymm,
         if ExecSpace in flags then from.execSpace else to.execSpace)
  }

  lemma CopiedNone(to: Regs, from: Regs)
    ensures Copied(to, from, {}) == to
  {
  }

  lemma SystemGroups(r: Request)
    ensures SYSTEM * r.native.flags != {} <==> DebugRegisters in r.native.flags
  {
    assert DebugRegisters in SYSTEM * r.native.flags <==> DebugRegisters in r.native.flags;
  }

  function Merged(d: Data, from: Data, flags: set<Group>): Data {
    Data(d.flags + flags, Copied(d.regs, from.regs, flags))
  }

  /** The groups a request stores in the WoW half, when it stores any there. */
  function WowPart(r: Request): set<Group> {
    if r.wow.Some? then r.wow.value.flags - (r.nativeFlags + {ExecSpace}) else {}
  }

  function NativePart(r: Request): set<Group> { r.native.flags - {ExecSpace} }

  function SetStep(s: Context, r: Request): Context {
    if SYSTEM * r.native.flags != {} && !r.systemOk then s
    else
      var toWow := r.wow.Some? && (s.pending || s.inWow);
      var native := if toWow && !s.pending then NativePart(r) * r.nativeFlags else NativePart(r);
      s.(native := Merged(s.native, r.native, native),
         wow := if toWow then Merged(s.wow, r.wow.value, WowPart(r)) else s.wow,
         inWow := s.inWow || toWow)
  }

  function ReportStep(s: Context, p: Report): Context {
    var nativeFlags := if p.wow.Some? then s.native.flags - s.wow.flags else s.native.flags;
    var wowFlags := if p.wow.Some? then s.wow.flags else {};
    Context(
      false,
      Data(nativeFlags,
           if p.native.Some? then
             Copied(s.native.regs, p.native.value.regs, p.native.value.flags - (nativeFlags + SYSTEM))
           else s.native.regs),
      Data(wowFlags,
           if p.wow.Some? then Copied(s.wow.regs, p.wow.value.regs, p.wow.value.flags - wowFlags) else s.wow.regs),
      p.wow.Some?)
  }

  function SetAll(s: Context, rs: seq<Request>): Context {
    if rs == [] then s else SetStep(SetAll(s, rs[..|rs| - 1]), rs[|rs| - 1])
  }

  /** The requests rs in order, with the report coming in after the first k of them. */
  function Run(rs: seq<Request>, p: Report, k: nat): Context
    requires k <= |rs|
  {
    SetAll(ReportStep(SetAll(FRESH, rs[..k]), p), rs[k..])
  }

  // ---- who wrote what ----------------------------------------------------------------------

  function Effective(r: Request): bool { SYSTEM * r.native.flags == {} || r.systemOk }

  predicate WritesNative(r: Request, g: Group) { Effective(r) && g in NativePart(r) }
  predicate WritesWow(r: Request, g: Group) { Effective(r) && g in WowPart(r) }

  /** The last value a sequence of requests writes to a group of the native half. */
  function LastNative(rs: seq<Request>, g: Group): Option<int> {
    if rs == [] then None
    else if WritesNative(rs[|rs| - 1], g) then Some(rs[|rs| - 1].native.regs.Get(g))
    else LastNative(rs[..|rs| - 1], g)
  }

  function LastWow(rs: seq<Request>, g: Group): Option<int> {
    if rs == [] then None
    else if WritesWow(rs[|rs| - 1], g) then Some(rs[|rs| - 1].wow.value.regs.Get(g))
    else LastWow(rs[..|rs| - 1], g)
  }

  /** One group of one half of a context: dirty exactly when somebody wrote it, and then holding the
      last writer's value; otherwise holding what was reported. */
  ghost predicate Shows(d: Data, g: Group, last: Option<int>, reported: Option<Data>, except: set<Group>) {
    && (g in d.flags <==> last.Some?)
    && (last.Some? ==> d.regs.Get(g) == last.value)
    && (last.None? && Reported(reported, g, except) ==> d.regs.Get(g) == reported.value.regs.Get(g))
  }

  predicate Reported(reported: Option<Data>, g: Group, except: set<Group>) {
    reported.Some? && g in reported.value.flags - except
  }

  /** The same, and zero when nobody wrote or reported it. */
  ghost predicate Holds(d: Data, g: Group, last: Option<int>, reported: Option<Data>, except: set<Group>) {
    && Shows(d, g, last, reported, except)
    && (last.None? && !Reported(reported, g, except) ==> d.regs.Get(g) == 0)
  }

  // ---- before the report -------------------------------------------------------------------

  lemma {:induction false} BeforeReport(rs: seq<Request>, g: Group)
    ensures var s := SetAll(FRESH, rs);
            s.pending && Holds(s.native, g, LastNative(rs, g), None, {}) && Holds(s.wow, g, LastWow(rs, g), None, {})
  {
    hide SetStep, Holds;
    if rs == [] {
      FreshHolds(g);
    } else {
      var init := rs[..|rs| - 1];
      BeforeReport(init, g);
      SetBefore(SetAll(FRESH, init), rs[|rs| - 1], g, LastNative(init, g), LastWow(init, g));
    }
  }

  lemma FreshHolds(g: Group)
    ensures FRESH.pending && Holds(FRESH.native, g, None, None, {}) && Holds(FRESH.wow, g, None, None, {})
  {
  }

  /** Before the report each request writes its groups to both halves. */
  lemma SetBefore(s: Context, r: Request, g: Group, native: Option<int>, wow: Option<int>)
    requires s.pending && Holds(s.native, g, native, None, {}) && Holds(s.wow, g, wow, None, {})
    ensures var s' := SetStep(s, r);
            && s'.pending
            && Holds(s'.native, g, if WritesNative(r, g) then Some(r.native.regs.Get(g)) else native, None, {})
            && Holds(s'.wow, g, if WritesWow(r, g) then Some(r.wow.value.regs.Get(g)) else wow, None, {})
  {
  }

  // ---- a thread running native code --------------------------------------------------------

  ghost predicate NativeForm(rs: seq<Request>, p: Report, s: Context) {
    && !s.pending && !s.inWow && s.wow.flags == {}
    && forall g: Group :: Holds(s.native, g, LastNative(rs, g), p.native, SYSTEM)
  }

  lemma NativeReported(rs: seq<Request>, p: Report)
    requires p.wow.None?
    ensures NativeForm(rs, p, ReportStep(SetAll(FRESH, rs), p))
  {
    forall g: Group ensures Holds(ReportStep(SetAll(FRESH, rs), p).native, g, LastNative(rs, g), p.native, SYSTEM) {
      BeforeReport(rs, g);
    }
  }

  lemma NativeKept(rs: seq<Request>, p: Report, s: Context, r: Request)
    requires NativeForm(rs, p, s)
    ensures NativeForm(rs + [r], p, SetStep(s, r))
  {
  }

  lemma {:induction false} NativeRun(rs: seq<Request>, p: Report, k: nat)
    requires p.wow.None? && k <= |rs|
    ensures NativeForm(rs, p, Run(rs, p, k))
  {
    if k == |rs| {
      assert rs[..k] == rs && rs[k..] == [];
      NativeReported(rs, p);
    } else {
      var init, r := rs[..|rs| - 1], rs[|rs| - 1];
      NativeRun(init, p, k);
      assert init[..k] == rs[..k] && init[k..] == rs[k..][..|rs| - 1 - k];
      NativeKept(init, p, Run(init, p, k), r);
      assert init + [r] == rs;
    }
  }

  lemma SameRegs(a: Data, b: Data)
    requires forall g: Group :: (g in a.flags <==> g in b.flags) && a.regs.Get(g) == b.regs.Get(g)
    ensures a == b
  {
    assert a.regs.Get(Control) == b.regs.Get(Control) && a.regs.Get(Integer) == b.regs.Get(Integer);
    assert a.regs.Get(Segments) == b.regs.Get(Segments) && a.regs.Get(FloatingPoint) == b.regs.Get(FloatingPoint);
    assert a.regs.Get(DebugRegisters) == b.regs.Get(DebugRegisters) && a.regs.Get(Extended) == b.regs.Get(Extended);
    assert a.regs.Get(Ymm) == b.regs.Get(Ymm) && a.regs.Get(ExecSpace) == b.regs.Get(ExecSpace);
  }

  /** For a thread that reports native registers it makes no difference when the report comes in: the
      registers and the dirty flags end up the same, the last writer of each group winning. */
  lemma NativeCommutes(rs: seq<Request>, p: Report, j: nat, k: nat)
    requires p.wow.None? && j <= |rs| && k <= |rs|
    ensures Run(rs, p, j).native == Run(rs, p, k).native
    ensures Run(rs, p, j).wow.flags == {} == Run(rs, p, k).wow.flags && !Run(rs, p, j).inWow && !Run(rs, p, k).inWow
    ensures forall g: Group :: LastNative(rs, g).Some? ==>
              g in Run(rs, p, k).native.flags && Run(rs, p, k).native.regs.Get(g) == LastNative(rs, g).value
  {
    NativeRun(rs, p, j);
    NativeRun(rs, p, k);
    forall g: Group
      ensures g in Run(rs, p, j).native.flags <==> g in Run(rs, p, k).native.flags
      ensures Run(rs, p, j).native.regs.Get(g) == Run(rs, p, k).native.regs.Get(g)
      ensures LastNative(rs, g).Some? ==>
              g in Run(rs, p, k).native.flags && Run(rs, p, k).native.regs.Get(g) == LastNative(rs, g).value
    {
      assert Holds(Run(rs, p, j).native, g, LastNative(rs, g), p.native, SYSTEM);
      assert Holds(Run(rs, p, k).native, g, LastNative(rs, g), p.native, SYSTEM);
    }
    SameRegs(Run(rs, p, j).native, Run(rs, p, k).native);
  }

  // ---- a thread running WoW code -----------------------------------------------------------

  /** The groups a request writes to the native half when it comes after a WoW report. */
  function AfterPart(r: Request): set<Group> {
    if r.wow.Some? then NativePart(r) * r.nativeFlags else NativePart(r)
  }

  predicate WritesAfter(r: Request, g: Group) { Effective(r) && g in AfterPart(r) }

  function LastAfter(rs: seq<Request>, g: Group): Option<int> {
    if rs == [] then None
    else if WritesAfter(rs[|rs| - 1], g) then Some(rs[|rs| - 1].native.regs.Get(g))
    else LastAfter(rs[..|rs| - 1], g)
  }

  /** What is left dirty in a group of the native half when the first k requests come before a WoW
      report and the others after it. */
  function LeftNative(rs: seq<Request>, g: Group, k: nat): Option<int>
    requires k <= |rs|
  {
    if LastAfter(rs[k..], g).Some? then LastAfter(rs[k..], g)
    else if LastWow(rs[..k], g).None? then LastNative(rs[..k], g)
    else None
  }

  /** One group of both halves after a WoW report. */
  ghost predicate WowForm(rs: seq<Request>, p: Report, k: nat, g: Group, s: Context)
    requires k <= |rs|
  {
    && !s.pending && s.inWow
    && Holds(s.wow, g, LastWow(rs, g), p.wow, {})
    && Shows(s.native, g, LeftNative(rs, g, k), p.native, SYSTEM)
  }

  lemma {:induction false} WowRun(rs: seq<Request>, p: Report, k: nat, g: Group)
    requires p.wow.Some? && k <= |rs|
    ensures WowForm(rs, p, k, g, Run(rs, p, k))
  {
    if k == |rs| {
      assert rs[..k] == rs && rs[k..] == [];
      BeforeReport(rs, g);
    } else {
      var init, r := rs[..|rs| - 1], rs[|rs| - 1];
      WowRun(init, p, k, g);
      assert init[..k] == rs[..k] && init[k..] == rs[k..][..|rs| - 1 - k];
      WowKept(init, p, k, g, Run(init, p, k), r);
      assert init + [r] == rs;
    }
  }

  lemma WowKept(rs: seq<Request>, p: Report, k: nat, g: Group, s: Context, r: Request)
    requires k <= |rs| && WowForm(rs, p, k, g, s)
    ensures WowForm(rs + [r], p, k, g, SetStep(s, r))
  {
    LeftMore(rs, g, k, r);
    assert (rs + [r])[..|rs|] == rs;
    assert LastWow(rs + [r], g) == if WritesWow(r, g) then Some(r.wow.value.regs.Get(g)) else LastWow(rs, g);
    hide LeftNative, LastWow, LastAfter, SetStep, Holds, Shows;
    SetAfter(s, r, g, LastWow(rs, g), LeftNative(rs, g, k), p);
  }

  /** After a WoW report a request writes its WoW groups there, and of the native half what is left. */
  lemma SetAfter(s: Context, r: Request, g: Group, wow: Option<int>, left: Option<int>, p: Report)
    requires !s.pending && s.inWow && Holds(s.wow, g, wow, p.wow, {}) && Shows(s.native, g, left, p.native, SYSTEM)
    ensures var s' := SetStep(s, r);
            && !s'.pending && s'.inWow
            && Holds(s'.wow, g, if WritesWow(r, g) then Some(r.wow.value.regs.Get(g)) else wow, p.wow, {})
            && Shows(s'.native, g, if WritesAfter(r, g) then Some(r.native.regs.Get(g)) else left, p.native, SYSTEM)
  {
  }

  lemma LeftMore(rs: seq<Request>, g: Group, k: nat, r: Request)
    requires k <= |rs|
    ensures LeftNative(rs + [r], g, k) == if WritesAfter(r, g) then Some(r.native.regs.Get(g)) else LeftNative(rs, g, k)
  {
    var longer := rs + [r];
    assert longer[..k] == rs[..k] && longer[k..] == rs[k..] + [r] && longer[k..][..|rs| - k] == rs[k..];
  }

  /** The WoW half of a thread that reports WoW registers never depends on when the report comes, the
      last writer of each group winning. */
  lemma WowHalfCommutes(rs: seq<Request>, p: Report, j: nat, k: nat)
    requires p.wow.Some? && j <= |rs| && k <= |rs|
    ensures Run(rs, p, j).wow == Run(rs, p, k).wow && Run(rs, p, j).inWow && Run(rs, p, k).inWow
    ensures forall g: Group :: LastWow(rs, g).Some? ==>
              g in Run(rs, p, k).wow.flags && Run(rs, p, k).wow.regs.Get(g) == LastWow(rs, g).value
  {
    var a, b := Run(rs, p, j), Run(rs, p, k);
    WowRun(rs, p, j, Control);
    WowRun(rs, p, k, Control);
    forall g: Group
      ensures (g in a.wow.flags <==> g in b.wow.flags) && a.wow.regs.Get(g) == b.wow.regs.Get(g)
      ensures LastWow(rs, g).Some? ==> g in b.wow.flags && b.wow.regs.Get(g) == LastWow(rs, g).value
    {
      WowRun(rs, p, j, g);
      WowRun(rs, p, k, g);
    }
    hide Run, LastWow;
    SameRegs(a.wow, b.wow);
  }

  // ---- when the native half does not depend on it either -----------------------------------

  /** Some request writes the group in a way that lasts whenever the report comes. */
  ghost predicate SomeAfter(rs: seq<Request>, g: Group) { exists i :: 0 <= i < |rs| && WritesAfter(rs[i], g) }

  /** What the requests must be like for the dirty flag of a group not to depend on the report: if some
      request writes it after a report, none writes it in the WoW half; otherwise every request that
      writes it in the native half has one at or before it that writes it in the WoW half. */
  ghost predicate FlagSettled(rs: seq<Request>, g: Group) {
    if SomeAfter(rs, g) then forall j :: 0 <= j < |rs| ==> !WritesWow(rs[j], g)
    else forall i :: 0 <= i < |rs| && WritesNative(rs[i], g) ==> WowBy(rs, g, i)
  }

  ghost predicate WowBy(rs: seq<Request>, g: Group, i: nat)
    requires i < |rs|
  {
    exists j :: 0 <= j <= i && WritesWow(rs[j], g)
  }

  /** For its value not to depend on it either, no request behind the last one that writes it after a
      report may write another value to it. */
  ghost predicate ValueSettled(rs: seq<Request>, g: Group) {
    SomeAfter(rs, g) ==>
      forall i :: 0 <= i < |rs| && WritesNative(rs[i], g) && !SomeAfter(rs[i..], g) ==>
        Some(rs[i].native.regs.Get(g)) == LastAfter(rs, g)
  }

  lemma {:induction false} LastAfterIs(rs: seq<Request>, g: Group)
    ensures LastAfter(rs, g).Some? <==> SomeAfter(rs, g)
  {
    if rs != [] {
      var init := rs[..|rs| - 1];
      LastAfterIs(init, g);
      if WritesAfter(rs[|rs| - 1], g) {
      } else if SomeAfter(init, g) {
        var i :| 0 <= i < |init| && WritesAfter(init[i], g);
        assert WritesAfter(rs[i], g);
      } else {
        forall i | 0 <= i < |rs| ensures !WritesAfter(rs[i], g) {
          if i < |init| { assert init[i] == rs[i]; }
        }
      }
    }
  }

  /** Only the part from some point on matters if anything is written there. */
  lemma {:induction false} LastAfterFrom(rs: seq<Request>, g: Group, k: nat)
    requires k <= |rs|
    ensures LastAfter(rs, g) == if LastAfter(rs[k..], g).Some? then LastAfter(rs[k..], g) else LastAfter(rs[..k], g)
  {
    if k == |rs| {
      assert rs[..k] == rs;
    } else {
      var init := rs[..|rs| - 1];
      LastAfterFrom(init, g, k);
      assert init[..k] == rs[..k] && init[k..] == rs[k..][..|rs| - 1 - k];
    }
  }

  lemma {:induction false} LastWowIs(rs: seq<Request>, g: Group, k: nat)
    requires k <= |rs|
    ensures LastWow(rs[..k], g).Some? <==> exists j :: 0 <= j < k && WritesWow(rs[j], g)
  {
    if k != 0 {
      LastWowIs(rs, g, k - 1);
      assert rs[..k][..k - 1] == rs[..k - 1];
    }
  }

  /** The last native write among the first k requests. */
  lemma {:induction false} LastNativeIs(rs: seq<Request>, g: Group, k: nat) returns (i: nat)
    requires k <= |rs|
    ensures i <= k && forall j :: i <= j < k ==> !WritesNative(rs[j], g)
    ensures if i == 0 then LastNative(rs[..k], g).None?
            else WritesNative(rs[i - 1], g) && LastNative(rs[..k], g) == Some(rs[i - 1].native.regs.Get(g))
  {
    i := k;
    if k != 0 {
      assert rs[..k][..k - 1] == rs[..k - 1];
      if !WritesNative(rs[k - 1], g) { i := LastNativeIs(rs, g, k - 1); }
    }
  }

  lemma LeftAtStart(rs: seq<Request>, g: Group)
    ensures LeftNative(rs, g, 0) == LastAfter(rs, g) && (LeftNative(rs, g, 0).Some? <==> SomeAfter(rs, g))
  {
    assert rs[0..] == rs && rs[..0] == [];
    LastAfterIs(rs, g);
  }

  lemma SettledFlag(rs: seq<Request>, g: Group, k: nat)
    requires FlagSettled(rs, g) && k <= |rs|
    ensures LeftNative(rs, g, k).Some? <==> SomeAfter(rs, g)
    ensures LastAfter(rs[k..], g).None? && SomeAfter(rs, g) ==> LeftNative(rs, g, k) == LastNative(rs[..k], g)
  {
    LastAfterIs(rs, g);
    LastAfterIs(rs[..k], g);
    LastAfterFrom(rs, g, k);
    LastWowIs(rs, g, k);
    var i := LastNativeIs(rs, g, k);
    if SomeAfter(rs, g) && LastAfter(rs[k..], g).None? {
      var a :| 0 <= a < k && WritesAfter(rs[..k][a], g);
      assert WritesNative(rs[a], g);
    } else if !SomeAfter(rs, g) && i != 0 {
      assert WowBy(rs, g, i - 1);
    }
  }

  lemma SettledValue(rs: seq<Request>, g: Group, k: nat)
    requires FlagSettled(rs, g) && ValueSettled(rs, g) && k <= |rs|
    ensures LeftNative(rs, g, k) == LeftNative(rs, g, 0)
  {
    LeftAtStart(rs, g);
    SettledFlag(rs, g, k);
    LastAfterFrom(rs, g, k);
    if SomeAfter(rs, g) && LastAfter(rs[k..], g).None? {
      var i := LastNativeIs(rs, g, k);
      LastAfterIs(rs[k..], g);
      if SomeAfter(rs[i - 1..], g) { StillAfter(rs, g, i - 1, k); }
    }
  }

  /** If the last write after a report is also the last native one of the first k, that is what stays. */
  lemma StillAfter(rs: seq<Request>, g: Group, from: nat, k: nat)
    requires from < k <= |rs| && SomeAfter(rs[from..], g) && !SomeAfter(rs[k..], g)
    requires forall j :: from < j < k ==> !WritesNative(rs[j], g)
    ensures LastAfter(rs, g) == Some(rs[from].native.regs.Get(g))
  {
    forall j | from < j < |rs| ensures !WritesAfter(rs[j], g) {
      if k <= j { assert rs[k..][j - k] == rs[j]; }
    }
    var i :| 0 <= i < |rs[from..]| && WritesAfter(rs[from..][i], g);
    assert rs[from..][i] == rs[from + i] && i == 0;
    var later := rs[from + 1..];
    forall j | 0 <= j < |later| ensures !WritesAfter(later[j], g) { assert later[j] == rs[from + 1 + j]; }
    LastAfterIs(later, g);
    LastAfterFrom(rs, g, from + 1);
    assert rs[..from + 1][..from] == rs[..from];
  }

  lemma UnsettledFlag(rs: seq<Request>, g: Group) returns (k: nat)
    requires !FlagSettled(rs, g)
    ensures k <= |rs| && (LeftNative(rs, g, k).Some? <==> !SomeAfter(rs, g))
  {
    if SomeAfter(rs, g) {
      k := |rs|;
      assert rs[k..] == [];
      LastWowIs(rs, g, k);
    } else {
      var i :| 0 <= i < |rs| && WritesNative(rs[i], g) && !WowBy(rs, g, i);
      k := i + 1;
      LastWowIs(rs, g, k);
      assert rs[..k][..i] == rs[..i];
    }
  }

  lemma UnsettledValue(rs: seq<Request>, g: Group) returns (k: nat)
    requires FlagSettled(rs, g) && !ValueSettled(rs, g)
    ensures k <= |rs| && LeftNative(rs, g, k) != LeftNative(rs, g, 0)
  {
    var i :| 0 <= i < |rs| && WritesNative(rs[i], g) && !SomeAfter(rs[i..], g)
      && Some(rs[i].native.regs.Get(g)) != LastAfter(rs, g);
    k := i + 1;
    LeftAtStart(rs, g);
    SettledFlag(rs, g, k);
    LastAfterIs(rs[k..], g);
    var later := rs[k..];
    forall j | 0 <= j < |later| ensures !WritesAfter(later[j], g) { assert later[j] == rs[i..][j + 1]; }
    assert rs[..k][..i] == rs[..i];
  }

  /** Two native halves show the same: the same dirty flags, and the same value wherever a group is dirty
      or was reported. */
  ghost predicate SameShown(a: Data, b: Data, reported: Option<Data>) {
    && a.flags == b.flags
    && forall g: Group :: g in a.flags || Reported(reported, g, SYSTEM) ==> a.regs.Get(g) == b.regs.Get(g)
  }

  /** The exact condition for the dirty flags of a whole sequence of requests. */
  lemma FlagsCommuteIff(rs: seq<Request>, p: Report)
    requires p.wow.Some?
    ensures (forall k :: 0 <= k <= |rs| ==> Run(rs, p, k).native.flags == Run(rs, p, 0).native.flags)
        <==> forall g: Group :: FlagSettled(rs, g)
  {
    if forall g: Group :: FlagSettled(rs, g) {
      forall k, g: Group | 0 <= k <= |rs| ensures g in Run(rs, p, k).native.flags <==> g in Run(rs, p, 0).native.flags {
        SettledFlag(rs, g, k);
        LeftAtStart(rs, g);
        WowRun(rs, p, k, g);
        WowRun(rs, p, 0, g);
      }
    } else {
      var g: Group :| !FlagSettled(rs, g);
      var k := UnsettledFlag(rs, g);
      LeftAtStart(rs, g);
      WowRun(rs, p, k, g);
      WowRun(rs, p, 0, g);
    }
  }

  /** The exact condition for all the native half shows: for a thread that reports WoW registers a
      sequence of requests commutes with the report if and only if every group is settled, in its flag
      and in its value. */
  lemma WowCommutesIff(rs: seq<Request>, p: Report)
    requires p.wow.Some?
    ensures (forall k :: 0 <= k <= |rs| ==> SameShown(Run(rs, p, k).native, Run(rs, p, 0).native, p.native))
        <==> forall g: Group :: FlagSettled(rs, g) && ValueSettled(rs, g)
  {
    if forall g: Group :: FlagSettled(rs, g) && ValueSettled(rs, g) {
      forall k | 0 <= k <= |rs| ensures SameShown(Run(rs, p, k).native, Run(rs, p, 0).native, p.native) {
        SettledShown(rs, p, k);
      }
    } else {
      FlagsCommuteIff(rs, p);
      if forall g: Group :: FlagSettled(rs, g) {
        var g: Group :| !ValueSettled(rs, g);
        var k := UnsettledValue(rs, g);
        SettledFlag(rs, g, k);
        LeftAtStart(rs, g);
        WowRun(rs, p, k, g);
        WowRun(rs, p, 0, g);
      }
    }
  }

  lemma SettledShown(rs: seq<Request>, p: Report, k: nat)
    requires p.wow.Some? && k <= |rs| && forall g: Group :: FlagSettled(rs, g) && ValueSettled(rs, g)
    ensures SameShown(Run(rs, p, k).native, Run(rs, p, 0).native, p.native)
  {
    var a, b := Run(rs, p, k).native, Run(rs, p, 0).native;
    forall g: Group
      ensures g in a.flags <==> g in b.flags
      ensures g in a.flags || Reported(p.native, g, SYSTEM) ==> a.regs.Get(g) == b.regs.Get(g)
    {
      SettledValue(rs, g, k);
      WowRun(rs, p, k, g);
      WowRun(rs, p, 0, g);
    }
  }

  // ---- requests that are settled -----------------------------------------------------------

  /** A request covers its native groups when each of them always belongs to the native half or is
      set in the WoW half too. */
  predicate Covers(r: Request) {
    NativePart(r) - r.nativeFlags <= WowPart(r)
  }

  ghost predicate AllCover(rs: seq<Request>, nativeFlags: set<Group>) {
    forall i :: 0 <= i < |rs| ==> Covers(rs[i]) && rs[i].nativeFlags == nativeFlags
  }

  /** Requests that each cover their native groups, and agree on which groups are native, are settled. */
  lemma WowCommutes(rs: seq<Request>, p: Report, nativeFlags: set<Group>, j: nat, k: nat)
    requires p.wow.Some? && AllCover(rs, nativeFlags) && j <= |rs| && k <= |rs|
    ensures var a, b := Run(rs, p, j), Run(rs, p, k);
            && a.wow == b.wow && a.inWow && b.inWow
            && SameShown(a.native, b.native, p.native)
  {
    forall g: Group ensures FlagSettled(rs, g) && ValueSettled(rs, g) { CoveredSettled(rs, nativeFlags, g); }
    SettledShown(rs, p, j);
    SettledShown(rs, p, k);
    WowHalfCommutes(rs, p, j, k);
  }

  lemma CoveredSettled(rs: seq<Request>, nativeFlags: set<Group>, g: Group)
    requires AllCover(rs, nativeFlags)
    ensures FlagSettled(rs, g) && ValueSettled(rs, g)
  {
    if g in nativeFlags {
      forall i | 0 <= i < |rs| && WritesNative(rs[i], g) ensures SomeAfter(rs[i..], g) && SomeAfter(rs, g) {
        assert rs[i].nativeFlags == nativeFlags;
        assert WritesAfter(rs[i], g) && WritesAfter(rs[i..][0], g);
      }
      forall j | 0 <= j < |rs| ensures !WritesWow(rs[j], g) { assert rs[j].nativeFlags == nativeFlags; }
    } else {
      forall i | 0 <= i < |rs| ensures !WritesAfter(rs[i], g) && (WritesNative(rs[i], g) ==> WritesWow(rs[i], g)) {
        assert Covers(rs[i]) && rs[i].nativeFlags == nativeFlags;
      }
    }
  }

  /** Covering is exactly what one two-half request needs to commute with a WoW report. */
  lemma OneCommutesIffCovers(r: Request, p: Report)
    requires p.wow.Some? && r.wow.Some? && Effective(r)
    ensures Run([r], p, 0).native.flags == Run([r], p, 1).native.flags <==> Covers(r)
  {
    var before, after := Run([r], p, 1), Run([r], p, 0);
    assert [r][..0] == [] && [r][0..] == [r] && [r][..1] == [r] && [r][1..] == [];
    assert SetAll(FRESH, [r]) == SetStep(FRESH, r);
    assert before.native.flags == NativePart(r) - WowPart(r);
    assert SetAll(ReportStep(FRESH, p), [r]) == SetStep(ReportStep(FRESH, p), r);
    assert after.native.flags == NativePart(r) * r.nativeFlags;
    if !Covers(r) {
      var g :| g in NativePart(r) - r.nativeFlags && g !in WowPart(r);
      assert g in before.native.flags && g !in after.native.flags;
    }
  }

  /** Requests that disagree on which groups are native do not commute, even if each one covers. */
  lemma DisagreeingRequests(p: Report)
    requires p.wow.Some?
    ensures exists r1: Request, r2: Request ::
              && Covers(r1) && Covers(r2) && Effective(r1) && Effective(r2)
              && Run([r1, r2], p, 0).native.flags != Run([r1, r2], p, 2).native.flags
  {
    var both := Data({Control}, ZEROS);
    var r1, r2 := Request(both, Some(both), {Control}, true), Request(both, Some(both), {}, true);
    assert [r1, r2][..0] == [] && [r1, r2][0..] == [r1, r2] && [r1, r2][..2] == [r1, r2] && [r1, r2][2..] == [];
    assert [r1, r2][..1] == [r1] && [r1][..0] == [];
    assert SetAll(FRESH, [r1, r2]) == SetStep(SetStep(FRESH, r1), r2) by {
      assert SetAll(FRESH, [r1]) == SetStep(SetAll(FRESH, []), r1);
    }
    assert Control !in Run([r1, r2], p, 2).native.flags;
    var s := ReportStep(FRESH, p);
    assert SetAll(s, [r1, r2]) == SetStep(SetStep(s, r1), r2) by {
      assert SetAll(s, [r1]) == SetStep(SetAll(s, []), r1);
    }
    assert Control in Run([r1, r2], p, 0).native.flags;
  }
}
