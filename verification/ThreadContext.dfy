/** A thread's register context as the server keeps it, updated in place by the requests of other
    threads and by the thread's own report. Every method is proved against ContextModel. */
module ThreadContext {
  import opened ContextModel

  datatype Status = Success | InvalidParameter | Unsuccessful | AccessFailed

  class ContextObject {
    var pending: bool
    var nativeFlags: set<Group>
    var nativeRegs: Regs
    var wowFlags: set<Group>
    var wowRegs: Regs
    var inWow: bool

    ghost function Value(): Context
      reads this
    {
      Context(pending, Data(nativeFlags, nativeRegs), Data(wowFlags, wowRegs), inWow)
    }

    constructor ()
      ensures Value() == FRESH
    {
      pending, inWow := true, false;
      nativeFlags, nativeRegs, wowFlags, wowRegs := {}, ZEROS, {}, ZEROS;
    }
  }

  method CopyContext(to: Regs, from: Regs, flags: set<Group>) returns (r: Regs)
    ensures r == Copied(to, from, flags)
    ensures forall g: Group :: r.Get(g) == if g in flags then from.Get(g) else to.Get(g)
  {
    hide Regs.Get;
    r := to;
    if Control in flags { r := r.(ctl := from.ctl); }
    if Integer in flags { r := r.(integer := from.integer); }
    if Segments in flags { r := r.(seg := from.seg); }
    if FloatingPoint in flags { r := r.(fp := from.fp); }
    if DebugRegisters in flags { r := r.(debug := from.debug); }
    if Extended in flags { r := r.(ext := from.ext); }
    if Ymm in flags { r := r.(ymm := from.ymm); }
    if ExecSpace in flags { r := r.(execSpace := from.execSpace); }
  }

  class Thread {
    var context: ContextObject?
    var terminated: bool

    /** The context the model speaks about: a thread without one will start from a fresh one. */
    ghost function Value(): Context
      reads this, context
    {
      if context == null then FRESH else context.Value()
    }

    constructor ()
      ensures context == null && !terminated
    {
      context, terminated := null, false;
    }

    method StopThread()
      modifies this`context
      ensures context != null && Value() == old(Value())
      ensures context == old(context) || fresh(context)
    {
      if context != null { return; }
      context := new ContextObject();
    }

    /** A thread's registers are set, by another thread, which stops it, or by itself: then only a context
        it has already takes part. */
    method SetThreadContext(r: Request, self: bool, machinesOk: bool) returns (status: Status)
      modifies this`context, context
      ensures context == old(context) || fresh(context)
      ensures context == null <==> old(context) == null && (self || !machinesOk || terminated)
      ensures status == if !machinesOk then InvalidParameter else if terminated then Unsuccessful
                        else if Effective(r) then Success else AccessFailed
      ensures Value() == if machinesOk && !terminated && context != null then SetStep(old(Value()), r) else old(Value())
      ensures status == Success <==> machinesOk && !terminated && (DebugRegisters in r.native.flags ==> r.systemOk)
      // what the request says, group by group; a context that was not there starts pending and empty
      ensures old(context) == null ==>
                var c := old(Value()); c.pending && !c.inWow && c.native.flags == {} == c.wow.flags
      ensures status == Success && context != null ==>
                var c := old(Value());
                var toWow := r.wow.Some? && (c.pending || c.inWow);
                && context.pending == c.pending && context.inWow == (c.inWow || toWow)
                && (forall g: Group ::
                      var set' := g in r.native.flags && g != ExecSpace && (toWow && !c.pending ==> g in r.nativeFlags);
                      && (g in context.nativeFlags <==> set' || g in c.native.flags)
                      && context.nativeRegs.Get(g) == (if set' then r.native.regs else c.native.regs).Get(g))
                && forall g: Group ::
                     var set' := toWow && g in r.wow.value.flags && g != ExecSpace && g !in r.nativeFlags;
                     && (g in context.wowFlags <==> set' || g in c.wow.flags)
                     && context.wowRegs.Get(g) == (if set' then r.wow.value.regs else c.wow.regs).Get(g)
      ensures status != Success && old(context) != null ==> unchanged(old(context))
    {
      if !machinesOk { return InvalidParameter; }
      if terminated { return Unsuccessful; }
      if !self { StopThread(); }
      SystemGroups(r);
      if SYSTEM * r.native.flags != {} && !r.systemOk { return AccessFailed; }
      if context != null { MergeRequest(r); }
      return Success;
    }

    method MergeRequest(r: Request)
      requires context != null && Effective(r)
      modifies context
      ensures Value() == SetStep(old(Value()), r)
      ensures
                var c := old(Value());
                var toWow := r.wow.Some? && (c.pending || c.inWow);
                && context.pending == c.pending && context.inWow == (c.inWow || toWow)
                && (forall g: Group ::
                      var set' := g in r.native.flags && g != ExecSpace && (toWow && !c.pending ==> g in r.nativeFlags);
                      && (g in context.nativeFlags <==> set' || g in c.native.flags)
                      && context.nativeRegs.Get(g) == (if set' then r.native.regs else c.native.regs).Get(g))
                && forall g: Group ::
                     var set' := toWow && g in r.wow.value.flags && g != ExecSpace && g !in r.nativeFlags;
                     && (g in context.wowFlags <==> set' || g in c.wow.flags)
                     && context.wowRegs.Get(g) == (if set' then r.wow.value.regs else c.wow.regs).Get(g)
    {
      hide Copied, Regs.Get;
      var nativeFlags := r.native.flags - {ExecSpace};
      if r.wow.Some? && (context.pending || context.inWow) {
        var flags := r.wow.value.flags - (r.nativeFlags + {ExecSpace});
        if context.pending { context.inWow := true; }
        else { nativeFlags := nativeFlags * r.nativeFlags; }
        var regs := CopyContext(context.wowRegs, r.wow.value.regs, flags);
        context.wowRegs := regs;
        context.wowFlags := context.wowFlags + flags;
      }
      if nativeFlags != {} {
        var regs := CopyContext(context.nativeRegs, r.native.regs, nativeFlags);
        context.nativeRegs := regs;
        context.nativeFlags := context.nativeFlags + nativeFlags;
      } else {
        assert context.nativeFlags + nativeFlags == context.nativeFlags;
        CopiedNone(context.nativeRegs, r.native.regs);
      }
    }

    /** The thread itself reports its registers with a select request. */
    method ReportContext(p: Report) returns (status: Status)
      requires p.native.Some? || p.wow.Some?
      modifies this`context, context
      ensures context == old(context) || fresh(context)
      ensures status == if old(Value()).pending then Success else InvalidParameter
      ensures Value() == if old(Value()).pending then ReportStep(old(Value()), p) else old(Value())
      // what is reported, wherever nobody has set anything that still applies
      ensures status == Success ==>
                var c := old(Value());
                && c.pending && context != null && !context.pending && context.inWow == p.wow.Some?
                && (forall g: Group ::
                      && (g in context.nativeFlags <==> g in c.native.flags && (p.wow.Some? ==> g !in c.wow.flags))
                      && context.nativeRegs.Get(g) ==
                         if p.native.Some? && g in p.native.value.flags - (context.nativeFlags + {DebugRegisters})
                         then p.native.value.regs.Get(g) else c.native.regs.Get(g))
                && forall g: Group ::
                     && (g in context.wowFlags <==> g in c.wow.flags && p.wow.Some?)
                     && context.wowRegs.Get(g) ==
                        if p.wow.Some? && g in p.wow.value.flags && g !in context.wowFlags
                        then p.wow.value.regs.Get(g) else c.wow.regs.Get(g)
    {
      hide Copied, Regs.Get;
      if context != null {
        if !context.pending { return InvalidParameter; }
        if p.wow.Some? { context.nativeFlags := context.nativeFlags - context.wowFlags; }
        else { context.wowFlags, context.inWow := {}, false; }
      } else {
        context := new ContextObject();
      }
      if p.native.Some? {
        var regs := CopyContext(context.nativeRegs, p.native.value.regs,
                                p.native.value.flags - (context.nativeFlags + SYSTEM));
        context.nativeRegs := regs;
      }
      if p.wow.Some? {
        context.inWow := true;
        var regs := CopyContext(context.wowRegs, p.wow.value.regs, p.wow.value.flags - context.wowFlags);
        context.wowRegs := regs;
      }
      context.pending := false;
      ghost var after := ReportStep(old(Value()), p);
      assert context.nativeFlags == after.native.flags && context.wowFlags == after.wow.flags;
      assert context.nativeRegs == after.native.regs && context.wowRegs == after.wow.regs;
      return Success;
    }
  }
}
