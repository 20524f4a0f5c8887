/** The id allocator on values: which ids have owners, and the queue of freed ones. */
module PtidModel {
  import opened Common

  const PTID_OFFSET := 8
  const REUSE_THRESHOLD := 256
  const FIRST_SIZE := 512

  /** Everything is kept by index; an id is four times its index. */
  datatype State<T> = State(size: nat, used: nat, free: seq<nat>, live: map<nat, T>)

  datatype Op<T> = Alloc(owner: T, memory: bool) | Free(index: nat)

  function Grown(size: nat): nat { if size == 0 then FIRST_SIZE else size + size / 2 }

  ghost predicate InUse<T>(s: State<T>, index: nat) { PTID_OFFSET <= index < s.used + PTID_OFFSET }

  /** Every index in use either has an owner or is queued once; no other index is either. */
  ghost predicate Inv<T>(s: State<T>) {
    && s.used <= s.size && (s.size == 0 || FIRST_SIZE <= s.size)
    && (forall i, j :: 0 <= i < j < |s.free| ==> s.free[i] != s.free[j])
    && (forall index :: index in s.free ==> index !in s.live)
    && (forall index :: index in s.free || index in s.live <==> InUse(s, index))
  }

  /** The index handed out, or 0 when memory runs out. */
  function Handed<T>(s: State<T>, memory: bool): nat {
    if s.used < s.size then s.used + PTID_OFFSET
    else if REUSE_THRESHOLD <= |s.free| then s.free[0]
    else if memory then s.used + PTID_OFFSET
    else 0
  }

  /** Hands out the first index never used. */
  function FreshStep<T>(s: State<T>, owner: T): State<T> {
    s.(used := s.used + 1, live := s.live[s.used + PTID_OFFSET := owner])
  }

  /** Hands out the index that was freed longest ago. */
  function ReuseStep<T>(s: State<T>, owner: T): State<T>
    requires s.free != []
  {
    s.(free := s.free[1..], live := s.live[s.free[0] := owner])
  }

  function AllocStep<T>(s: State<T>, owner: T, memory: bool): State<T> {
    if s.used < s.size then FreshStep(s, owner)
    else if REUSE_THRESHOLD <= |s.free| then ReuseStep(s, owner)
    else if memory then FreshStep(s.(size := Grown(s.size)), owner)
    else s
  }

  function FreeStep<T>(s: State<T>, index: nat): State<T> {
    s.(free := s.free + [index], live := s.live - {index})
  }

  ghost predicate Enabled<T>(s: State<T>, op: Op<T>) { op.Free? ==> op.index in s.live }

  function Step<T>(s: State<T>, op: Op<T>): State<T> {
    match op
    case Alloc(owner, memory) => AllocStep(s, owner, memory)
    case Free(index) => FreeStep(s, index)
  }

  lemma FreshKeepsInv<T>(s: State<T>, owner: T)
    requires Inv(s) && s.used < s.size
    ensures Inv(FreshStep(s, owner)) && s.used + PTID_OFFSET !in s.live
  {
  }

  lemma ReuseKeepsInv<T>(s: State<T>, owner: T)
    requires Inv(s) && s.free != []
    ensures Inv(ReuseStep(s, owner)) && s.free[0] !in s.live && PTID_OFFSET <= s.free[0]
  {
    var s' := ReuseStep(s, owner);
    assert forall x :: x in s.free <==> x == s.free[0] || x in s.free[1..];
    assert s.free[0] !in s.free[1..];
    assert forall x :: InUse(s', x) == InUse(s, x);
    assert InUse(s, s.free[0]);
  }

  lemma GrownKeepsInv<T>(s: State<T>)
    requires Inv(s)
    ensures Inv(s.(size := Grown(s.size))) && s.size < Grown(s.size)
  {
  }

  lemma AllocKeepsInv<T>(s: State<T>, owner: T, memory: bool)
    requires Inv(s)
    ensures Inv(AllocStep(s, owner, memory))
  {
    if s.used < s.size {
      FreshKeepsInv(s, owner);
    } else if REUSE_THRESHOLD <= |s.free| {
      ReuseKeepsInv(s, owner);
    } else {
      GrownKeepsInv(s);
      FreshKeepsInv(s.(size := Grown(s.size)), owner);
    }
  }

  lemma FreeKeepsInv<T>(s: State<T>, index: nat)
    requires Inv(s) && index in s.live
    ensures Inv(FreeStep(s, index))
  {
  }

  /** A new owner gets an index nobody has, never 0, and takes nothing from anyone else; it fails
      only for want of memory, with no more than 255 ids waiting. */
  lemma HandedIsNew<T>(s: State<T>, owner: T, memory: bool)
    requires Inv(s)
    ensures var index, s' := Handed(s, memory), AllocStep(s, owner, memory);
            if index == 0 then !memory && |s.free| < REUSE_THRESHOLD && s' == s
            else index !in s.live && s'.live == s.live[index := owner]
  {
    if s.used == s.size && REUSE_THRESHOLD <= |s.free| {
      ReuseKeepsInv(s, owner);
    } else {
      assert !InUse(s, s.used + PTID_OFFSET);
    }
  }

  lemma HandedInRange<T>(s: State<T>, memory: bool)
    requires Inv(s)
    ensures Handed(s, memory) != 0 ==> 8 <= Handed(s, memory)
  {
    if s.used == s.size && REUSE_THRESHOLD <= |s.free| {
      assert s.free[0] in s.free;
      assert InUse(s, s.free[0]);
    }
  }

  // ---- delayed reuse over runs -------------------------------------------------------------

  ghost predicate IsRun<T>(ops: seq<Op<T>>, states: seq<State<T>>) {
    && |states| == |ops| + 1 && Inv(states[0])
    && forall i :: 0 <= i < |ops| ==> Enabled(states[i], ops[i]) && states[i + 1] == Step(states[i], ops[i])
  }

  lemma {:induction false} RunKeepsInv<T>(ops: seq<Op<T>>, states: seq<State<T>>, k: nat)
    requires IsRun(ops, states) && k <= |ops|
    ensures Inv(states[k])
  {
    if k != 0 {
      RunKeepsInv(ops, states, k - 1);
      match ops[k - 1]
      case Alloc(owner, memory) => AllocKeepsInv(states[k - 1], owner, memory);
      case Free(index) => FreeKeepsInv(states[k - 1], index);
    }
  }

  function Frees<T>(ops: seq<Op<T>>): nat {
    if ops == [] then 0 else Frees(ops[..|ops| - 1]) + if ops[|ops| - 1].Free? then 1 else 0
  }

  ghost predicate Hands<T>(s: State<T>, op: Op<T>, index: nat) {
    op.Alloc? && Handed(s, op.memory) == index
  }

  /** While a freed index waits, the ones queued behind it are those freed since. */
  lemma {:induction false} Waiting<T>(ops: seq<Op<T>>, states: seq<State<T>>, index: nat)
    requires IsRun(ops, states) && ops != [] && ops[0] == Free(index)
    requires forall i :: 0 < i < |ops| ==> !Hands(states[i], ops[i], index)
    ensures var free, since := states[|ops|].free, Frees(ops) - 1;
            0 <= since < |free| && free[|free| - 1 - since] == index
  {
    var last := |ops| - 1;
    RunKeepsInv(ops, states, last);
    assert states[last + 1] == Step(states[last], ops[last]);
    if last == 0 {
      assert ops[..0] == [];
    } else {
      hide Inv, Step, Hands, Enabled;
      Waiting(ops[..last], states[..last + 1], index);
      StillWaiting(states[last], ops[last], index, Frees(ops[..last]) - 1);
    }
  }

  /** One more operation, other than handing it out, leaves a waiting index where it was or further on. */
  lemma StillWaiting<T>(s: State<T>, op: Op<T>, index: nat, since: nat)
    requires since < |s.free| && s.free[|s.free| - 1 - since] == index && !Hands(s, op, index)
    ensures var free, since' := Step(s, op).free, since + if op.Free? then 1 else 0;
            since' < |free| && free[|free| - 1 - since'] == index
  {
  }

  /** A freed id is not handed out again before at least 255 others have been freed after it. */
  lemma {:induction false} ReuseIsDelayed<T>(ops: seq<Op<T>>, states: seq<State<T>>, index: nat, end: nat)
    requires IsRun(ops, states) && 0 < end < |ops| && ops[0] == Free(index)
    requires forall i :: 0 < i < end ==> !Hands(states[i], ops[i], index)
    requires Hands(states[end], ops[end], index)
    ensures Frees(ops[1..end]) >= 255
  {
    RunKeepsInv(ops, states, end);
    Waiting(ops[..end], states[..end + 1], index);
    FirstFree(ops[..end]);
    assert ops[..end][1..] == ops[1..end];
    var s, since := states[end], Frees(ops[..end]) - 1;
    assert index in s.free && InUse(s, index);
  }

  lemma {:induction false} FirstFree<T>(ops: seq<Op<T>>)
    requires ops != [] && ops[0].Free?
    ensures Frees(ops) == 1 + Frees(ops[1..])
  {
    if |ops| == 1 {
      assert ops[..0] == [];
    } else {
      FirstFree(ops[..|ops| - 1]);
      assert ops[1..][..|ops| - 2] == ops[..|ops| - 1][1..];
    }
  }

  // ---- how large the table gets ------------------------------------------------------------

  function Queued<T>(s: State<T>): set<nat> { set x | x in s.free }

  /** Owners and waiting indices together are as many as entries are in use. */
  lemma Accounted<T>(s: State<T>)
    requires Inv(s)
    ensures |s.live| + |s.free| == s.used
  {
    RangeSize(PTID_OFFSET, s.used);
    InUseAre(s, Range(PTID_OFFSET, s.used));
    QueueSize(s);
    hide *;
    TwoParts(s.live.Keys, Queued(s), Range(PTID_OFFSET, s.used));
  }

  lemma QueueSize<T>(s: State<T>)
    requires Inv(s)
    ensures |Queued(s)| == |s.free| && forall x :: x in Queued(s) <==> x in s.free
  {
    hide InUse;
    EnumeratesSize(s.free, Queued(s));
  }

  lemma InUseAre<T>(s: State<T>, all: set<nat>)
    requires Inv(s) && forall x: nat :: x in all <==> PTID_OFFSET <= x < PTID_OFFSET + s.used
    ensures forall x: nat :: x in all <==> x in s.live || x in s.free
    ensures forall x :: x in s.free ==> x !in s.live
  {
    forall x: nat ensures x in all <==> x in s.live || x in s.free { assert InUse(s, x) <==> x in all; }
  }

  /** Waiting ids are reused rather than the table grown: with no more than `most` owners at any point of
      a run from an empty table, it never has more than half again as many entries as owners and the 255
      ids that may wait, or its first 512. */
  lemma {:induction false} TableBounded<T>(ops: seq<Op<T>>, states: seq<State<T>>, most: nat, k: nat)
    requires IsRun(ops, states) && states[0].size == 0 && k <= |ops|
    requires forall i :: 0 <= i <= |ops| ==> |states[i].live| <= most
    ensures states[k].size <= 512 || 2 * states[k].size <= 3 * (most + 255)
  {
    if k != 0 {
      TableBounded(ops, states, most, k - 1);
      RunKeepsInv(ops, states, k - 1);
      assert states[k] == Step(states[k - 1], ops[k - 1]);
      assert |states[k - 1].live| <= most;
      hide *;
      StepBounded(states[k - 1], ops[k - 1], most);
    }
  }

  lemma StepBounded<T>(s: State<T>, op: Op<T>, most: nat)
    requires Inv(s) && |s.live| <= most && (s.size <= 512 || 2 * s.size <= 3 * (most + 255))
    ensures Step(s, op).size <= 512 || 2 * Step(s, op).size <= 3 * (most + 255)
  {
    Accounted(s);
    assert s.used <= s.size;
    hide Inv;
  }
}
