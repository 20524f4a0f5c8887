/** Process and thread ids as the server keeps them: an array of entries with a first-in first-out
    free list threaded through it. Every method is proved against PtidModel. */
module PtidTable {
  import opened Common
  import opened PtidModel

  datatype Entry<T> = Entry(ptr: Option<T>, next: nat)

  function IndexFromPtid(id: nat): nat { id / 4 }
  function PtidFromIndex(index: nat): nat { index * 4 }

  /** What follows place k of a queue of indices; 0 at its end. */
  function After(free: seq<nat>, k: nat): nat { if k + 1 < |free| then free[k + 1] else 0 }

  class Table<T(0)> {
    var entries: array<Entry<T>>
    var used: nat
    var nextFree: nat
    var lastFree: nat
    var numFree: nat

    ghost var model: State<T>

    ghost predicate Valid()
      reads this, entries
    {
      && Inv(model)
      && entries.Length == model.size && used == model.used
      && Linked(model.free)
      && Owned()
    }

    /** The chain from nextFree to lastFree runs through the queue of freed indices, in its order,
        and ends there. */
    ghost predicate Linked(free: seq<nat>)
      reads this`entries, this`nextFree, this`lastFree, this`numFree, entries
    {
      && (forall k :: 0 <= k < |free| ==> PTID_OFFSET <= free[k] < entries.Length + PTID_OFFSET)
      && nextFree == (if free == [] then 0 else free[0])
      && lastFree == (if free == [] then 0 else free[|free| - 1])
      && (forall k {:trigger After(free, k)} :: 0 <= k < |free| ==>
           entries[free[k] - PTID_OFFSET].next == After(free, k))
      && numFree == |free|
    }

    /** An entry in use holds its owner's pointer, or none. */
    ghost predicate Owned()
      reads this`entries, this`used, this`model, entries
    {
      && used <= entries.Length
      && (forall e :: 0 <= e < used ==>
           entries[e].ptr == if e + PTID_OFFSET in model.live then Some(model.live[e + PTID_OFFSET]) else None)
    }

    constructor ()
      ensures Valid() && model == State(0, 0, [], map[]) && fresh(entries)
    {
      entries := new Entry<T>[0];
      used, nextFree, lastFree, numFree := 0, 0, 0, 0;
      model := State(0, 0, [], map[]);
    }

    method AllocPtid(ptr: T, memory: bool) returns (id: nat)
      requires Valid()
      modifies this, entries
      ensures Valid() && (entries == old(entries) || fresh(entries))
      ensures id == PtidFromIndex(Handed(old(model), memory)) && model == AllocStep(old(model), ptr, memory)
      // the id is new, and looking it up gives its owner; nobody else's is touched
      ensures id != 0 ==>
                && 32 <= id && id % 4 == 0 && id / 4 !in old(model).live
                && model.live == old(model).live[id / 4 := ptr]
      ensures id == 0 ==> !memory && model.live == old(model).live && old(used == entries.Length && numFree < 256)
      // an entry never used, else the id freed first if 256 are waiting, and only then a bigger array
      ensures old(used < entries.Length) ==> id / 4 == old(used) + 8
      ensures old(used == entries.Length && 256 <= numFree) ==> id / 4 == old(nextFree)
      ensures entries != old(entries) ==> old(used == entries.Length && numFree < 256)
    {
      HandedIsNew(model, ptr, memory);
      HandedInRange(model, memory);
      HandedWhich();
      hide Inv, Linked, Owned, AllocStep, ReuseStep, FreshStep, Handed;
      if used < entries.Length {
        id := TakeFresh(ptr);
      } else if nextFree != 0 && numFree >= REUSE_THRESHOLD {
        id := TakeFreed(ptr);
      } else {
        var count := entries.Length + entries.Length / 2;
        if count == 0 { count := FIRST_SIZE; }
        if !memory { return 0; }
        Resize(count);
        id := TakeFresh(ptr);
      }
    }

    lemma HandedWhich()
      requires Valid()
      ensures numFree == |model.free| && (numFree != 0 ==> nextFree == model.free[0] != 0)
      ensures forall memory :: Handed(model, memory) ==
                if used < entries.Length then used + 8
                else if 256 <= numFree then nextFree
                else if memory then used + 8
                else 0
    {
      if model.free != [] { assert model.free[0] in model.free; assert InUse(model, model.free[0]); }
    }

    method TakeFresh(ptr: T) returns (id: nat)
      requires Valid() && used < entries.Length
      modifies this`used, this`model, entries
      ensures Valid()
      ensures id == PtidFromIndex(old(used) + PTID_OFFSET) && model == FreshStep(old(model), ptr)
    {
      FreshKeepsInv(model, ptr);
      var index := used + PTID_OFFSET;
      assert !InUse(model, index);
      SetOwner(index, ptr, model.free);
      used := used + 1;
      model := FreshStep(model, ptr);
      return PtidFromIndex(index);
    }

    method TakeFreed(ptr: T) returns (id: nat)
      requires Valid() && model.free != []
      modifies this`nextFree, this`lastFree, this`numFree, this`model, entries
      ensures Valid()
      ensures id == PtidFromIndex(old(model).free[0]) && model == ReuseStep(old(model), ptr)
    {
      hide Inv, Linked;
      ReuseKeepsInv(model, ptr);
      var index := Dequeue(model.free);
      SetOwner(index, ptr, model.free[1..]);
      model := ReuseStep(model, ptr);
      return PtidFromIndex(index);
    }

    /** Takes the head off the chain. */
    method Dequeue(ghost free: seq<nat>) returns (index: nat)
      requires Linked(free) && free != []
      modifies this`nextFree, this`lastFree, this`numFree
      ensures Linked(free[1..]) && index == free[0] && PTID_OFFSET <= index < entries.Length + PTID_OFFSET
    {
      ghost var rest := free[1..];
      forall k | 0 <= k < |rest|
        ensures PTID_OFFSET <= rest[k] < entries.Length + PTID_OFFSET
        ensures entries[rest[k] - PTID_OFFSET].next == After(rest, k)
      {
        assert rest[k] == free[k + 1] && After(rest, k) == After(free, k + 1);
      }
      index := nextFree;
      assert entries[index - PTID_OFFSET].next == After(free, 0);
      nextFree := entries[index - PTID_OFFSET].next;
      if nextFree == 0 { lastFree := 0; }
      numFree := numFree - 1;
    }

    method SetOwner(index: nat, ptr: T, ghost free: seq<nat>)
      requires Linked(free) && PTID_OFFSET <= index < entries.Length + PTID_OFFSET
      modifies entries
      ensures Linked(free)
      ensures forall e :: 0 <= e < entries.Length ==>
                entries[e].ptr == if e == index - PTID_OFFSET then Some(ptr) else old(entries[e].ptr)
    {
      entries[index - PTID_OFFSET] := entries[index - PTID_OFFSET].(ptr := Some(ptr));
    }

    /** A bigger array with the same entries. */
    method Resize(count: nat)
      requires Valid() && count == Grown(entries.Length)
      modifies this`entries, this`model
      ensures Valid() && fresh(entries) && model == old(model).(size := count)
    {
      GrownKeepsInv(model);
      var bigger := new Entry<T>[count];
      forall i | 0 <= i < entries.Length { bigger[i] := entries[i]; }
      entries := bigger;
      model := model.(size := count);
    }

    method FreePtid(id: nat)
      requires Valid() && id / 4 in model.live
      modifies this`nextFree, this`lastFree, this`numFree, this`model, entries
      ensures Valid() && model == FreeStep(old(model), IndexFromPtid(id))
      ensures id / 4 !in model.live && model.live == old(model).live - {id / 4}
    {
      var index := IndexFromPtid(id);
      FreeKeepsInv(model, index);
      assert InUse(model, index);
      Enqueue(index, model.free);
      model := FreeStep(model, index);
    }

    /** Clears an entry and appends it to the chain. */
    method Enqueue(index: nat, ghost free: seq<nat>)
      requires Linked(free) && index !in free
      requires PTID_OFFSET <= index < entries.Length + PTID_OFFSET
      requires forall i, j :: 0 <= i < j < |free| ==> free[i] != free[j]
      modifies this`nextFree, this`lastFree, this`numFree, entries
      ensures Linked(free + [index])
      ensures forall e :: 0 <= e < entries.Length ==>
                entries[e].ptr == if e == index - PTID_OFFSET then None else old(entries[e].ptr)
    {
      ghost var before := entries[..];
      Chained(free);
      hide Linked;
      entries[index - PTID_OFFSET] := Entry(None, 0);
      if lastFree != 0 {
        var e := lastFree - PTID_OFFSET;
        entries[e] := entries[e].(next := index);
      } else {
        nextFree := index;
      }
      lastFree := index;
      numFree := numFree + 1;
      LinkedMore(index, free, before);
    }

    ghost predicate Chain(free: seq<nat>, es: seq<Entry<T>>) {
      forall k {:trigger After(free, k)} :: 0 <= k < |free| ==>
        PTID_OFFSET <= free[k] < |es| + PTID_OFFSET && es[free[k] - PTID_OFFSET].next == After(free, k)
    }

    lemma Chained(free: seq<nat>)
      requires Linked(free)
      ensures Chain(free, entries[..]) && numFree == |free| && (lastFree != 0 <==> free != [])
      ensures free != [] ==> nextFree == free[0] && lastFree == free[|free| - 1] && lastFree in free
      ensures free != [] ==> PTID_OFFSET <= lastFree < entries.Length + PTID_OFFSET
    {
      forall k | 0 <= k < |free|
        ensures PTID_OFFSET <= free[k] < entries.Length + PTID_OFFSET
        ensures entries[..][free[k] - PTID_OFFSET].next == After(free, k)
      {
        assert entries[free[k] - PTID_OFFSET].next == After(free, k);
      }
    }

    lemma LinkedMore(index: nat, free: seq<nat>, before: seq<Entry<T>>)
      requires Chain(free, before) && index !in free && |before| == entries.Length
      requires PTID_OFFSET <= index < entries.Length + PTID_OFFSET
      requires forall i, j :: 0 <= i < j < |free| ==> free[i] != free[j]
      requires forall e :: 0 <= e < entries.Length ==>
                 entries[e].next == if free != [] && e == free[|free| - 1] - PTID_OFFSET then index
                                    else if e == index - PTID_OFFSET then 0 else before[e].next
      requires nextFree == (if free == [] then index else free[0]) && lastFree == index && numFree == |free| + 1
      ensures Linked(free + [index])
    {
      var longer := free + [index];
      forall k | 0 <= k < |longer|
        ensures PTID_OFFSET <= longer[k] < entries.Length + PTID_OFFSET
        ensures entries[longer[k] - PTID_OFFSET].next == After(longer, k)
      {
        if k < |free| {
          var next := After(free, k);
          assert before[free[k] - PTID_OFFSET].next == next;
          if k + 1 < |free| { assert free[k] != free[|free| - 1]; }
        }
      }
    }

    /** The owner of an id; ids with the same index share it. */
    method GetPtidEntry(id: nat) returns (ptr: Option<T>)
      requires Valid()
      ensures ptr == if id / 4 in model.live then Some(model.live[id / 4]) else None
    {
      var index := IndexFromPtid(id);
      assert index in model.live ==> InUse(model, index);
      if index < PTID_OFFSET { return None; }
      if index - PTID_OFFSET >= used { return None; }
      return entries[index - PTID_OFFSET].ptr;
    }
  }
}
