/** Shared-memory indices for fsync objects: a growing bitmap of free indices with a search hint, and in
    shared memory a cell for each index with a reference count and an owner's process id. Clients write
    to the cells too; the bitmap is the server's alone. */
module ShmIndex {
  import opened Common

  const WORD_BITS := 64
  const GROWTH := 256
  const PAGE_SIZE := 0x10000
  const CELL_SIZE := 16

  // ---- what the allocator means ------------------------------------------------------------

  datatype Cell = Cell(low: int, high: int, refs: int, pid: nat)

  const ZERO := Cell(0, 0, 0, 0)

  /** The indices in use, and all cells ever written: clients may write to any of them. */
  datatype State = State(used: set<nat>, cells: map<nat, Cell>) {
    function At(index: nat): Cell { if index in cells then cells[index] else ZERO }
  }

  /** The smallest index, after the reserved 0, that is not in use. */
  ghost predicate LeastUnused(used: set<nat>, index: nat) {
    0 < index && index !in used && forall x :: 0 < x < index ==> x in used
  }

  function AllocStep(s: State, index: nat, low: int, high: int): State {
    State(s.used + {index}, s.cells[index := Cell(low, high, 1, 0)])
  }

  function TouchStep(s: State, index: nat, cell: Cell): State { s.(cells := s.cells[index := cell]) }

  function AddStep(s: State, index: nat): State { TouchStep(s, index, s.At(index).(refs := s.At(index).refs + 1)) }

  /** Dropping one reference; the last one frees the index. */
  function DropStep(s: State, index: nat): State {
    var cell := s.At(index);
    if cell.refs <= 0 then s
    else TouchStep(if cell.refs == 1 then s.(used := s.used - {index}) else s, index, cell.(refs := cell.refs - 1))
  }

  /** The last reference to an index that is free already is dropped: the server asserts it is not. */
  predicate Aborts(s: State, index: nat) { index !in s.used && s.At(index).refs == 1 }

  /** An index that is freed when a process is gone: only the process still held it. */
  predicate Lost(s: State, index: nat, pid: nat) {
    index in s.used && s.At(index).refs == 1 && s.At(index).pid == pid
  }

  function CleanStep(s: State, pid: nat): State {
    State(set x | x in s.used && !Lost(s, x, pid),
          map x | x in s.cells :: if Lost(s, x, pid) then s.cells[x].(refs := 0) else s.cells[x])
  }

  // ---- runs --------------------------------------------------------------------------------

  datatype Op =
    | Alloc(index: nat, low: int, high: int)
    | Drop(index: nat)
    | Add(index: nat)
    | Clean(pid: nat)
    | Touch(index: nat, cell: Cell)

  ghost predicate Enabled(s: State, op: Op) {
    match op
    case Alloc(index, _, _) => LeastUnused(s.used, index)
    case Drop(index) => !Aborts(s, index)
    case _ => true
  }

  function Step(s: State, op: Op): State {
    match op
    case Alloc(index, low, high) => AllocStep(s, index, low, high)
    case Drop(index) => DropStep(s, index)
    case Add(index) => AddStep(s, index)
    case Clean(pid) => CleanStep(s, pid)
    case Touch(index, cell) => TouchStep(s, index, cell)
  }

  ghost predicate IsRun(ops: seq<Op>, states: seq<State>) {
    && |states| == |ops| + 1 && states[0] == State({}, map[])
    && forall i :: 0 <= i < |ops| ==> Enabled(states[i], ops[i]) && states[i + 1] == Step(states[i], ops[i])
  }

  /** A reference to an index is made while the index is free. */
  predicate Revives(s: State, op: Op, x: nat) {
    x !in s.used && match op
                    case Add(index) => index == x
                    case Touch(index, cell) => index == x && 0 < cell.refs
                    case _ => false
  }

  /** The assertion never fails for an index unless a reference to it was made while it was free. */
  lemma {:induction false} AbortsOnlyRevived(ops: seq<Op>, states: seq<State>, k: nat, x: nat)
    requires IsRun(ops, states) && k <= |ops| && Aborts(states[k], x)
    ensures exists i :: 0 <= i < k && Revives(states[i], ops[i], x)
  {
    if forall i :: 0 <= i < k ==> !Revives(states[i], ops[i], x) {
      for j := 0 to k
        invariant x in states[j].used || states[j].At(x).refs <= 0
      {
        RevivedOnly(states[j], ops[j], x);
      }
    }
  }

  lemma RevivedOnly(s: State, op: Op, x: nat)
    requires x in s.used || s.At(x).refs <= 0
    requires Enabled(s, op) && !Revives(s, op, x)
    ensures x in Step(s, op).used || Step(s, op).At(x).refs <= 0
  {
  }

  function DropTimes(s: State, x: nat, n: nat): State
    decreases n
  {
    if n == 0 then s else DropTimes(DropStep(s, x), x, n - 1)
  }

  predicate AbortsAfter(s: State, x: nat, n: nat) { Aborts(DropTimes(s, x, n), x) }

  /** Dropping references to an index again and again fails the assertion sooner or later exactly when the
      index is free and its cell counts a reference. */
  lemma {:induction false} DropsAbortIff(s: State, x: nat)
    ensures (exists n: nat :: AbortsAfter(s, x, n)) <==> x !in s.used && 0 < s.At(x).refs
  {
    if x !in s.used && 0 < s.At(x).refs {
      var n: nat := s.At(x).refs - 1;
      DropsReach(s, x, n);
      assert AbortsAfter(s, x, n);
    } else {
      forall n: nat ensures !AbortsAfter(s, x, n) { DropsSafe(s, x, n); }
    }
  }

  lemma {:induction false} DropsReach(s: State, x: nat, n: nat)
    requires x !in s.used && s.At(x).refs == n + 1
    ensures Aborts(DropTimes(s, x, n), x)
    decreases n
  {
    if n != 0 { DropsReach(DropStep(s, x), x, n - 1); }
  }

  lemma {:induction false} DropsSafe(s: State, x: nat, n: nat)
    requires x in s.used || s.At(x).refs <= 0
    ensures !Aborts(DropTimes(s, x, n), x)
    decreases n
  {
    if n != 0 { DropsSafe(DropStep(s, x), x, n - 1); }
  }

  /** The server's own requests get there: an index is allocated, freed by request, referenced again for
      the object that still has it, and freed with that object. */
  lemma SomeRunAborts() returns (ops: seq<Op>, states: seq<State>)
    ensures IsRun(ops, states) && Aborts(states[|ops|], 1)
    ensures ops == [Alloc(1, 0, 0), Drop(1), Add(1)]
  {
    var s0 := State({}, map[]);
    var s1 := AllocStep(s0, 1, 0, 0);
    var s2 := DropStep(s1, 1);
    ops, states := [Alloc(1, 0, 0), Drop(1), Add(1)], [s0, s1, s2, AddStep(s2, 1)];
  }

  // ---- words of the bitmap -----------------------------------------------------------------

  /** A 64-bit word by its set bits. */
  type Word = w: set<nat> | forall j :: j in w ==> j < WORD_BITS witness {}

  const FULL: Word := set j: nat | j < WORD_BITS

  /** Counting trailing zeros: the lowest set bit. */
  function Lowest(w: Word, from: nat := 0): (r: nat)
    requires w != {} && from < WORD_BITS && forall j :: j in w ==> from <= j
    ensures r in w && r < WORD_BITS && forall j :: j in w ==> r <= j
    decreases WORD_BITS - from
  {
    if from in w then from
    else
      assert from + 1 < WORD_BITS by { var j :| j in w; }
      Lowest(w, from + 1)
  }

  function Index(word: nat, bit: nat): nat { word * WORD_BITS + bit }

  lemma IndexOnce(word: nat, bit: nat)
    requires bit < WORD_BITS
    ensures Index(word, bit) == 0 <==> word == 0 && bit == 0
    ensures forall i: nat, j: nat :: j < WORD_BITS ==> (Index(i, j) == Index(word, bit) <==> i == word && j == bit)
    ensures forall n: nat :: word < n ==> Index(word, bit) < Index(n, 0)
  {
  }

  lemma IndexBelow(word: nat, bit: nat, n: nat)
    requires bit < WORD_BITS
    ensures Index(word, bit) < Index(n, 0) <==> word < n
  {
  }

  // ---- where the cells are -----------------------------------------------------------------

  /** A mapped page and an offset in it. */
  datatype Address = Address(page: nat, offset: nat)

  function CellAddress(index: nat): Address {
    Address((index * CELL_SIZE) / PAGE_SIZE, (index * CELL_SIZE) % PAGE_SIZE)
  }

  /** Different indices have different cells. */
  lemma CellsDiffer(a: nat, b: nat)
    ensures CellAddress(a) == CellAddress(b) ==> a == b
    ensures CellAddress(a).offset < 0x10000 && 0x10000 * CellAddress(a).page + CellAddress(a).offset == 16 * a
  {
  }

  /** The 64 cells of a word of the bitmap lie in one page, one after another, as the cleanup loop
      takes for granted. */
  lemma CellsOfWord(word: nat, bit: nat)
    requires bit < WORD_BITS
    ensures var base := CellAddress(Index(word, 0));
            CellAddress(Index(word, bit)) == Address(base.page, base.offset + bit * CELL_SIZE)
  {
    var x := word * WORD_BITS * CELL_SIZE;
    assert x == word * 1024;
    var q, r := word / 64, word % 64;
    assert x == q * PAGE_SIZE + r * 1024;
    assert x / PAGE_SIZE == q && x % PAGE_SIZE == r * 1024;
    assert (x + bit * CELL_SIZE) / PAGE_SIZE == q && (x + bit * CELL_SIZE) % PAGE_SIZE == r * 1024 + bit * CELL_SIZE;
  }

  lemma WholeCells(index: nat, size: nat)
    requires size % CELL_SIZE == 0 && index * CELL_SIZE < size
    ensures (index + 1) * CELL_SIZE <= size
  {
    assert size == (size / CELL_SIZE) * CELL_SIZE;
  }

  // ---- the allocator -----------------------------------------------------------------------

  class Allocator {
    var freeMap: array<Word>           // set bits are free indices
    var hint: nat                      // no word before this one has a free index
    var shmSize: nat
    var shm: map<Address, Cell>        // cells written so far; a page starts out as zeros

    ghost var model: State

    ghost predicate Valid()
      reads this, freeMap
    {
      Bits(model.used) && Hinted() && Cells()
    }

    /** A bit is set exactly when its index is not in use; the bit of index 0 never is. */
    ghost predicate Bits(used: set<nat>)
      reads this`freeMap, freeMap
    {
      && 0 < freeMap.Length
      && (forall i, j :: 0 <= i < freeMap.Length && 0 <= j < WORD_BITS ==>
           (j in freeMap[i] <==> Index(i, j) != 0 && Index(i, j) !in used))
      && (forall x :: x in used ==> 0 < x < Index(freeMap.Length, 0))
    }

    ghost predicate Hinted()
      reads this`freeMap, this`hint, freeMap
    {
      hint <= freeMap.Length && forall i :: 0 <= i < hint ==> freeMap[i] == {}
    }

    function Load(index: nat): Cell
      reads this`shm
    {
      var a := CellAddress(index);
      if a in shm then shm[a] else ZERO
    }

    /** The cells are those of the model, and those of indices in use lie in the shared file. */
    ghost predicate Cells()
      reads this`shm, this`shmSize, this`model
    {
      && (forall x: nat :: Load(x) == model.At(x))
      && (forall x :: x in model.used ==> (x + 1) * CELL_SIZE <= shmSize)
      && shmSize % CELL_SIZE == 0
    }

    method Store(index: nat, cell: Cell)
      modifies this`shm
      ensures forall x: nat :: Load(x) == if x == index then cell else old(Load(x))
    {
      var a := CellAddress(index);
      shm := shm[a := cell];
      forall x: nat ensures Load(x) == if x == index then cell else old(Load(x)) {
        CellsDiffer(x, index);
      }
    }

    constructor ()
      ensures Valid() && model == State({}, map[]) && fresh(freeMap)
    {
      freeMap := new Word[GROWTH](i => if i == 0 then FULL - {0} else FULL);
      hint := 0;
      shmSize := PAGE_SIZE;
      shm := map[];
      model := State({}, map[]);
    }

    /** Takes the lowest free index of a word, if there is one. */
    method AllocFromWord(word: nat) returns (index: nat)
      requires word < freeMap.Length
      modifies this`hint, freeMap
      ensures forall i :: 0 <= i < freeMap.Length && i != word ==> freeMap[i] == old(freeMap[i])
      ensures var w := old(freeMap[word]);
              if w == {} then index == 0 && freeMap[word] == w && hint == old(hint)
              else
                && index == Index(word, Lowest(w)) && freeMap[word] == w - {Lowest(w)}
                && hint == if freeMap[word] == {} then word + 1 else word
    {
      if freeMap[word] == {} { return 0; }
      var bit := Lowest(freeMap[word]);
      freeMap[word] := freeMap[word] - {bit};
      hint := if freeMap[word] == {} then word + 1 else word;
      return Index(word, bit);
    }

    /** Every index below this one is in use. */
    lemma AllBelow(used: set<nat>, word: nat, bit: nat)
      requires Bits(used) && word < freeMap.Length && bit <= WORD_BITS
      requires forall i :: 0 <= i < word ==> freeMap[i] == {}
      requires forall j :: 0 <= j < bit ==> j !in freeMap[word]
      ensures forall x :: 0 < x < Index(word, bit) ==> x in used
    {
      forall x | 0 < x < Index(word, bit) ensures x in used {
        var i, j := x / WORD_BITS, x % WORD_BITS;
        assert x == Index(i, j);
        assert j !in freeMap[i];
      }
    }

    /** One word of the search, all words before it being empty. */
    method TakeFrom(word: nat, ghost used: set<nat>) returns (index: nat)
      requires Bits(used) && Hinted() && word < freeMap.Length
      requires forall i :: 0 <= i < word ==> freeMap[i] == {}
      modifies this`hint, freeMap
      ensures Hinted()
      ensures if old(freeMap[word]) == {} then index == 0 && freeMap[..] == old(freeMap[..])
              else Bits(used + {index}) && 0 < index && index !in used && forall x :: 0 < x < index ==> x in used
    {
      hide Index;
      if freeMap[word] != {} {
        AllBelow(used, word, Lowest(freeMap[word]));
        IndexOnce(word, Lowest(freeMap[word]));
        assert Lowest(freeMap[word]) in freeMap[word];
      }
      index := AllocFromWord(word);
    }

    /** Searches from the hint on; 0 when every index is in use. */
    method Search(ghost used: set<nat>) returns (index: nat)
      requires Bits(used) && Hinted()
      modifies this`hint, freeMap
      ensures Hinted()
      ensures if index == 0 then
                && Bits(used) && (forall i :: 0 <= i < freeMap.Length ==> freeMap[i] == {})
                && forall x :: 0 < x < Index(freeMap.Length, 0) ==> x in used
              else Bits(used + {index}) && index !in used && forall x :: 0 < x < index ==> x in used
    {
      index := 0;
      var i := hint;
      ghost var words := freeMap[..];
      while i < freeMap.Length
        invariant i <= freeMap.Length && Bits(used) && Hinted() && freeMap[..] == words
        invariant forall k :: 0 <= k < i ==> freeMap[k] == {}
      {
        ghost var word := freeMap[i];
        index := TakeFrom(i, used);
        if index != 0 { return; }
        assert forall k :: 0 <= k < freeMap.Length ==> freeMap[k] == words[k];
        i := i + 1;
      }
      AllBelow(used, freeMap.Length - 1, WORD_BITS);
      index := 0;
    }

    method Grow(ghost used: set<nat>)
      requires Bits(used)
      modifies this`freeMap
      ensures fresh(freeMap) && freeMap.Length == old(freeMap.Length) + GROWTH
      ensures Bits(used) && freeMap[..old(freeMap.Length)] == old(freeMap[..])
      ensures freeMap[old(freeMap.Length)] == FULL
    {
      var bigger := new Word[freeMap.Length + GROWTH](_ => FULL);
      forall i | 0 <= i < freeMap.Length { bigger[i] := freeMap[i]; }
      freeMap := bigger;
    }

    /** A bigger map, and the first of its new indices. */
    method Extend(ghost used: set<nat>) returns (index: nat)
      requires Bits(used) && Hinted() && forall i :: 0 <= i < freeMap.Length ==> freeMap[i] == {}
      modifies this`freeMap, this`hint
      ensures fresh(freeMap) && Bits(used + {index}) && Hinted()
      ensures 0 < index && index !in used && forall x :: 0 < x < index ==> x in used
    {
      var oldSize := freeMap.Length;
      ghost var words := freeMap[..];
      Grow(used);
      assert forall i :: 0 <= i < oldSize ==> freeMap[i] == words[i];
      assert 0 in freeMap[oldSize];
      index := TakeFrom(oldSize, used);
    }

    /** Allocation hands out the least unused index, growing the map when there is none. */
    method AllocShm(low: int, high: int, memory: bool) returns (index: nat)
      requires Valid()
      modifies this, freeMap
      ensures Valid() && (freeMap == old(freeMap) || fresh(freeMap))
      ensures if index == 0 then
                !memory && model == old(model) && forall x :: 0 < x < 64 * freeMap.Length ==> x in model.used
              else
                && LeastUnused(old(model).used, index)
                && model == AllocStep(old(model), index, low, high) && model.used == old(model).used + {index}
                && index !in old(model).used && forall x :: 0 < x < index ==> x in old(model).used
      ensures forall x: nat :: Load(x) == if 0 < x == index then Cell(low, high, 1, 0) else old(Load(x))
    {
      hide Bits, Hinted, Cells, Load;
      index := Search(model.used);
      if index == 0 {
        if !memory { return; }
        index := Extend(model.used);
      }
      InitCell(index, low, high);
    }

    method InitCell(index: nat, low: int, high: int)
      requires Cells()
      modifies this`shm, this`shmSize, this`model
      ensures Cells() && model == AllocStep(old(model), index, low, high)
      ensures forall x: nat :: Load(x) == if x == index then Cell(low, high, 1, 0) else old(Load(x))
    {
      hide CellAddress, Load;
      while index * CELL_SIZE >= shmSize
        invariant Cells() && model == old(model) && shm == old(shm)
      {
        shmSize := shmSize + PAGE_SIZE;
      }
      WholeCells(index, shmSize);
      Store(index, Cell(low, high, 1, 0));
      model := AllocStep(model, index, low, high);
    }

    /** Dropping a reference; an index becomes free exactly when its last one goes. The assertions fail
        exactly when the number is no index, or is free and counts one reference. */
    method FreeShmIdx(index: nat) returns (abort: bool)
      requires Valid()
      modifies this`shm, this`hint, this`model, freeMap
      ensures Valid()
      ensures var known, cell := 0 < index < 64 * freeMap.Length, old(Load(index));
              && abort == (!known || (index !in old(model).used && cell.refs == 1))
              && model == (if known then DropStep(old(model), index) else old(model))
              && (model.used == if known && cell.refs == 1 then old(model).used - {index} else old(model).used)
              && forall x: nat :: Load(x) == if known && x == index && 0 < cell.refs then cell.(refs := cell.refs - 1)
                                             else old(Load(x))
    {
      if index == 0 || freeMap.Length * WORD_BITS <= index { return true; }
      var cell := Load(index);
      if cell.refs <= 0 { return false; }
      Drop(index, cell);
      if cell.refs - 1 != 0 { return false; }
      abort := ReturnBit(index, old(model).used);
    }

    /** The cell of an index gets one reference less. */
    method Drop(index: nat, cell: Cell)
      requires Cells() && cell == Load(index) && 0 < cell.refs
      modifies this`shm, this`model
      ensures Cells() && model == DropStep(old(model), index)
      ensures forall x: nat :: Load(x) == if x == index then cell.(refs := cell.refs - 1) else old(Load(x))
    {
      hide CellAddress;
      Store(index, cell.(refs := cell.refs - 1));
      model := DropStep(model, index);
    }

    /** The request to free an index checks that it is one, and nothing else. */
    method FreeRequest(index: nat) returns (ok: bool, abort: bool)
      requires Valid()
      modifies this`shm, this`hint, this`model, freeMap
      ensures Valid() && ok == (0 < index < 64 * freeMap.Length)
      ensures model == if ok then DropStep(old(model), index) else old(model)
      ensures abort == (ok && index !in old(model).used && old(Load(index)).refs == 1)
    {
      if index == 0 || index >= freeMap.Length * WORD_BITS { return false, false; }
      abort := FreeShmIdx(index);
      ok := true;
    }

    /** Marks an index as free, asserting that it is not. */
    method ReturnBit(index: nat, ghost used: set<nat>) returns (abort: bool)
      requires Bits(used) && Hinted() && 0 < index < Index(freeMap.Length, 0)
      modifies this`hint, freeMap
      ensures Bits(used - {index}) && Hinted() && abort == (index !in used)
    {
      var word, bit := index / WORD_BITS, index % WORD_BITS;
      assert Index(word, bit) == index;
      IndexOnce(word, bit);
      IndexBelow(word, bit, freeMap.Length);
      hide Index;
      if bit in freeMap[word] {
        assert used - {index} == used;
        return true;
      }
      freeMap[word] := freeMap[word] + {bit};
      if word < hint { hint := word; }
      abort := false;
    }

    // ---- what else happens to the cells ------------------------------------------------------

    /** A client writes what it likes to a cell. */
    method Touch(index: nat, cell: Cell)
      requires Valid()
      modifies this`shm, this`model
      ensures Valid() && model == TouchStep(old(model), index, cell)
      ensures forall x: nat :: Load(x) == if x == index then cell else old(Load(x))
    {
      hide CellAddress, Bits, Hinted;
      Store(index, cell);
      model := TouchStep(model, index, cell);
    }

    /** A client asks for the index of an object: one more reference, whether or not the index is in use. */
    method AddReference(index: nat)
      requires Valid()
      modifies this`shm, this`model
      ensures Valid() && model == AddStep(old(model), index) && model.used == old(model).used
      ensures forall x: nat :: Load(x) == if x == index then old(Load(x)).(refs := old(Load(x)).refs + 1)
                                          else old(Load(x))
    {
      var cell := Load(index);
      Touch(index, cell.(refs := cell.refs + 1));
    }

    // ---- cleanup -----------------------------------------------------------------------------

    /** What the cleanup has done when it has looked at every index below `upTo`. */
    ghost predicate CleanedBelow(before: State, pid: nat, upTo: nat)
      reads this`model
    {
      && model.cells.Keys == before.cells.Keys
      && forall x: nat :: var lost := x < upTo && Lost(before, x, pid);
                          && (x in model.used <==> x in before.used && !lost)
                          && model.At(x) == if lost then before.At(x).(refs := 0) else before.At(x)
    }

    /** After a process is gone: exactly the indices with one reference whose last holder it was are
        freed. They are in use, so the assertion does not fail. */
    method CleanupProcess(pid: nat)
      requires Valid()
      modifies this`shm, this`hint, this`model, freeMap
      ensures Valid() && model == CleanStep(old(model), pid)
      ensures forall x: nat :: var cell := old(Load(x));
                               var lost := x in old(model).used && cell.refs == 1 && cell.pid == pid;
                               && (x in model.used <==> x in old(model).used && !lost)
                               && Load(x) == if lost then cell.(refs := 0) else cell
    {
      ghost var before := model;
      var i := 0;
      while i < freeMap.Length
        invariant i <= freeMap.Length && Valid() && CleanedBelow(before, pid, Index(i, 0))
        invariant forall x :: x in before.used ==> x < Index(freeMap.Length, 0)
      {
        CleanupWord(i, pid, before);
        i := i + 1;
      }
      AllCleaned(before, pid);
    }

    lemma AllCleaned(before: State, pid: nat)
      requires CleanedBelow(before, pid, Index(freeMap.Length, 0))
      requires forall x :: x in before.used ==> x < Index(freeMap.Length, 0)
      ensures model == CleanStep(before, pid)
    {
      var s := CleanStep(before, pid);
      forall x: nat ensures (x in model.used <==> x in s.used) && model.At(x) == s.At(x) {}
      forall x | x in s.cells ensures model.cells[x] == s.cells[x] { assert model.At(x) == s.At(x); }
    }

    method CleanupWord(word: nat, pid: nat, ghost before: State)
      requires Valid() && word < freeMap.Length && CleanedBelow(before, pid, Index(word, 0))
      modifies this`shm, this`hint, this`model, freeMap
      ensures Valid() && CleanedBelow(before, pid, Index(word + 1, 0))
    {
      var freeWord := freeMap[word];
      if freeWord == FULL {
        NothingInUse(word);
        return;
      }
      var base := CellAddress(Index(word, 0));
      var j := if word == 0 then 1 else 0;
      assert forall k :: j <= k < WORD_BITS ==> (k in freeWord <==> Index(word, k) !in before.used);
      while j < WORD_BITS
        invariant j <= WORD_BITS && Valid() && CleanedBelow(before, pid, Index(word, j))
        invariant forall k :: j <= k < WORD_BITS ==> (k in freeWord <==> Index(word, k) !in before.used)
      {
        CellsOfWord(word, j);
        CleanupCell(Address(base.page, base.offset + j * CELL_SIZE), Index(word, j), j in freeWord, pid, before);
        j := j + 1;
      }
    }

    /** One cell of the cleanup loop, at the address the loop has worked out. */
    method CleanupCell(a: Address, index: nat, free: bool, pid: nat, ghost before: State)
      requires Valid() && 0 < index < Index(freeMap.Length, 0) && a == CellAddress(index)
      requires CleanedBelow(before, pid, index) && (free <==> index !in before.used)
      modifies this`shm, this`hint, this`model, freeMap
      ensures Valid() && CleanedBelow(before, pid, index + 1)
    {
      var cell := if a in shm then shm[a] else ZERO;
      assert cell == Load(index);
      if !free && cell.pid == pid && cell.refs == 1 {
        var abort := FreeShmIdx(index);
      }
    }

    lemma NothingInUse(word: nat)
      requires Bits(model.used) && word < freeMap.Length && freeMap[word] == FULL
      ensures forall x :: Index(word, 0) <= x < Index(word + 1, 0) ==> x !in model.used
    {
      forall x | Index(word, 0) <= x < Index(word + 1, 0) ensures x !in model.used {
        var bit := x - Index(word, 0);
        assert bit in freeMap[word] && x == Index(word, bit);
      }
    }

    /** Free and used indices and the reserved one account for the whole map. */
    lemma Conservation()
      requires Bits(model.used)
      ensures |FreeIndices()| + |model.used| + 1 == WORD_BITS * freeMap.Length
    {
      var n := WORD_BITS * freeMap.Length;
      InMap();
      forall x: nat | 0 < x < n ensures x in FreeIndices() <==> x !in model.used { FreeIff(x); }
      hide Bits, FreeIndices;
      ThreeParts(FreeIndices(), model.used, n);
    }

    lemma InMap()
      requires Bits(model.used)
      ensures forall x :: x in model.used ==> 0 < x < WORD_BITS * freeMap.Length
      ensures forall x :: x in FreeIndices() ==> 0 < x < WORD_BITS * freeMap.Length
      ensures 0 < freeMap.Length
    {
      assert Index(0, 0) == 0;
    }

    lemma FreeIff(x: nat)
      requires Bits(model.used) && 0 < x < WORD_BITS * freeMap.Length
      ensures x in FreeIndices() <==> x !in model.used
    {
      assert Index(x / WORD_BITS, x % WORD_BITS) == x;
      assert x % WORD_BITS in freeMap[x / WORD_BITS] <==> x !in model.used;
    }

    ghost function FreeIndices(): set<nat>
      reads this`freeMap, freeMap
    {
      set x: nat | x < WORD_BITS * freeMap.Length && x % WORD_BITS in freeMap[x / WORD_BITS]
    }
  }

  /** Two sets that share out the numbers below n but for 0. */
  lemma ThreeParts(a: set<nat>, b: set<nat>, n: nat)
    requires 0 < n && (forall x :: x in a || x in b ==> 0 < x < n)
    requires forall x: nat :: 0 < x < n ==> (x in a <==> x !in b)
    ensures |a| + |b| + 1 == n
  {
    RangeSize(0, n);
    hide Range;
    assert a !! b && 0 !in a + b;
    assert Range(0, n) == a + b + {0};
  }
}
