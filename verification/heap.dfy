/** The user heap: malloc and free of libc/malloc.c over the SYS_brk case of sys/syscall.c. */
module Heap {
  import opened Limits
  import opened Processes

  const TABLE: nat := 500
  const NODE0: Node := Node(0, 0, false)

  datatype Node = Node(size: nat, memPtr: nat, isFree: bool)

  /** libc's table, its heap_end (0 before the first call) and the end of the kernel's heap VMA. */
  datatype State = State(nodes: seq<Node>, index: nat, heapEnd: nat, kernelEnd: nat)

  /** NoReturn: memset runs past the heap VMA, and the process faults inside malloc. */
  datatype Outcome = Pointer(address: nat) | Null | NoReturn

  // ---------- the invariant ----------

  predicate InBlock(b: Node, address: nat) { b.memPtr <= address < b.memPtr + b.size }

  /** Entry `i` ends where entry `i + 1` begins, the last one at `end`. */
  predicate Joined(nodes: seq<Node>, index: nat, end: nat, i: nat)
    requires i < index <= |nodes|
  {
    nodes[i].size > 0 && nodes[i].memPtr + nodes[i].size == if i + 1 < index then nodes[i + 1].memPtr else end
  }

  predicate Chain(nodes: seq<Node>, index: nat, end: nat) {
    index <= |nodes| && forall i :: 0 <= i < index ==> Joined(nodes, index, end, i)
  }

  /** The first value of heap_end. */
  function First(h: State): nat {
    if 0 < h.index && |h.nodes| > 0 then h.nodes[0].memPtr else h.heapEnd
  }

  predicate Inv(h: State) {
    && |h.nodes| == TABLE && h.index <= TABLE
    && UHEAPSTART <= h.kernelEnd <= UHEAPLIMIT && h.kernelEnd % PAGE_SIZE == 0
    && (forall i :: h.index <= i < TABLE ==> h.nodes[i] == NODE0)
    && (h.heapEnd == 0 ==> h.index == 0)
    && (h.heapEnd != 0 ==> UHEAPSTART <= First(h) && h.heapEnd <= h.kernelEnd)
    && Chain(h.nodes, h.index, h.heapEnd)
  }

  /** Earlier entries lie below later ones, and all below the end. */
  lemma {:induction false} ChainOrder(nodes: seq<Node>, index: nat, end: nat, i: nat, j: nat)
    requires Chain(nodes, index, end) && i <= j < index
    ensures i < j ==> nodes[i].memPtr + nodes[i].size <= nodes[j].memPtr
    ensures nodes[i].memPtr + nodes[i].size <= end
    decreases index - i
  {
    assert Joined(nodes, index, end, i);
    if i < j {
      ChainOrder(nodes, index, end, i + 1, j);
    } else if i + 1 < index {
      ChainOrder(nodes, index, end, i + 1, i + 1);
    }
  }

  lemma {:induction false} ChainCovers(nodes: seq<Node>, index: nat, end: nat, i: nat, address: nat)
    requires Chain(nodes, index, end) && i < index && nodes[i].memPtr <= address < end
    ensures exists k :: i <= k < index && InBlock(nodes[k], address)
    decreases index - i
  {
    assert Joined(nodes, index, end, i);
    if InBlock(nodes[i], address) {
    } else {
      ChainCovers(nodes, index, end, i + 1, address);
    }
  }

  /** The entries partition the bytes from the first heap_end to the current one. */
  lemma EntriesPartition(h: State, address: nat)
    requires Inv(h)
    ensures First(h) <= address < h.heapEnd <==> exists i :: 0 <= i < h.index && InBlock(h.nodes[i], address)
    ensures forall i, j :: 0 <= i < j < h.index ==> !(InBlock(h.nodes[i], address) && InBlock(h.nodes[j], address))
  {
    if First(h) <= address < h.heapEnd {
      if h.index > 0 {
        ChainCovers(h.nodes, h.index, h.heapEnd, 0, address);
      }
    }
    forall i, j | 0 <= i <= j < h.index
      ensures i < j ==> !(InBlock(h.nodes[i], address) && InBlock(h.nodes[j], address))
      ensures InBlock(h.nodes[i], address) ==> First(h) <= address < h.heapEnd
    {
      ChainOrder(h.nodes, h.index, h.heapEnd, i, j);
      ChainOrder(h.nodes, h.index, h.heapEnd, 0, i);
    }
  }

  /** No block is larger than the heap, so the search's starting value 100000000 is above them all. */
  lemma BlocksFit(h: State, i: nat)
    requires Inv(h) && i < TABLE
    ensures h.nodes[i].size <= 0x10_0000
    ensures i < h.index ==> h.nodes[i].memPtr >= First(h) >= UHEAPSTART && h.heapEnd != 0
    ensures i < h.index ==> h.nodes[i].memPtr + h.nodes[i].size <= h.heapEnd
  {
    if i < h.index {
      ChainOrder(h.nodes, h.index, h.heapEnd, 0, i);
      ChainOrder(h.nodes, h.index, h.heapEnd, i, i);
    }
  }

  // ---------- what the operations do ----------

  predicate Fits(nodes: seq<Node>, size: nat, i: int) {
    0 <= i < |nodes| && nodes[i].isFree && nodes[i].size >= size
  }

  /** The free block of least sufficient size, the lowest one among equals. */
  ghost predicate IsBest(nodes: seq<Node>, size: nat, b: int) {
    && Fits(nodes, size, b)
    && forall i :: Fits(nodes, size, i) ==> nodes[b].size < nodes[i].size || (nodes[b].size == nodes[i].size && b <= i)
  }

  lemma SomeFitsIff(nodes: seq<Node>, size: nat)
    ensures SomeFits(nodes, size) <==> exists i :: 0 <= i < |nodes| && nodes[i].isFree && nodes[i].size >= size
  {
    if i :| 0 <= i < |nodes| && nodes[i].isFree && nodes[i].size >= size {
      assert Fits(nodes, size, i);
    }
  }

  function Zeroed(memory: map<nat, nat>, p: nat, size: nat): map<nat, nat> {
    if size == 0 then memory else Zeroed(memory, p, size - 1)[p + size - 1 := 0]
  }

  lemma {:induction false} ZeroedAt(memory: map<nat, nat>, p: nat, size: nat, a: nat)
    ensures a in Zeroed(memory, p, size) <==> a in memory || p <= a < p + size
    ensures p <= a < p + size ==> Zeroed(memory, p, size)[a] == 0
    ensures a in memory && !(p <= a < p + size) ==> Zeroed(memory, p, size)[a] == memory[a]
    decreases size
  {
    if size > 0 {
      ZeroedAt(memory, p, size - 1, a);
    }
  }

  ghost predicate SomeFits(nodes: seq<Node>, size: nat) { exists i :: Fits(nodes, size, i) }

  /** Where the heap ends for malloc: the kernel's value on the first call. */
  function Top(h: State): nat { if h.heapEnd == 0 then h.kernelEnd else h.heapEnd }

  /** The sum that malloc hands to brk. */
  function NewTop(h: State, size: nat): nat { (Top(h) + size) % TWO64 }

  function BrkEnd(kernelEnd: nat, top: nat): nat {
    if top > kernelEnd then AlignUp(top) else kernelEnd
  }

  predicate InRange(top: nat) { UHEAPSTART <= top <= UHEAPLIMIT }

  ghost predicate Reused(h: State, size: nat, h': State, out: Outcome) {
    exists b :: IsBest(h.nodes, size, b) && out == Pointer(h.nodes[b].memPtr)
             && h' == h.(nodes := h.nodes[b := h.nodes[b].(isFree := false)])
  }

  /** A new block on top of the heap. */
  function Extended(h: State, size: nat): State
    requires h.index < |h.nodes|
  {
    var top := Top(h) + size;
    State(h.nodes[h.index := Node(size, Top(h), false)], h.index + 1, top, BrkEnd(h.kernelEnd, top))
  }

  ghost predicate Grew(h: State, size: nat, h': State, out: Outcome) {
    if !InRange(NewTop(h, size)) then out == Null && h' == h.(heapEnd := Top(h))
    else if Top(h) + size >= TWO64 then out == NoReturn && h' == h.(heapEnd := NewTop(h, size))
    else
      && out == Pointer(Top(h)) && h.index < |h.nodes|
      && h' == Extended(h, size)
  }

  ghost predicate Malloc(h: State, size: nat, h': State, out: Outcome) {
    if SomeFits(h.nodes, size) then Reused(h, size, h', out) else Grew(h, size, h', out)
  }

  predicate Freed(h: State, p: nat, h': State) {
    && h' == h.(nodes := h'.nodes) && |h'.nodes| == |h.nodes|
    && forall i :: 0 <= i < |h.nodes| ==>
         h'.nodes[i] == if p != 0 && h.nodes[i].memPtr == p then h.nodes[i].(isFree := true) else h.nodes[i]
  }

  // ---------- the code ----------

  class UserHeap {
    const nodes: array<Node>
    var index: nat
    var heapEnd: nat
    var kernelEnd: nat
    /** The bytes of user memory. */
    var memory: map<nat, nat>

    ghost function S(): State
      reads this, nodes
    {
      State(nodes[..], index, heapEnd, kernelEnd)
    }

    constructor ()
      ensures Inv(S()) && fresh(nodes) && heapEnd == 0 && kernelEnd == UHEAPSTART
    {
      nodes := new Node[TABLE](_ => NODE0);
      index, heapEnd, kernelEnd, memory := 0, 0, UHEAPSTART, map[];
    }

    /** memset to zero. */
    method Clear(p: nat, size: nat)
      modifies this`memory
      ensures memory == Zeroed(old(memory), p, size)
    {
      var n := 0;
      while n < size
        invariant 0 <= n <= size && memory == Zeroed(old(memory), p, n)
      {
        memory := memory[p + n := 0];
        n := n + 1;
      }
    }

    /** SYS_brk. */
    method Brk(top: nat) returns (r: nat)
      requires Inv(S()) && top < TWO64
      modifies this`kernelEnd
      ensures top == 0 ==> r == kernelEnd && kernelEnd == old(kernelEnd)
      ensures top != 0 && !InRange(top) ==> r == TWO64 - 1 && kernelEnd == old(kernelEnd)
      ensures top != 0 && InRange(top) ==> r == 0 && kernelEnd == BrkEnd(old(kernelEnd), top) && kernelEnd >= top
      ensures r == 0 <==> UHEAPSTART <= top <= UHEAPLIMIT
      ensures top <= old(kernelEnd) ==> kernelEnd == old(kernelEnd)
      ensures r == 0 && top > old(kernelEnd) ==> kernelEnd % 4096 == 0 && top <= kernelEnd < top + 4096
      ensures Inv(S()) && kernelEnd >= old(kernelEnd)
    {
      r := 0;
      if top == 0 {
        r := kernelEnd;
      } else if top > UHEAPLIMIT || top < UHEAPSTART {
        r := TWO64 - 1;
      } else if top > kernelEnd {
        AlignedInRange(top);
        kernelEnd := AlignUp(top);
      }
    }

    /** The search loop of malloc. */
    method Search(size: nat) returns (found: bool, bestIndex: nat)
      requires Inv(S())
      ensures found == SomeFits(nodes[..], size)
      ensures found ==> IsBest(nodes[..], size, bestIndex)
      ensures found <==> exists i :: 0 <= i < nodes.Length && nodes[i].isFree && nodes[i].size >= size
      ensures found ==> bestIndex < nodes.Length && nodes[bestIndex].isFree && nodes[bestIndex].size >= size
      ensures found ==> forall i :: 0 <= i < nodes.Length && nodes[i].isFree && nodes[i].size >= size ==>
        nodes[bestIndex].size < nodes[i].size || (nodes[bestIndex].size == nodes[i].size && bestIndex <= i)
    {
      var bestFit := 100000000;
      found, bestIndex := false, 0;
      ghost var h := S();
      var i := 0;
      while i < nodes.Length
        invariant 0 <= i <= TABLE
        invariant found <==> exists k :: 0 <= k < i && Fits(h.nodes, size, k)
        invariant !found ==> bestFit == 100000000
        invariant found ==> bestIndex < i && Fits(h.nodes, size, bestIndex) && bestFit == h.nodes[bestIndex].size
        invariant found ==> forall k :: 0 <= k < i && Fits(h.nodes, size, k) ==>
          bestFit < h.nodes[k].size || (bestFit == h.nodes[k].size && bestIndex <= k)
      {
        BlocksFit(h, i);
        if nodes[i].isFree && nodes[i].size >= size {
          assert Fits(h.nodes, size, i);
          found := true;
          if nodes[i].size < bestFit {
            bestFit, bestIndex := nodes[i].size, i;
          }
        }
        i := i + 1;
      }
      SomeFitsIff(h.nodes, size);
    }

    /** The branch of malloc that takes new space on top of the heap. */
    method Extend(size: nat) returns (out: Outcome)
      requires Inv(S()) && 0 < size < TWO64 && index < TABLE
      modifies this, nodes
      ensures Grew(old(S()), size, S(), out)
      ensures old(kernelEnd) <= kernelEnd <= UHEAPLIMIT
      ensures out != NoReturn ==> Inv(S())
      ensures out == Null ==> memory == old(memory)
      ensures out.Pointer? ==> memory == Zeroed(old(memory), out.address, size)
    {
      hide Inv, Zeroed, BrkEnd, AlignUp;
      ghost var h := S();
      EndInRange(h);
      if heapEnd == 0 {
        heapEnd := Brk(0);
      }
      var temp := heapEnd;
      assert S() == h.(heapEnd := Top(h));
      StartKept(h, S());
      var top := (heapEnd + size) % TWO64;
      var status := Brk(top);
      EndInRange(S());
      if status != 0 {
        return Null;
      }
      heapEnd := top;
      if temp + size > kernelEnd {
        return NoReturn;
      }
      Clear(temp, size);
      nodes[index] := Node(size, temp, false);
      index := index + 1;
      assert S().nodes == h.nodes[h.index := Node(size, Top(h), false)];
      GrewKeeps(h, size, S());
      return Pointer(temp);
    }

    /** malloc. The table is not checked for room by the source. */
    method Allocate(size: nat) returns (out: Outcome)
      requires Inv(S()) && 0 < size < TWO64 && (index < TABLE || SomeFits(nodes[..], size))
      modifies this, nodes
      ensures Malloc(old(S()), size, S(), out)
      ensures var h := old(S());
        if exists i :: 0 <= i < |h.nodes| && h.nodes[i].isFree && h.nodes[i].size >= size then
          exists b :: 0 <= b < |h.nodes| && h.nodes[b].isFree && h.nodes[b].size >= size
            && out == Pointer(h.nodes[b].memPtr) && S() == h.(nodes := h.nodes[b := h.nodes[b].(isFree := false)])
            && forall i :: 0 <= i < |h.nodes| && h.nodes[i].isFree && h.nodes[i].size >= size ==>
                 h.nodes[b].size <= h.nodes[i].size
        else index == h.index + if out.Pointer? then 1 else 0
      ensures old(kernelEnd) <= kernelEnd <= UHEAPLIMIT
      ensures out != NoReturn ==> Inv(S())
      ensures out == Null ==> memory == old(memory)
      ensures out.Pointer? ==> memory == Zeroed(old(memory), out.address, size)
    {
      hide Inv, Grew, Zeroed;
      ghost var h := S();
      EndInRange(h);
      var flag, bestIndex := Search(size);
      if !flag {
        out := Extend(size);
        GrewIndex(h, size, S(), out);
        return;
      }
      var best := nodes[bestIndex];
      nodes[bestIndex] := best.(isFree := false);
      assert S() == h.(nodes := h.nodes[bestIndex := h.nodes[bestIndex].(isFree := false)]);
      ReuseKeeps(h, bestIndex, S());
      Clear(best.memPtr, size);
      return Pointer(best.memPtr);
    }

    /** free. */
    method Free(p: nat)
      requires Inv(S())
      modifies nodes
      ensures Freed(old(S()), p, S()) && Inv(S())
    {
      if p == 0 {
        return;
      }
      ghost var h := S();
      var i := 0;
      while i < nodes.Length
        invariant 0 <= i <= TABLE
        invariant forall k :: i <= k < TABLE ==> nodes[k] == h.nodes[k]
        invariant forall k :: 0 <= k < i ==>
          nodes[k] == if h.nodes[k].memPtr == p then h.nodes[k].(isFree := true) else h.nodes[k]
      {
        if nodes[i].memPtr == p {
          nodes[i] := nodes[i].(isFree := true);
        }
        i := i + 1;
      }
      FlagsKeep(h, S());
    }
  }

  lemma AlignedInRange(top: nat)
    requires InRange(top)
    ensures InRange(AlignUp(top)) && AlignUp(top) % PAGE_SIZE == 0 && top <= AlignUp(top) < top + PAGE_SIZE
  {
    assert UHEAPLIMIT == PAGE_SIZE * 0xF_FFFF_F7F7_FEFC;
  }

  lemma EndInRange(h: State)
    requires Inv(h)
    ensures |h.nodes| == TABLE && h.index <= TABLE && UHEAPSTART <= Top(h) <= h.kernelEnd <= UHEAPLIMIT
  {
    if h.index > 0 {
      BlocksFit(h, h.index - 1);
    }
  }

  lemma ReuseKeeps(h: State, b: nat, h': State)
    requires Inv(h) && b < TABLE && h.nodes[b].isFree && h' == h.(nodes := h.nodes[b := h.nodes[b].(isFree := false)])
    ensures Inv(h')
  {
    FlagsKeep(h, h');
  }

  lemma StartKept(h: State, h': State)
    requires Inv(h) && h' == h.(heapEnd := Top(h))
    ensures Inv(h')
  {
  }

  /** Only the flags of used blocks differ. */
  lemma FlagsKeep(h: State, h': State)
    requires Inv(h) && h' == h.(nodes := h'.nodes) && |h'.nodes| == TABLE
    requires forall i :: 0 <= i < TABLE ==>
      h'.nodes[i].size == h.nodes[i].size && h'.nodes[i].memPtr == h.nodes[i].memPtr
      && (h.nodes[i] == NODE0 ==> h'.nodes[i] == NODE0)
    ensures Inv(h')
  {
    forall i | 0 <= i < h.index ensures Joined(h'.nodes, h.index, h.heapEnd, i) {
      assert Joined(h.nodes, h.index, h.heapEnd, i);
    }
  }

  /** A new block at the top. */
  lemma GrewKeeps(h: State, size: nat, h': State)
    requires Inv(h) && size > 0 && h.index < TABLE && Top(h) + size <= UHEAPLIMIT
    requires h' == Extended(h, size)
    ensures Inv(h')
  {
    EndInRange(h);
    AlignedInRange(Top(h) + size);
    forall i | 0 <= i < h'.index ensures Joined(h'.nodes, h'.index, h'.heapEnd, i) {
      if i < h.index {
        assert Joined(h.nodes, h.index, h.heapEnd, i);
      }
    }
  }

  lemma GrewIndex(h: State, size: nat, h': State, out: Outcome)
    requires Grew(h, size, h', out)
    ensures h'.index == h.index + if out.Pointer? then 1 else 0
  {
  }

  // ---------- when malloc reuses a block ----------

  /** malloc hands out a free block exactly when one is large enough: the smallest such block, and neither the table
      nor the heap grows. Otherwise it makes a new entry or returns no pointer. */
  lemma ReusesIff(h: State, size: nat, h': State, out: Outcome)
    requires Inv(h) && 0 < size < TWO64 && Malloc(h, size, h', out)
    ensures (exists i :: 0 <= i < |h.nodes| && h.nodes[i].isFree && h.nodes[i].size >= size) <==>
      out.Pointer? && h'.index == h.index
    ensures out.Pointer? && h'.index == h.index ==> h'.heapEnd == h.heapEnd && h'.kernelEnd == h.kernelEnd
    ensures out.Pointer? && h'.index == h.index ==>
      exists b :: 0 <= b < h.index && h.nodes[b].isFree && h.nodes[b].size >= size
           && out == Pointer(h.nodes[b].memPtr) && h'.nodes == h.nodes[b := h.nodes[b].(isFree := false)]
           && forall i :: 0 <= i < |h.nodes| && h.nodes[i].isFree && h.nodes[i].size >= size ==>
                h.nodes[b].size <= h.nodes[i].size
    ensures out.Pointer? && h'.index != h.index ==>
      h'.index == h.index + 1 && h'.nodes == h.nodes[h.index := Node(size, out.address, false)]
      && h'.heapEnd == out.address + size
  {
    SomeFitsIff(h.nodes, size);
    if SomeFits(h.nodes, size) {
      var b :| IsBest(h.nodes, size, b) && out == Pointer(h.nodes[b].memPtr)
        && h' == h.(nodes := h.nodes[b := h.nodes[b].(isFree := false)]);
      assert h.nodes[b] != NODE0;
      assert forall i :: 0 <= i < |h.nodes| && h.nodes[i].isFree && h.nodes[i].size >= size ==> Fits(h.nodes, size, i);
    }
  }

  /** A block that was freed is handed out again for its size, or less, when no other block is free. */
  lemma FreedIsReused(h: State, p: nat, h1: State, size: nat, h2: State, out: Outcome, b: nat)
    requires Inv(h) && b < h.index && h.nodes[b].memPtr == p && forall i :: 0 <= i < h.index ==> !h.nodes[i].isFree
    requires Freed(h, p, h1) && 0 < size <= h.nodes[b].size && Malloc(h1, size, h2, out)
    ensures out == Pointer(p) && h2 == h
  {
    FreeKeeps(h, p, h1);
    BlocksFit(h, b);
    assert h1.nodes[b].isFree && h1.nodes[b].size >= size;
    ReusesIff(h1, size, h2, out);
    forall i | 0 <= i < |h.nodes| && i != b ensures h1.nodes[i] == h.nodes[i] {
      if i < h.index && h.nodes[i].memPtr == p {
        AddressesDiffer(h, i, b);
      }
    }
    assert h2.nodes == h.nodes;
  }

  // ---------- when malloc fails ----------

  /** malloc returns NULL exactly when no free block fits and the grown heap would pass the limit, and
      faults exactly when the sum wraps around into the heap. Otherwise it returns a block. */
  lemma OutcomeIff(h: State, size: nat, h': State, out: Outcome)
    requires Inv(h) && 0 < size < TWO64 && Malloc(h, size, h', out)
    ensures var top := if h.heapEnd == 0 then h.kernelEnd else h.heapEnd;
      var full := forall i :: 0 <= i < |h.nodes| && h.nodes[i].isFree ==> h.nodes[i].size < size;
      && (out == Null <==> full && UHEAPLIMIT - top < size < TWO64 - (top - UHEAPSTART))
      && (out == NoReturn <==> full && size >= TWO64 - (top - UHEAPSTART))
      && (out == NoReturn ==> UHEAPSTART <= h'.heapEnd < top <= h'.kernelEnd == h.kernelEnd)
  {
    SomeFitsIff(h.nodes, size);
    hide Inv, SomeFits, IsBest;
    EndInRange(h);
  }

  /** The invariant is kept unless the process faulted. */
  lemma MallocKeeps(h: State, size: nat, h': State, out: Outcome)
    requires Inv(h) && 0 < size < TWO64 && Malloc(h, size, h', out) && out != NoReturn
    ensures Inv(h') && h'.kernelEnd >= h.kernelEnd
  {
    if SomeFits(h.nodes, size) {
      var b :| IsBest(h.nodes, size, b) && out == Pointer(h.nodes[b].memPtr)
             && h' == h.(nodes := h.nodes[b := h.nodes[b].(isFree := false)]);
      ReuseKeeps(h, b, h');
    } else {
      hide Inv, SomeFits;
      EndInRange(h);
      if out == Null {
        StartKept(h, h');
      } else {
        GrewKeeps(h, size, h');
      }
    }
  }

  lemma FreeKeeps(h: State, p: nat, h': State)
    requires Inv(h) && Freed(h, p, h')
    ensures Inv(h')
  {
    FlagsKeep(h, h');
  }

  // ---------- runs ----------

  /** What a program does to its heap; Raise is a brk of its own, such as sbrk's. */
  datatype Call = MallocCall(size: nat, out: Outcome) | FreeCall(p: nat) | Raise(top: nat)

  /** The blocks the program holds: address to the size it asked for. */
  type Live = map<nat, nat>

  ghost predicate CallStep(h: State, live: Live, call: Call, h': State, live': Live) {
    match call
    case MallocCall(size, out) =>
      && 0 < size < TWO64 && Malloc(h, size, h', out)
      && live' == (match out case Pointer(p) => live[p := size] case _ => live)
    case FreeCall(p) => Freed(h, p, h') && live' == live - {p}
    case Raise(top) => InRange(top) && h' == h.(kernelEnd := BrkEnd(h.kernelEnd, top)) && live' == live
  }

  /** Entry `i` is the block at `p`. */
  predicate Holds(h: State, i: int, p: nat, size: nat) {
    0 <= i < h.index <= |h.nodes| && h.nodes[i].memPtr == p && !h.nodes[i].isFree && 0 < size <= h.nodes[i].size
  }

  ghost predicate LiveOk(h: State, live: Live) {
    && Inv(h)
    && (forall p :: p in live ==> exists i :: Holds(h, i, p, live[p]))
    && (forall i :: 0 <= i < h.index && !h.nodes[i].isFree ==> h.nodes[i].memPtr in live)
  }

  /** Blocks the program holds do not overlap and lie in the part of the heap that the kernel has granted. */
  lemma LiveDisjoint(h: State, live: Live, p: nat, q: nat)
    requires LiveOk(h, live) && p in live && q in live
    ensures UHEAPSTART <= p < p + live[p] <= h.heapEnd <= h.kernelEnd <= UHEAPLIMIT
    ensures p != q ==> p + live[p] <= q || q + live[q] <= p
  {
    var i :| Holds(h, i, p, live[p]);
    var j :| Holds(h, j, q, live[q]);
    BlocksFit(h, i);
    hide Inv;
    InvChain(h);
    hide Chain;
    if i < j {
      ChainOrder(h.nodes, h.index, h.heapEnd, i, j);
    } else if j < i {
      ChainOrder(h.nodes, h.index, h.heapEnd, j, i);
    }
  }

  lemma InvChain(h: State)
    requires Inv(h)
    ensures Chain(h.nodes, h.index, h.heapEnd) && h.index <= TABLE == |h.nodes| &&
      h.heapEnd <= h.kernelEnd <= UHEAPLIMIT
  {
  }

  /** Different entries have different addresses. */
  lemma AddressesDiffer(h: State, i: nat, j: nat)
    requires Inv(h) && i < h.index && j < h.index && h.nodes[i].memPtr == h.nodes[j].memPtr
    ensures i == j
  {
    assert Joined(h.nodes, h.index, h.heapEnd, i) && Joined(h.nodes, h.index, h.heapEnd, j);
    if i < j {
      ChainOrder(h.nodes, h.index, h.heapEnd, i, j);
    } else {
      ChainOrder(h.nodes, h.index, h.heapEnd, j, i);
    }
  }

  /** A returned block is one the program did not hold. */
  lemma PointerIsNew(h: State, live: Live, size: nat, h': State, p: nat)
    requires LiveOk(h, live) && 0 < size < TWO64 && Malloc(h, size, h', Pointer(p))
    ensures p !in live
  {
    if p in live {
      var i :| Holds(h, i, p, live[p]);
      if SomeFits(h.nodes, size) {
        var b :| IsBest(h.nodes, size, b) && p == h.nodes[b].memPtr;
        assert h.nodes[b] != NODE0;
        AddressesDiffer(h, i, b);
      } else {
        BlocksFit(h, i);
        assert false;
      }
    }
  }

  /** malloc leaves the bytes of the blocks in use alone. */
  lemma OthersKeepBytes(h: State, live: Live, size: nat, h': State, p: nat, q: nat, memory: map<nat, nat>, a: nat)
    requires LiveOk(h, live) && 0 < size < TWO64 && Malloc(h, size, h', Pointer(p)) && q in live && q <= a < q + live[q]
    ensures a in Zeroed(memory, p, size) <==> a in memory
    ensures a in memory ==> Zeroed(memory, p, size)[a] == memory[a]
  {
    PointerIsNew(h, live, size, h', p);
    MallocLive(h, live, size, h', Pointer(p), live[p := size]);
    LiveDisjoint(h', live[p := size], p, q);
    ZeroedAt(memory, p, size, a);
  }

  lemma MallocLive(h: State, live: Live, size: nat, h': State, out: Outcome, live': Live)
    requires LiveOk(h, live) && CallStep(h, live, MallocCall(size, out), h', live') && out.Pointer?
    ensures LiveOk(h', live')
  {
    MallocKeeps(h, size, h', out);
    PointerIsNew(h, live, size, h', out.address);
    var p := out.address;
    if SomeFits(h.nodes, size) {
      var b :| IsBest(h.nodes, size, b) && p == h.nodes[b].memPtr &&
        h' == h.(nodes := h.nodes[b := h.nodes[b].(isFree := false)]);
      assert h.nodes[b] != NODE0;
      ReusedLive(h, live, b, size, h', live');
    } else {
      EndInRange(h);
      GrownLive(h, live, size, h', live');
    }
  }

  lemma ReusedLive(h: State, live: Live, b: nat, size: nat, h': State, live': Live)
    requires LiveOk(h, live) && Inv(h') && b < h.index && h.nodes[b].isFree && h.nodes[b].size >= size > 0
    requires h' == h.(nodes := h.nodes[b := h.nodes[b].(isFree := false)])
    requires live' == live[h.nodes[b].memPtr := size] && h.nodes[b].memPtr !in live
    ensures LiveOk(h', live')
  {
    hide Inv;
    InvChain(h);
    assert Holds(h', b, h.nodes[b].memPtr, size);
    forall p | p in live ensures exists i :: Holds(h', i, p, live[p]) {
      var i :| Holds(h, i, p, live[p]);
      assert Holds(h', i, p, live[p]);
    }
  }

  lemma GrownLive(h: State, live: Live, size: nat, h': State, live': Live)
    requires LiveOk(h, live) && Inv(h') && size > 0 && h.index < |h.nodes|
    requires h'.nodes == h.nodes[h.index := Node(size, Top(h), false)] && h'.index == h.index + 1
    requires live' == live[Top(h) := size] && Top(h) !in live
    ensures LiveOk(h', live')
  {
    hide Inv;
    assert Holds(h', h.index, Top(h), size);
    forall p | p in live ensures exists i :: Holds(h', i, p, live[p]) {
      var i :| Holds(h, i, p, live[p]);
      assert Holds(h', i, p, live[p]);
    }
  }

  lemma FreeLive(h: State, live: Live, p: nat, h': State, live': Live)
    requires LiveOk(h, live) && Freed(h, p, h') && live' == live - {p}
    ensures LiveOk(h', live')
  {
    FreeKeeps(h, p, h');
    hide Inv;
    InvChain(h);
    ZeroIsNoBlock(h, live);
    forall q | q in live' ensures exists i :: Holds(h', i, q, live'[q]) {
      var i :| Holds(h, i, q, live[q]);
      assert Holds(h', i, q, live'[q]);
    }
  }

  lemma ZeroIsNoBlock(h: State, live: Live)
    requires LiveOk(h, live)
    ensures 0 !in live
    ensures forall i :: 0 <= i < h.index ==> h.nodes[i].memPtr != 0
  {
    forall i: nat | i < h.index ensures h.nodes[i].memPtr != 0 {
      BlocksFit(h, i);
    }
  }

  lemma RaiseKeeps(h: State, live: Live, top: nat, h': State)
    requires LiveOk(h, live) && InRange(top) && h' == h.(kernelEnd := BrkEnd(h.kernelEnd, top))
    ensures LiveOk(h', live) && h'.kernelEnd >= h.kernelEnd
  {
    AlignedInRange(top);
    forall p | p in live ensures exists i :: Holds(h', i, p, live[p]) {
      var i :| Holds(h, i, p, live[p]);
      assert Holds(h', i, p, live[p]);
    }
  }

  lemma StepKeeps(h: State, live: Live, call: Call, h': State, live': Live)
    requires LiveOk(h, live) && CallStep(h, live, call, h', live')
    requires call.MallocCall? ==> call.out != NoReturn
    ensures LiveOk(h', live') && h'.kernelEnd >= h.kernelEnd
  {
    match call
    case MallocCall(size, out) =>
      MallocKeeps(h, size, h', out);
      if out.Pointer? {
        MallocLive(h, live, size, h', out, live');
      } else {
        StillLive(h, live, size, h');
      }
    case FreeCall(p) =>
      FreeLive(h, live, p, h', live');
    case Raise(top) =>
      RaiseKeeps(h, live, top, h');
  }

  lemma StillLive(h: State, live: Live, size: nat, h': State)
    requires LiveOk(h, live) && 0 < size < TWO64 && Malloc(h, size, h', Null)
    ensures LiveOk(h', live)
  {
    StartKept(h, h');
    forall p | p in live ensures exists i :: Holds(h', i, p, live[p]) {
      var i :| Holds(h, i, p, live[p]);
      assert Holds(h', i, p, live[p]);
    }
  }

  ghost predicate Start(h: State, live: Live) {
    Inv(h) && h.heapEnd == 0 && live == map[]
  }

  /** A run in which no call of malloc faulted. */
  ghost predicate IsRun(hs: seq<State>, lives: seq<Live>, calls: seq<Call>) {
    && |hs| == |lives| == |calls| + 1 && Start(hs[0], lives[0])
    && forall i :: 0 <= i < |calls| ==>
         CallStep(hs[i], lives[i], calls[i], hs[i + 1], lives[i + 1]) && (calls[i].MallocCall? ==>
           calls[i].out != NoReturn)
  }

  /** Over every run the table partitions the heap, the blocks in use are those the program holds,
      and the kernel's end of the heap never moves down. */
  lemma {:induction false} RunKeeps(hs: seq<State>, lives: seq<Live>, calls: seq<Call>, i: nat)
    requires IsRun(hs, lives, calls) && i <= |calls|
    ensures LiveOk(hs[i], lives[i]) && hs[i].kernelEnd >= hs[0].kernelEnd
    ensures i > 0 ==> hs[i].kernelEnd >= hs[i - 1].kernelEnd
  {
    if i > 0 {
      RunKeeps(hs, lives, calls, i - 1);
      hide LiveOk, CallStep;
      var j := i - 1;
      assert CallStep(hs[j], lives[j], calls[j], hs[j + 1], lives[j + 1]);
      StepKeeps(hs[j], lives[j], calls[j], hs[i], lives[i]);
    }
  }
}
