/** The pool of VMA descriptors: vma_free_init and vma_alloc of sys/page.c, and the lists that fork_handler,
    insert_vma, add_heap_vma, add_stack_vma and vma_remove_for_process relink. */
module Descriptors {
  import opened Processes

  /** struct vma in vma_array; links are indices, -1 for NULL. */
  datatype Descriptor = Descriptor(vma: Vma, next: int, prev: int)

  type Arena = seq<Descriptor>
  type Lists = map<nat, seq<nat>>

  const CLEARED: Vma := Vma(0, 0, 0)

  /** Element `k` of a list spelled by next. */
  predicate NextAt(arena: Arena, s: seq<nat>, k: nat)
    requires k < |s|
  {
    s[k] < |arena| && arena[s[k]].next == if k + 1 < |s| then s[k + 1] else -1
  }

  predicate PrevAt(arena: Arena, s: seq<nat>, k: nat)
    requires k < |s|
  {
    s[k] < |arena| && arena[s[k]].prev == if k > 0 then s[k - 1] else -1
  }

  predicate Distinct(s: seq<nat>) { forall i, j :: 0 <= i < j < |s| ==> s[i] != s[j] }

  function HeadOf(s: seq<nat>): int { if s == [] then -1 else s[0] }

  /** The free list is only followed forwards; its prev links go stale. */
  predicate FreeList(arena: Arena, head: int, s: seq<nat>) {
    head == HeadOf(s) && Distinct(s) && forall k :: 0 <= k < |s| ==> NextAt(arena, s, k)
  }

  /** A process's list, linked both ways. */
  predicate ProcessList(arena: Arena, head: int, s: seq<nat>) {
    FreeList(arena, head, s) && forall k :: 0 <= k < |s| ==> PrevAt(arena, s, k)
  }

  /** The areas of a list, in order. */
  function Areas(arena: Arena, s: seq<nat>): (r: seq<Vma>)
    ensures |r| == |s|
  {
    seq(|s|, k requires 0 <= k < |s| => if s[k] < |arena| then arena[s[k]].vma else CLEARED)
  }

  /** `owner` says where each descriptor is: -1 on the free list, else the process that has it. */
  ghost predicate Owned(owner: seq<int>, s: seq<nat>, p: int) {
    forall i: nat :: i in s <==> i < |owner| && owner[i] == p
  }

  /** A list whose descriptors are not written stays. */
  lemma ListStays(arena: Arena, arena': Arena, head: int, s: seq<nat>)
    requires ProcessList(arena, head, s) && |arena| == |arena'|
    requires forall i :: i in s && i < |arena| ==> arena'[i] == arena[i]
    ensures ProcessList(arena', head, s) && Areas(arena', s) == Areas(arena, s)
  {
    forall k | 0 <= k < |s| ensures NextAt(arena', s, k) && PrevAt(arena', s, k) && arena'[s[k]] == arena[s[k]] {
      assert NextAt(arena, s, k) && PrevAt(arena, s, k);
      assert s[k] in s;
    }
  }

  lemma FreeStays(arena: Arena, arena': Arena, head: int, s: seq<nat>)
    requires FreeList(arena, head, s) && |arena| == |arena'|
    requires forall i :: i in s && i < |arena| ==> arena'[i].next == arena[i].next
    ensures FreeList(arena', head, s)
  {
    forall k | 0 <= k < |s| ensures NextAt(arena', s, k) {
      assert NextAt(arena, s, k);
      assert s[k] in s;
    }
  }

  /** Everything about one process's list. */
  ghost predicate HasList(arena: Arena, head: int, s: seq<nat>, owner: seq<int>, p: int) {
    ProcessList(arena, head, s) && Owned(owner, s, p)
  }

  /** Each descriptor is on the free list or on the list of exactly one process, once. */
  ghost predicate PoolOk(arena: Arena, freeHead: int, first: map<nat, int>, free: seq<nat>, lists: Lists,
      owner: seq<int>) {
    && |owner| == |arena| && first.Keys == lists.Keys
    && FreeList(arena, freeHead, free) && Owned(owner, free, -1)
    && (forall i :: 0 <= i < |owner| ==> owner[i] == -1 || (owner[i] >= 0 && owner[i] in lists))
    && forall p :: p in lists ==> HasList(arena, first[p], lists[p], owner, p)
  }

  /** What that means: descriptor i is free, or on one process's list and no other. */
  lemma EachInOnePlace(arena: Arena, freeHead: int, first: map<nat, int>, free: seq<nat>, lists: Lists,
      owner: seq<int>, i: nat)
    requires PoolOk(arena, freeHead, first, free, lists, owner) && i < |arena|
    ensures i in free <==> forall p :: p in lists ==> i !in lists[p]
    ensures forall p, q :: p in lists && q in lists && i in lists[p] && i in lists[q] ==> p == q
  {
    forall p | p in lists ensures i in lists[p] <==> owner[i] == p {
      assert HasList(arena, first[p], lists[p], owner, p);
    }
  }

  lemma PoolParts(arena: Arena, freeHead: int, first: map<nat, int>, free: seq<nat>, lists: Lists, owner: seq<int>)
    requires PoolOk(arena, freeHead, first, free, lists, owner)
    ensures FreeList(arena, freeHead, free) && first.Keys == lists.Keys && |owner| == |arena|
    ensures freeHead == HeadOf(free) && (free != [] ==> free[0] < |arena|)
    ensures forall p :: p in lists ==> ProcessList(arena, first[p], lists[p]) && first[p] == HeadOf(lists[p])
  {
    assert free != [] ==> NextAt(arena, free, 0);
    assert forall p :: p in lists ==> HasList(arena, first[p], lists[p], owner, p);
  }

  function LastOf(s: seq<nat>): int { if s == [] then -1 else s[|s| - 1] }

  /** The list of another process, when descriptors of neither it nor the change's target are concerned. */
  lemma OtherList(arena: Arena, arena': Arena, head: int, s: seq<nat>, owner: seq<int>, owner': seq<int>, q: int)
    requires HasList(arena, head, s, owner, q) && |arena'| == |arena| == |owner| == |owner'|
    requires forall i :: 0 <= i < |owner| && (owner[i] == q || owner'[i] == q) ==>
      owner'[i] == owner[i] && arena'[i] == arena[i]
    ensures HasList(arena', head, s, owner', q) && Areas(arena', s) == Areas(arena, s)
  {
    ListStays(arena, arena', head, s);
  }

  /** Taking the head of the free list. */
  lemma PopFree(arena: Arena, head: int, s: seq<nat>)
    requires FreeList(arena, head, s) && s != []
    ensures s[0] < |arena| && head == s[0] && FreeList(arena, arena[s[0]].next, s[1..])
    ensures forall i :: i in s[1..] <==> i in s && i != s[0]
  {
    assert NextAt(arena, s, 0);
    forall k | 0 <= k < |s| - 1 ensures NextAt(arena, s[1..], k) {
      assert NextAt(arena, s, k + 1);
    }
  }

  /** A descriptor back at the head of the free list. */
  lemma PushFree(arena: Arena, arena': Arena, head: int, s: seq<nat>, d: nat)
    requires FreeList(arena, head, s) && s != [] && d !in s && d < |arena| == |arena'|
    requires forall i :: 0 <= i < |arena| && i != d ==> arena'[i].next == arena[i].next
    requires arena'[d].next == head
    ensures FreeList(arena', d, [d] + s)
  {
    var s' := [d] + s;
    forall k | 0 <= k < |s'| ensures NextAt(arena', s', k) {
      if k > 0 {
        assert NextAt(arena, s, k - 1);
      }
    }
  }

  /** A descriptor behind the last one of a process. */
  lemma AppendLast(arena: Arena, arena': Arena, head: int, s: seq<nat>, d: nat, m: Vma)
    requires ProcessList(arena, head, s) && d !in s && d < |arena| == |arena'|
    requires arena'[d] == Descriptor(m, -1, if s == [] then -1 else s[|s| - 1])
    requires forall i :: 0 <= i < |arena| && i != d ==>
      arena'[i] == if s != [] && i == s[|s| - 1] then arena[i].(next := d) else arena[i]
    ensures ProcessList(arena', if s == [] then d else head, s + [d])
    ensures Areas(arena', s + [d]) == Areas(arena, s) + [m]
  {
    var s' := s + [d];
    forall k | 0 <= k < |s'| ensures NextAt(arena', s', k) && PrevAt(arena', s', k) {
      if k < |s| {
        assert NextAt(arena, s, k) && PrevAt(arena, s, k);
      }
    }
  }

  /** The arena after vma_alloc and the linking of descriptor d behind the last of s. */
  function Linked(arena: Arena, s: seq<nat>, d: nat, m: Vma): Arena
    requires d < |arena| && (s == [] || s[|s| - 1] < |arena|)
  {
    if s == [] then arena[d := Descriptor(m, -1, -1)]
    else
      var last := s[|s| - 1];
      var a := arena[d := Descriptor(m, -1, last)];
      a[last := a[last].(next := d)]
  }

  /** The head variables after descriptor d joined list s of process p. */
  function HeadSet(first: map<nat, int>, p: nat, s: seq<nat>, d: nat): map<nat, int> {
    if s == [] then first[p := d] else first
  }

  lemma InArena(arena: Arena, head: int, s: seq<nat>)
    requires ProcessList(arena, head, s)
    ensures forall k :: 0 <= k < |s| ==> s[k] < |arena|
  {
    forall k | 0 <= k < |s| ensures s[k] < |arena| {
      assert NextAt(arena, s, k);
    }
  }

  lemma AppendKeeps(arena: Arena, freeHead: int, first: map<nat, int>, free: seq<nat>, lists: Lists,
      owner: seq<int>, p: nat, m: Vma)
    requires PoolOk(arena, freeHead, first, free, lists, owner) && p in lists && free != []
    ensures free[0] < |arena| && (lists[p] == [] || lists[p][|lists[p]| - 1] < |arena|)
    ensures var d, s := free[0], lists[p];
      PoolOk(Linked(arena, s, d, m), arena[d].next, HeadSet(first, p, s, d), free[1..], lists[p := s + [d]],
             owner[d := p])
    ensures var d, s := free[0], lists[p]; Areas(Linked(arena, s, d, m), s + [d]) == Areas(arena, s) + [m]
    ensures var d, s := free[0], lists[p];
      forall q :: q in lists && q != p ==> Areas(Linked(arena, s, d, m), lists[q]) == Areas(arena, lists[q])
  {
    hide FreeList, ProcessList;
    var d, s := free[0], lists[p];
    assert HasList(arena, first[p], s, owner, p);
    PopFree(arena, freeHead, free);
    InArena(arena, first[p], s);
    assert s != [] ==> s[|s| - 1] in s;
    var arena', owner', lists' := Linked(arena, s, d, m), owner[d := p], lists[p := s + [d]];
    var first' := HeadSet(first, p, s, d);
    AppendLast(arena, arena', first[p], s, d, m);
    FreeStays(arena, arena', arena[d].next, free[1..]);
    forall q | q in lists && q != p
      ensures HasList(arena', first'[q], lists'[q], owner', q) && Areas(arena', lists[q]) == Areas(arena, lists[q])
    {
      OtherList(arena, arena', first[q], lists[q], owner, owner', q);
    }
    assert Owned(owner', s + [d], p);
    assert HasList(arena', first'[p], lists'[p], owner', p);
  }

  class Pool {
    var arena: Arena
    var freeHead: int
    var first: map<nat, int>
    ghost var free: seq<nat>
    ghost var lists: Lists
    ghost var owner: seq<int>

    ghost predicate Valid()
      reads this
    {
      PoolOk(arena, freeHead, first, free, lists, owner)
    }

    /** The areas of process p, in list order. */
    ghost function Of(p: nat): seq<Vma>
      requires p in lists
      reads this
    {
      Areas(arena, lists[p])
    }

    /** vma_free_init on an array of n descriptors. */
    constructor (n: nat)
      ensures Valid() && |arena| == n && |free| == n && lists == map[]
    {
      var a := seq(n, _ => Descriptor(CLEARED, -1, -1));
      var head, i: int := -1, n - 1;
      ghost var s: seq<nat> := [];
      while i >= 0
        invariant -1 <= i < n && |a| == n && FreeList(a, head, s) && |s| == n - 1 - i
        invariant forall k :: 0 <= k < |s| ==> s[k] == i + 1 + k
        invariant forall k :: 0 <= k <= i ==> a[k] == Descriptor(CLEARED, -1, -1)
        decreases i
      {
        ghost var a0, s0 := a, s;
        if head == -1 {
          head := i;
        } else {
          a := a[head := a[head].(prev := i)];
          a := a[i := a[i].(next := head)];
          head := i;
        }
        s := [i] + s;
        forall k | 0 <= k < |s| ensures NextAt(a, s, k) {
          if k > 0 {
            assert NextAt(a0, s0, k - 1);
          }
        }
        i := i - 1;
      }
      arena, freeHead, first, free, lists := a, head, map[], s, map[];
      owner := seq(n, _ => -1);
      forall i: nat ensures i in s <==> i < n {
        if i < n {
          assert s[i] == i;
        }
      }
    }

    /** A process without areas. */
    method NewProcess(p: nat)
      requires Valid() && p !in lists
      modifies this`first, this`lists
      ensures Valid() && lists == old(lists)[p := []]
    {
      ghost var ls, fs := lists, first;
      first := first[p := -1];
      lists := lists[p := []];
      forall q | q in lists ensures HasList(arena, first[q], lists[q], owner, q) {
        if q != p {
          assert HasList(arena, fs[q], ls[q], owner, q);
        }
      }
    }

    /** vma_alloc, then the descriptor is filled in and linked behind the last one of process p. */
    method Link(p: nat, last: int, m: Vma) returns (d: nat)
      requires Valid() && p in lists && free != [] && last == LastOf(lists[p])
      modifies this
      ensures Valid() && d == old(free[0]) && free == old(free[1..]) && lists == old(lists[p := lists[p] + [free[0]]])
      ensures Of(p) == old(Of(p)) + [m] && |arena| == |old(arena)|
      ensures forall q :: q in old(lists) && q != p ==> Areas(arena, lists[q]) == old(Areas(arena, lists[q]))
      ensures forall q :: q in old(lists) && q != p ==> first[q] == old(first[q])
    {
      hide PoolOk, FreeList, ProcessList;
      ghost var s := lists[p];
      PoolParts(arena, freeHead, first, free, lists, owner);
      AppendKeeps(arena, freeHead, first, free, lists, owner, p, m);
      d := freeHead;
      freeHead := arena[d].next;
      arena := arena[d := Descriptor(m, -1, last)];
      if last == -1 {
        first := first[p := d];
      } else {
        arena := arena[last := arena[last].(next := d)];
      }
      free := free[1..];
      lists := lists[p := s + [d]];
      owner := owner[d := p];
    }

    /** findLastVMA. */
    method FindLast(p: nat) returns (last: int)
      requires Valid() && p in lists
      ensures last == LastOf(lists[p])
    {
      PoolParts(arena, freeHead, first, free, lists, owner);
      var temp := first[p];
      if temp == -1 {
        return -1;
      }
      ghost var k := 0;
      assert NextAt(arena, lists[p], 0);
      while arena[temp].next != -1
        invariant 0 <= k < |lists[p]| && temp == lists[p][k] && 0 <= temp < |arena|
        decreases |lists[p]| - k
      {
        assert NextAt(arena, lists[p], k) && NextAt(arena, lists[p], k + 1);
        temp := arena[temp].next;
        k := k + 1;
      }
      assert NextAt(arena, lists[p], k);
      last := temp;
    }

    /** insert_vma, add_heap_vma and add_stack_vma: a new area at the end. */
    method Append(p: nat, m: Vma)
      requires Valid() && p in lists && free != []
      modifies this
      ensures Valid() && lists.Keys == old(lists.Keys) && free == old(free[1..]) && Of(p) == old(Of(p)) + [m]
      ensures forall q :: q in lists && q != p ==> Areas(arena, lists[q]) == old(Areas(arena, lists[q]))
    {
      var last := FindLast(p);
      var d := Link(p, last, m);
    }

    /** fork_handler: the child's list equals the parent's, in order and content. */
    method Fork(parent: nat, child: nat)
      requires Valid() && parent in lists && child !in lists && |lists[parent]| <= |free|
      modifies this
      ensures Valid() && lists.Keys == old(lists.Keys) + {child}
      ensures Of(child) == Of(parent) == old(Of(parent)) && lists[parent] == old(lists[parent])
      ensures free == old(free[|lists[parent]|..])
      ensures forall q :: q in old(lists) ==> Areas(arena, lists[q]) == old(Areas(arena, lists[q]))
    {
      hide PoolOk, FreeList, ProcessList, Areas, Copying;
      ghost var s, a, fr, ls := lists[parent], arena, free, lists;
      PoolParts(arena, freeHead, first, free, lists, owner);
      var temp: int, prev: int := first[parent], -1;
      NewProcess(child);
      ghost var k := 0;
      CopyingStarts(a, fr, ls, parent, child);
      while temp != -1
        invariant 0 <= k <= |s| && Valid() && parent in lists && child in lists && lists[parent] == s
        invariant temp == (if k < |s| then s[k] else -1) && prev == LastOf(lists[child]) && k + |free| == |fr|
        invariant Copying(a, fr, ls, arena, free, lists, parent, child, k)
        decreases |s| - k
      {
        temp, prev := CopyOne(parent, child, temp, prev, a, fr, ls, k);
        k := k + 1;
      }
      CopyingEnds(a, fr, ls, arena, free, lists, parent, child);
    }

    /** One area of the parent: a new descriptor with its contents behind the child's last one. */
    method CopyOne(parent: nat, child: nat, temp: nat, prev: int, ghost a: Arena, ghost fr: seq<nat>,
        ghost ls: Lists, ghost k: nat) returns (next: int, d: int)
      requires Valid() && parent in lists && child in lists && parent != child && k < |lists[parent]| &&
        temp == lists[parent][k]
      requires prev == LastOf(lists[child]) && free != [] && Copying(a, fr, ls, arena, free, lists, parent, child, k)
      modifies this
      ensures Valid() && parent in lists && child in lists && lists[parent] == old(lists[parent])
      ensures next == (if k + 1 < |lists[parent]| then lists[parent][k + 1] else -1) && d == LastOf(lists[child])
      ensures |free| == |old(free)| - 1 && Copying(a, fr, ls, arena, free, lists, parent, child, k + 1)
    {
      hide PoolOk, FreeList, ProcessList;
      NextInList(arena, freeHead, first, free, lists, owner, parent, k);
      var m := arena[temp].vma;
      d := Link(child, prev, m);
      NextInList(arena, freeHead, first, free, lists, owner, parent, k);
      next := arena[temp].next;
    }

    /** vma_remove_for_process: the descriptors go back to the free list, cleared. */
    method Remove(p: nat)
      requires Valid() && p in lists && free != []
      modifies this
      ensures Valid() && lists == old(lists[p := []]) && free == Reversed(old(lists[p])) + old(free)
      ensures forall i :: i in old(lists[p]) ==> i < |arena| && arena[i].vma == Vma(0, 0, 0)
      ensures forall q :: q in lists && q != p ==> Areas(arena, lists[q]) == old(Areas(arena, lists[q]))
    {
      hide PoolOk, FreeList, ProcessList, Removing, Areas, Reversed;
      ghost var s, a, fr, k := lists[p], arena, free, 0;
      NothingReversed(s);
      RemovingStarts(arena, freeHead, first, free, lists, owner, p);
      PoolParts(arena, freeHead, first, free, lists, owner);
      var temp := first[p];
      assert s[0..] == s && Reversed(s[..0]) + fr == fr;
      while temp != -1
        invariant 0 <= k <= |s| && Removing(arena, freeHead, first, free, lists, owner, p, s[k..]) &&
          temp == HeadOf(s[k..])
        invariant free == Reversed(s[..k]) + fr && |arena| == |a| && first == old(first) && lists == old(lists)
        invariant forall q :: q in lists && q != p ==> Areas(arena, lists[q]) == Areas(a, lists[q])
        invariant forall j :: 0 <= j < k ==> s[j] < |arena| && arena[s[j]].vma == CLEARED
        decreases |s| - k
      {
        RemovingStep(arena, freeHead, first, free, lists, owner, p, s[k..]);
        assert s[k..][1..] == s[k + 1..];
        ReversedNext(s, k);
        var follower := arena[temp].next;
        arena := arena[freeHead := arena[freeHead].(prev := temp)];
        arena := arena[temp := Descriptor(CLEARED, freeHead, -1)];
        freeHead := temp;
        free := [temp] + free;
        owner := owner[temp := -1];
        temp := follower;
        k := k + 1;
      }
      assert s[..k] == s && s[k..] == [];
      RemovingEnds(arena, freeHead, first, free, lists, owner, p);
      first := first[p := -1];
      lists := lists[p := []];
    }
  }

  /** fork_handler after k areas of the parent. */
  ghost predicate Copying(a: Arena, fr: seq<nat>, ls: Lists, arena: Arena, free: seq<nat>, lists: Lists,
      parent: nat, child: nat, k: nat) {
    && parent in ls && child !in ls && k <= |ls[parent]| && k <= |fr| && free == fr[k..]
    && lists.Keys == ls.Keys + {child} && Areas(arena, lists[child]) == Areas(a, ls[parent])[..k]
    && forall q :: q in ls ==> lists[q] == ls[q] && Areas(arena, lists[q]) == Areas(a, ls[q])
  }

  lemma CopyingStarts(a: Arena, fr: seq<nat>, ls: Lists, parent: nat, child: nat)
    requires parent in ls && child !in ls
    ensures Copying(a, fr, ls, a, fr, ls[child := []], parent, child, 0)
  {
  }

  lemma CopyingEnds(a: Arena, fr: seq<nat>, ls: Lists, arena: Arena, free: seq<nat>, lists: Lists, parent: nat,
      child: nat)
    requires parent in ls && Copying(a, fr, ls, arena, free, lists, parent, child, |ls[parent]|)
    ensures child in lists && parent in lists && lists.Keys == ls.Keys + {child}
    ensures Areas(arena, lists[child]) == Areas(arena, lists[parent]) == Areas(a, ls[parent]) &&
      free == fr[|ls[parent]|..]
    ensures forall q :: q in ls ==> Areas(arena, lists[q]) == Areas(a, ls[q])
  {
  }

  function Reversed(s: seq<nat>): seq<nat> {
    if s == [] then [] else [s[|s| - 1]] + Reversed(s[..|s| - 1])
  }

  lemma {:induction false} ReversedIs(s: seq<nat>, k: nat)
    requires k < |s|
    ensures |Reversed(s)| == |s| && Reversed(s)[k] == s[|s| - 1 - k]
  {
    var n := |s| - 1;
    if k > 0 {
      ReversedIs(s[..n], k - 1);
    } else if n > 0 {
      ReversedIs(s[..n], 0);
    }
  }

  lemma NothingReversed(s: seq<nat>)
    ensures Reversed(s[..0]) == []
  {
  }

  lemma ReversedNext(s: seq<nat>, k: nat)
    requires k < |s|
    ensures Reversed(s[..k + 1]) == [s[k]] + Reversed(s[..k])
  {
    assert s[..k + 1][..k] == s[..k];
  }

  /** Walking along a process's list. */
  lemma NextInList(arena: Arena, freeHead: int, first: map<nat, int>, free: seq<nat>, lists: Lists, owner: seq<int>,
      p: nat, k: nat)
    requires PoolOk(arena, freeHead, first, free, lists, owner) && p in lists && k < |lists[p]|
    ensures lists[p][k] < |arena| && arena[lists[p][k]].next == if k + 1 < |lists[p]| then lists[p][k + 1] else -1
  {
    assert HasList(arena, first[p], lists[p], owner, p);
    assert NextAt(arena, lists[p], k);
  }

  /** The state while the list of p is being given back; `rest` is still to be done. */
  ghost predicate Removing(arena: Arena, freeHead: int, first: map<nat, int>, free: seq<nat>, lists: Lists,
      owner: seq<int>, p: nat, rest: seq<nat>) {
    && |owner| == |arena| && first.Keys == lists.Keys && p in lists && free != []
    && FreeList(arena, freeHead, free) && Owned(owner, free, -1)
    && FreeList(arena, HeadOf(rest), rest) && Owned(owner, rest, p)
    && (forall i :: 0 <= i < |owner| ==> owner[i] == -1 || (owner[i] >= 0 && owner[i] in lists))
    && forall q :: q in lists && q != p ==> HasList(arena, first[q], lists[q], owner, q)
  }

  lemma RemovingStarts(arena: Arena, freeHead: int, first: map<nat, int>, free: seq<nat>, lists: Lists,
      owner: seq<int>, p: nat)
    requires PoolOk(arena, freeHead, first, free, lists, owner) && p in lists && free != []
    ensures Removing(arena, freeHead, first, free, lists, owner, p, lists[p])
  {
    assert HasList(arena, first[p], lists[p], owner, p);
  }

  lemma RemovingEnds(arena: Arena, freeHead: int, first: map<nat, int>, free: seq<nat>, lists: Lists,
      owner: seq<int>, p: nat)
    requires Removing(arena, freeHead, first, free, lists, owner, p, [])
    ensures PoolOk(arena, freeHead, first[p := -1], free, lists[p := []], owner)
  {
    assert HasList(arena, -1, [], owner, p);
  }

  /** The arena when descriptor d is back at the head of the free list, cleared. */
  function GivenBack(arena: Arena, freeHead: nat, d: nat): Arena
    requires freeHead < |arena| && d < |arena|
  {
    arena[freeHead := arena[freeHead].(prev := d)][d := Descriptor(CLEARED, freeHead, -1)]
  }

  /** One descriptor given back. */
  lemma RemovingStep(arena: Arena, freeHead: int, first: map<nat, int>, free: seq<nat>, lists: Lists,
      owner: seq<int>, p: nat, rest: seq<nat>)
    requires Removing(arena, freeHead, first, free, lists, owner, p, rest) && rest != []
    ensures |owner| == |arena| && 0 <= freeHead < |arena| && rest[0] < |arena| &&
      arena[rest[0]].next == HeadOf(rest[1..])
    ensures var d := rest[0];
      Removing(GivenBack(arena, freeHead, d), d, first, [d] + free, lists, owner[d := -1], p, rest[1..])
    ensures var d := rest[0];
      forall q :: q in lists && q != p ==>
        Areas(GivenBack(arena, freeHead, d), lists[q]) == Areas(arena, lists[q])
  {
    var d := rest[0];
    PopFree(arena, HeadOf(rest), rest);
    assert NextAt(arena, rest, 0) && NextAt(arena, free, 0);
    assert free[0] in free && d in rest;
    var arena' := GivenBack(arena, freeHead, d);
    var owner' := owner[d := -1];
    PushFree(arena, arena', freeHead, free, d);
    FreeStays(arena, arena', arena[d].next, rest[1..]);
    forall q | q in lists && q != p
      ensures HasList(arena', first[q], lists[q], owner', q) && Areas(arena', lists[q]) == Areas(arena, lists[q])
    {
      OtherList(arena, arena', first[q], lists[q], owner, owner', q);
    }
    assert forall i :: i in [d] + free <==> i in free || i == d;
  }
}
