/** Address spaces: fork, copy-on-write, demand allocation and unmapping
    (sys/syscall.c, sys/isr.c, sys/cleanup.c). A process is named by its PML4 frame. */
module Processes {
  import opened Words
  import opened Memory
  import opened Updates
  import opened KernelMemory

  const PAGE_SIZE: nat := 4096

  function AlignDown(a: nat): nat { a - a % PAGE_SIZE }
  function AlignUp(a: nat): nat {
    var diff := PAGE_SIZE - a % PAGE_SIZE;
    if diff == PAGE_SIZE then a else a + diff
  }

  /** struct vma, with byte addresses. */
  datatype Vma = Vma(start: nat, end: nat, flags: nat)

  predicate Writable(m: Vma) { (m.flags / 2) % 2 == 1 }

  /** The 36 bits of an address that select a page-table entry. */
  function PageNumber(address: nat): nat { (address / PAGE_SIZE) % 0x10_0000_0000 }

  function NumPages(m: Vma): int { (AlignUp(m.end) - AlignDown(m.start)) / PAGE_SIZE }

  predicate VmaOk(m: Vma) {
    m.start <= m.end && PageNumber(m.start) + NumPages(m) <= USER_PAGES
  }

  function Range(first: nat, n: int): (r: set<nat>)
    ensures forall u :: u in r <==> first <= u < first + n
  {
    if n <= 0 then {} else Range(first, n - 1) + {first + n - 1}
  }

  function PagesOf(m: Vma): set<nat> { Range(PageNumber(m.start), NumPages(m)) }

  function Pages(vmas: seq<Vma>): set<nat> {
    if vmas == [] then {} else Pages(vmas[..|vmas| - 1]) + PagesOf(vmas[|vmas| - 1])
  }

  function WritablePages(vmas: seq<Vma>): set<nat> {
    if vmas == [] then {}
    else
      var m := vmas[|vmas| - 1];
      WritablePages(vmas[..|vmas| - 1]) + if Writable(m) then PagesOf(m) else {}
  }

  /** How many pages the descriptors span. */
  function Span(vmas: seq<Vma>): int {
    if vmas == [] then 0 else Span(vmas[..|vmas| - 1]) + NumPages(vmas[|vmas| - 1])
  }

  /** Well-formed and page-disjoint: what keeps page_insert in fork_handler off occupied entries. */
  ghost predicate VmasOk(vmas: seq<Vma>) {
    && (forall k :: 0 <= k < |vmas| ==> VmaOk(vmas[k]))
    && (forall j, k :: 0 <= j < k < |vmas| ==> PagesOf(vmas[j]) !! PagesOf(vmas[k]))
  }

  /** The loops address page `i` of a descriptor as `start + i*PAGE_SIZE`. */
  lemma PageAddress(m: Vma, i: nat)
    requires VmaOk(m) && i < NumPages(m)
    ensures PageNumber(m.start + i * PAGE_SIZE) == PageNumber(m.start) + i < USER_PAGES
  {
    assert (m.start + i * PAGE_SIZE) / PAGE_SIZE == m.start / PAGE_SIZE + i;
  }

  lemma PagesDisjoint(vmas: seq<Vma>, m: Vma)
    requires forall k :: 0 <= k < |vmas| ==> PagesOf(vmas[k]) !! PagesOf(m)
    ensures Pages(vmas) !! PagesOf(m)
  {
    if vmas != [] {
      PagesDisjoint(vmas[..|vmas| - 1], m);
    }
  }

  lemma PagesPrefix(vmas: seq<Vma>, k: nat)
    requires k < |vmas|
    ensures Pages(vmas[..k + 1]) == Pages(vmas[..k]) + PagesOf(vmas[k])
    ensures WritablePages(vmas[..k + 1]) ==
      WritablePages(vmas[..k]) + if Writable(vmas[k]) then PagesOf(vmas[k]) else {}
    ensures Span(vmas[..k + 1]) == Span(vmas[..k]) + NumPages(vmas[k])
  {
    assert vmas[..k + 1][..k] == vmas[..k];
  }

  // ---------- fork ----------

  /** What fork_handler stores in the child for a parent entry. */
  function ChildWord(w: Word, writable: bool): Word {
    if w.present then LeafWord(w.frame, false, writable) else ZERO
  }

  /** One page shared by fork: the parent's entry loses RW when writable, the child gets its copy, nothing else
      moves. */
  ghost predicate PageShared(s: Mem, s': Mem, parent: nat, child: nat, v: nat, writable: bool) {
    && SameRoots(s, s') && SameContents(s, s') && TablesStay(s, s') && s'.free <= s.free && |s.free| <= |s'.free| + 6
    && forall q: nat, u: nat :: IsRoot(s, q) && u < USER_PAGES ==>
         Pte(s'.mem, q, u) ==
           if u == v && q == parent && writable then CowMark(Pte(s.mem, q, u))
           else if u == v && q == child then ChildWord(Pte(s.mem, parent, u), writable)
           else Pte(s.mem, q, u)
  }

  lemma ShareNothing(s: Mem, s': Mem, parent: nat, child: nat, v: nat, writable: bool)
    requires Grown(s, s') && |s.free| <= |s'.free| + 6 && IsRoot(s, parent) && v < USER_PAGES && NewUnder(s, s', parent)
    requires !Pte(s.mem, parent, v).present && Pte(s.mem, child, v) == ZERO
    ensures PageShared(s, s', parent, child, v, writable)
  {
    NewUnderStay(s, s', parent);
    forall q: nat, u: nat | IsRoot(s, q) && u < USER_PAGES ensures Pte(s'.mem, q, u) == Pte(s.mem, q, u) {}
  }

  lemma ShareEffect(s: Mem, s1: Mem, s2: Mem, s3: Mem, parent: nat, child: nat, v: nat, writable: bool)
    requires Grown(s, s1) && IsRoot(s, parent) && IsRoot(s, child) && parent != child && v < USER_PAGES
    requires Pte(s.mem, parent, v).present
    requires if writable then OneKey(s1, s2, parent, v, CowMark(Pte(s.mem, parent, v))) else s2 == s1
    requires SameContents(s1, s2) && s2.free == s1.free && s2.role == s1.role
    requires NewUnder(s, s1, parent) && NewUnder(s2, s3, child)
    requires OneKey(s2, s3, child, v, LeafWord(Pte(s.mem, parent, v).frame, false, writable))
    requires SameContents(s2, s3) && s3.free <= s2.free && |s.free| <= |s3.free| + 6
    ensures PageShared(s, s3, parent, child, v, writable)
  {
    hide Inv, Pte, NewUnder, OneKey, TablesStay, SameRoots, SameMappings, SameContents, Slots;
    ShareStays(s, s1, s2, s3, parent, child);
    ShareKeys(s, s1, s2, s3, parent, child, v, writable);
    ShareContents(s, s1, s2, s3);
  }

  lemma ShareContents(s: Mem, s1: Mem, s2: Mem, s3: Mem)
    requires Grown(s, s1) && SameContents(s1, s2) && SameContents(s2, s3)
    ensures SameContents(s, s3)
  {
    hide Inv, Pte;
  }

  lemma ContentsSelf(s: Mem)
    requires Inv(s)
    ensures SameContents(s, s)
  {
  }

  lemma ShareStays(s: Mem, s1: Mem, s2: Mem, s3: Mem, parent: nat, child: nat)
    requires Grown(s, s1) && IsRoot(s, parent) && IsRoot(s, child) && s2.role == s1.role
    requires SameContents(s1, s2) && SameContents(s2, s3)
    requires NewUnder(s, s1, parent) && NewUnder(s2, s3, child)
    ensures TablesStay(s, s3)
  {
    NewUnderStay(s, s1, parent);
    NewUnderStay(s2, s3, child);
    TablesStayTransitive(s, s1, s3);
  }

  lemma ShareKeys(s: Mem, s1: Mem, s2: Mem, s3: Mem, parent: nat, child: nat, v: nat, writable: bool)
    requires Grown(s, s1) && IsRoot(s, parent) && IsRoot(s, child) && parent != child && v < USER_PAGES
    requires Pte(s.mem, parent, v).present
    requires if writable then OneKey(s1, s2, parent, v, CowMark(Pte(s.mem, parent, v))) else s2 == s1
    requires OneKey(s2, s3, child, v, LeafWord(Pte(s.mem, parent, v).frame, false, writable))
    ensures SameRoots(s, s3)
    ensures forall q: nat, u: nat :: IsRoot(s, q) && u < USER_PAGES ==>
      Pte(s3.mem, q, u) ==
        if u == v && q == parent && writable then CowMark(Pte(s.mem, q, u))
        else if u == v && q == child then ChildWord(Pte(s.mem, parent, u), writable)
        else Pte(s.mem, q, u)
  {
    hide Inv, Pte;
    forall q: nat, u: nat | IsRoot(s, q) && u < USER_PAGES
      ensures Pte(s3.mem, q, u) ==
        if u == v && q == parent && writable then CowMark(Pte(s.mem, q, u))
        else if u == v && q == child then ChildWord(Pte(s.mem, parent, u), writable)
        else Pte(s.mem, q, u)
    {
      assert Pte(s1.mem, q, u) == Pte(s.mem, q, u);
      assert IsRoot(s1, q) && IsRoot(s2, q);
    }
  }

  /** Rewriting the flags of an entry in place, as the handlers do. */
  lemma RemarkContents(s: Mem, r: nat, v: nat, w: Word)
    requires Inv(s) && IsRoot(s, r) && v < USER_PAGES && Pte(s.mem, r, v).present
    ensures 0 <= Pt(s.mem, r, v) < |s.mem| && I1(v) < 512
    ensures SameContents(s, SetWord(s, Pt(s.mem, r, v), I1(v), w))
    ensures Pte(s.mem, r, v).frame < |s.role| && s.role[Pte(s.mem, r, v).frame] == Data && Pte(s.mem, r, v).user
  {
    PathFacts(s, r, v);
  }

  lemma GrownMapping(s: Mem, s': Mem, r: nat, v: nat)
    requires Grown(s, s') && IsRoot(s, r) && v < USER_PAGES
    ensures IsRoot(s', r) && Pte(s'.mem, r, v) == Pte(s.mem, r, v)
  {
  }

  lemma OneKeyOther(s: Mem, s': Mem, r: nat, v: nat, w: Word, q: nat, u: nat)
    requires OneKey(s, s', r, v, w) && IsRoot(s, q) && u < USER_PAGES && (q, u) != (r, v)
    ensures IsRoot(s', q) && Pte(s'.mem, q, u) == Pte(s.mem, q, u)
  {
  }

  /** The body of the page loop of fork_handler. */
  method SharePage(k: Kernel, parent: nat, child: nat, v: nat, writable: bool) returns (ok: bool)
    requires k.Valid() && IsRoot(k.S(), parent) && IsRoot(k.S(), child) && parent != child && v < USER_PAGES
    requires Pte(k.mem, child, v) == ZERO
    modifies k
    ensures 6 < |old(k.free)| ==> ok
    ensures ok ==> k.Valid() && PageShared(old(k.S()), k.S(), parent, child, v, writable)
  {
    hide Inv, Grown, NewUnder, ListOk, OneKey, SameContents, CountChanges, PageShared, Missing, Pte, Pt;
    ghost var s := k.S();
    var t, i;
    ok, t, i := k.Pml4Walk(parent, v);
    if !ok {
      return;
    }
    ghost var s1 := k.S();
    WalkedWord(s, s1, parent, v);
    GrownMapping(s, s1, parent, v);
    GrownMapping(s, s1, child, v);
    GrownFree(s, s1);
    var w := k.mem[t][i];
    if w == ZERO {
      ShareNothing(s, s1, parent, child, v, writable);
    } else {
      RemarkContents(s1, parent, v, CowMark(w));
      ContentsSelf(s1);
      if writable {
        RemarkEffect(s1, parent, v, CowMark(w));
        k.mem := k.mem[t := k.mem[t][i := CowMark(w)]];
        assert k.S() == SetWord(s1, t, i, CowMark(w));
        OneKeyOther(s1, k.S(), parent, v, CowMark(w), child, v);
      }
      ghost var s2 := k.S();
      ok := k.PageInsert(child, v, w.frame, false, writable);
      if ok {
        ShareEffect(s, s1, s2, k.S(), parent, child, v, writable);
      }
    }
  }

  /** fork_handler after the pages in `done` (of which those in `wr` are writable), on a child that started empty. */
  ghost predicate Forked(s: Mem, s': Mem, parent: nat, child: nat, done: set<nat>, wr: set<nat>) {
    && SameRoots(s, s') && SameContents(s, s') && TablesStay(s, s')
    && forall q: nat, u: nat :: IsRoot(s, q) && u < USER_PAGES ==>
         Pte(s'.mem, q, u) ==
           if q == parent && u in wr then CowMark(Pte(s.mem, q, u))
           else if q == child && u in done then ChildWord(Pte(s.mem, parent, u), u in wr)
           else Pte(s.mem, q, u)
  }

  lemma ForkedStart(s: Mem, parent: nat, child: nat)
    requires Sized(s)
    ensures Forked(s, s, parent, child, {}, {})
  {
  }

  lemma ForkedStep(s: Mem, s1: Mem, s2: Mem, parent: nat, child: nat, done: set<nat>, wr: set<nat>, v: nat,
      writable: bool)
    requires Forked(s, s1, parent, child, done, wr) && PageShared(s1, s2, parent, child, v, writable)
    requires IsRoot(s, parent) && IsRoot(s, child) && parent != child && v < USER_PAGES && v !in done && wr <= done
    ensures Forked(s, s2, parent, child, done + {v}, wr + if writable then {v} else {})
  {
    TablesStayTransitive(s, s1, s2);
    var done', wr' := done + {v}, wr + if writable then {v} else {};
    forall q: nat, u: nat | IsRoot(s, q) && u < USER_PAGES
      ensures Pte(s2.mem, q, u) ==
        if q == parent && u in wr' then CowMark(Pte(s.mem, q, u))
        else if q == child && u in done' then ChildWord(Pte(s.mem, parent, u), u in wr')
        else Pte(s.mem, q, u)
    {
      assert IsRoot(s1, q) && IsRoot(s1, parent);
      assert Pte(s1.mem, parent, v) == Pte(s.mem, parent, v);
    }
  }

  lemma ForkedEmptySlot(s: Mem, s1: Mem, parent: nat, child: nat, done: set<nat>, wr: set<nat>, v: nat)
    requires Forked(s, s1, parent, child, done, wr) && NothingMapped(s, child)
    requires IsRoot(s, parent) && IsRoot(s, child) && parent != child && v < USER_PAGES && v !in done
    ensures Pte(s1.mem, child, v) == ZERO && IsRoot(s1, parent) && IsRoot(s1, child)
  {
  }

  /** fork_handler's inner loop: the pages of one descriptor. */
  method ForkVma(k: Kernel, parent: nat, child: nat, m: Vma, ghost s0: Mem, ghost done: set<nat>, ghost wr: set<nat>)
    returns (ok: bool)
    requires k.Valid() && IsRoot(s0, parent) && IsRoot(s0, child) && parent != child && NothingMapped(s0, child)
    requires Forked(s0, k.S(), parent, child, done, wr) && wr <= done && VmaOk(m) && done !! PagesOf(m)
    modifies k
    ensures 6 * NumPages(m) < |old(k.free)| ==> ok
    ensures ok ==> k.Valid() && |old(k.free)| <= |k.free| + 6 * NumPages(m)
    ensures ok ==>
      Forked(s0, k.S(), parent, child, done + PagesOf(m), wr + if Writable(m) then PagesOf(m) else {})
  {
    hide Inv, ListOk, Forked, PageShared, NothingMapped, Pte;
    var first, n := PageNumber(m.start), NumPages(m);
    var i := 0;
    assert done + Range(first, 0) == done && wr + Range(first, 0) == wr;
    while i < n
      invariant 0 <= i <= n && k.Valid()
      invariant |old(k.free)| <= |k.free| + 6 * i
      invariant Forked(s0, k.S(), parent, child, done + Range(first, i), wr + if Writable(m) then Range(first,
        i) else {})
    {
      PageAddress(m, i);
      var v := PageNumber(m.start + i * PAGE_SIZE);
      ghost var s1, d, w := k.S(), done + Range(first, i), wr + if Writable(m) then Range(first, i) else {};
      assert v in PagesOf(m);
      ForkedEmptySlot(s0, s1, parent, child, d, w, v);
      ok := SharePage(k, parent, child, v, Writable(m));
      if !ok {
        return;
      }
      ForkedStep(s0, s1, k.S(), parent, child, d, w, v, Writable(m));
      PageSharedFree(s1, k.S(), parent, child, v, Writable(m));
      assert d + {v} == done + Range(first, i + 1);
      assert w + (if Writable(m) then {v} else {}) == wr + if Writable(m) then Range(first, i + 1) else {};
      i := i + 1;
    }
    ok := true;
  }

  lemma PageSharedFree(s: Mem, s': Mem, parent: nat, child: nat, v: nat, writable: bool)
    requires PageShared(s, s', parent, child, v, writable)
    ensures |s.free| <= |s'.free| + 6
  {
  }

  /** fork_handler: `child` is a new process; writable pages are shared copy-on-write, the others read-only. */
  ghost predicate ForkStep(s: Mem, s': Mem, parent: nat, child: nat, vmas: seq<Vma>) {
    && Inv(s') && SameContents(s, s') && TablesStay(s, s') && !IsRoot(s, child) && IsRoot(s, parent)
    && (forall q: nat :: IsRoot(s', q) <==> IsRoot(s, q) || q == child)
    && (forall q: nat, u: nat :: IsRoot(s, q) && u < USER_PAGES ==>
          Pte(s'.mem, q, u) ==
            if q == parent && u in WritablePages(vmas) then CowMark(Pte(s.mem, q, u)) else Pte(s.mem, q, u))
    && (forall u: nat :: u < USER_PAGES ==>
          Pte(s'.mem, child, u) ==
            if u in Pages(vmas) then ChildWord(Pte(s.mem, parent, u), u in WritablePages(vmas)) else ZERO)
  }

  lemma ForkDone(s: Mem, s': Mem, parent: nat, vmas: seq<Vma>)
    requires Inv(s) && IsRoot(s, parent) && 0 < |s.free| && Inv(s')
    requires Forked(RootS(s), s', parent, s.free[|s.free| - 1], Pages(vmas), WritablePages(vmas))
    ensures ForkStep(s, s', parent, s.free[|s.free| - 1], vmas)
  {
    ForkKeeps(s, s', parent, vmas);
    ForkKeys(s, s', parent, vmas);
    hide Inv, Pte, RootS, Forked, Pages, WritablePages, TablesStay, SameContents;
  }

  lemma ForkKeeps(s: Mem, s': Mem, parent: nat, vmas: seq<Vma>)
    requires Inv(s) && IsRoot(s, parent) && 0 < |s.free| && Inv(s')
    requires Forked(RootS(s), s', parent, s.free[|s.free| - 1], Pages(vmas), WritablePages(vmas))
    ensures TablesStay(s, s') && SameContents(s, s')
    ensures s.free[|s.free| - 1] < |s.role| && s.free[|s.free| - 1] != parent
    ensures s.role[s.free[|s.free| - 1]] == Unused && IsRoot(s', s.free[|s.free| - 1])
    ensures forall q: nat :: q != s.free[|s.free| - 1] ==> (IsRoot(s', q) <==> IsRoot(s, q))
  {
    RootKeeps(s);
    TablesStayTransitive(s, RootS(s), s');
  }

  lemma ForkKeys(s: Mem, s': Mem, parent: nat, vmas: seq<Vma>)
    requires Inv(s) && IsRoot(s, parent) && 0 < |s.free| && Inv(s')
    requires Forked(RootS(s), s', parent, s.free[|s.free| - 1], Pages(vmas), WritablePages(vmas))
    ensures forall q: nat, u: nat :: IsRoot(s, q) && u < USER_PAGES ==>
      Pte(s'.mem, q, u) ==
        if q == parent && u in WritablePages(vmas) then CowMark(Pte(s.mem, q, u)) else Pte(s.mem, q, u)
    ensures forall u: nat :: u < USER_PAGES ==>
      Pte(s'.mem, s.free[|s.free| - 1], u) ==
        if u in Pages(vmas) then ChildWord(Pte(s.mem, parent, u), u in WritablePages(vmas)) else ZERO
  {
    RootKeeps(s);
    forall q: nat, u: nat | IsRoot(s, q) && u < USER_PAGES
      ensures Pte(s'.mem, q, u) ==
        if q == parent && u in WritablePages(vmas) then CowMark(Pte(s.mem, q, u)) else Pte(s.mem, q, u)
    {
      assert IsRoot(RootS(s), q) && Pte(RootS(s).mem, q, u) == Pte(s.mem, q, u);
    }
    forall u: nat | u < USER_PAGES
      ensures Pte(s'.mem, s.free[|s.free| - 1], u) ==
        if u in Pages(vmas) then ChildWord(Pte(s.mem, parent, u), u in WritablePages(vmas)) else ZERO
    {
      assert IsRoot(RootS(s), s.free[|s.free| - 1]) && IsRoot(RootS(s), parent);
      assert Pte(RootS(s).mem, parent, u) == Pte(s.mem, parent, u);
    }
  }

  lemma PagesStart(vmas: seq<Vma>)
    requires VmasOk(vmas)
    ensures Pages(vmas[..0]) == {} && WritablePages(vmas[..0]) == {} && Span(vmas[..0]) == 0 <= Span(vmas)
  {
    SpanNonNegative(vmas);
  }

  /** What the descriptor loops need about descriptor `i`. */
  lemma NextVma(vmas: seq<Vma>, i: nat)
    requires VmasOk(vmas) && i < |vmas|
    ensures Pages(vmas[..i + 1]) == Pages(vmas[..i]) + PagesOf(vmas[i])
    ensures WritablePages(vmas[..i + 1]) ==
      WritablePages(vmas[..i]) + if Writable(vmas[i]) then PagesOf(vmas[i]) else {}
    ensures Span(vmas[..i + 1]) == Span(vmas[..i]) + NumPages(vmas[i]) <= Span(vmas)
    ensures VmaOk(vmas[i]) && 0 <= NumPages(vmas[i]) && Pages(vmas[..i]) !! PagesOf(vmas[i])
  {
    PagesPrefix(vmas, i);
    PagesDisjoint(vmas[..i], vmas[i]);
    SpanMonotonic(vmas, i);
  }

  /** The child's PML4: a zeroed page that takes over the parent's kernel entry. */
  method NewRoot(k: Kernel, parent: nat) returns (ok: bool, child: nat)
    requires k.Valid() && IsRoot(k.S(), parent)
    modifies k
    ensures ok <==> 2 <= |old(k.free)|
    ensures ok ==> k.Valid() && k.S() == RootS(old(k.S())) && child == old(k.free)[|old(k.free)| - 1]
    ensures ok ==> IsRoot(k.S(), parent) && IsRoot(k.S(), child) && child != parent && NothingMapped(k.S(), child)
    ensures ok ==> |k.free| == |old(k.free)| - 1
  {
    ghost var s := k.S();
    ok, child := k.PageAlloc();
    if ok {
      RootKeeps(s);
      KernelSlot(s, parent);
      hide Inv, ListOk;
      k.mem := k.mem[child := k.mem[child][KERNEL_SLOT := k.mem[parent][KERNEL_SLOT]]];
      k.role := k.role[child := Root];
      assert k.S() == RootS(s);
    }
  }

  /** The PML4 that build_process_address_space makes, with the kernel's own entry. */
  method StartProcess(k: Kernel) returns (ok: bool, r: nat)
    requires k.Valid()
    modifies k
    ensures ok <==> 2 <= |old(k.free)|
    ensures ok ==> k.Valid() && k.S() == RootS(old(k.S())) && r == old(k.free)[|old(k.free)| - 1]
  {
    hide Inv, ListOk;
    ghost var s := k.S();
    ok, r := k.PageAlloc();
    if ok {
      RootKeeps(s);
      k.mem := k.mem[r := k.mem[r][KERNEL_SLOT := k.kernelEntry]];
      k.role := k.role[r := Root];
      assert k.S() == RootS(s);
    }
  }

  lemma KernelSlot(s: Mem, r: nat)
    requires Inv(s) && IsRoot(s, r)
    ensures r < |s.mem| && s.mem[r][KERNEL_SLOT] == s.kernel
  {
  }

  /** The page-table part of fork_handler. */
  method Fork(k: Kernel, parent: nat, vmas: seq<Vma>) returns (ok: bool, child: nat, childVmas: seq<Vma>)
    requires k.Valid() && IsRoot(k.S(), parent) && VmasOk(vmas)
    modifies k
    ensures 6 * Span(vmas) + 1 < |old(k.free)| ==> ok
    ensures ok ==> k.Valid() && ForkStep(old(k.S()), k.S(), parent, child, vmas) && childVmas == vmas
    ensures ok ==> var mem := old(k.mem);
      forall j: nat, v: nat :: j < |vmas| && v in PagesOf(vmas[j]) && Pte(mem, parent, v).present ==>
        !Pte(k.mem, child, v).rw && Pte(k.mem, child, v).cow == (vmas[j].flags / 2 % 2 == 1)
  {
    hide Inv, ListOk, Forked, PageShared, NothingMapped, ForkStep, Pte, VmaOk, AllocS;
    hide VmasOk, Pages, WritablePages, Span, PagesOf, NumPages, RootS;
    childVmas := [];
    PagesStart(vmas);
    ghost var s := k.S();
    ok, child := NewRoot(k, parent);
    if !ok {
      return;
    }
    ghost var s0 := k.S();
    ForkedStart(s0, parent, child);
    var i := 0;
    while i < |vmas|
      invariant 0 <= i <= |vmas| && k.Valid() && childVmas == vmas[..i]
      invariant |s.free| <= |k.free| + 6 * Span(vmas[..i]) + 1
      invariant Forked(s0, k.S(), parent, child, Pages(vmas[..i]), WritablePages(vmas[..i]))
      invariant WritablePages(vmas[..i]) <= Pages(vmas[..i])
    {
      NextVma(vmas, i);
      childVmas := childVmas + [vmas[i]];
      ok := ForkVma(k, parent, child, vmas[i], s0, Pages(vmas[..i]), WritablePages(vmas[..i]));
      if !ok {
        return;
      }
      i := i + 1;
    }
    assert vmas[..i] == vmas;
    ok := true;
    ForkDone(s, k.S(), parent, vmas);
    forall j: nat, v: nat | j < |vmas| && v in PagesOf(vmas[j]) && Pte(s.mem, parent, v).present
      ensures !Pte(k.mem, child, v).rw && Pte(k.mem, child, v).cow == (vmas[j].flags / 2 % 2 == 1)
    {
      ForkedArea(s, k.S(), parent, child, vmas, j, v);
    }
  }

  lemma PageWritable(vmas: seq<Vma>, k: nat, v: nat)
    requires VmasOk(vmas) && k < |vmas| && v in PagesOf(vmas[k])
    ensures v in Pages(vmas) && (v in WritablePages(vmas) <==> Writable(vmas[k]))
  {
    var n := |vmas| - 1;
    var rest := vmas[..n];
    assert forall j :: 0 <= j < n ==> rest[j] == vmas[j];
    if k < n {
      PageWritable(rest, k, v);
    } else {
      PagesDisjoint(rest, vmas[n]);
      WritableSubset(rest);
    }
  }

  lemma WritableSubset(vmas: seq<Vma>)
    ensures WritablePages(vmas) <= Pages(vmas)
  {
    if vmas != [] {
      WritableSubset(vmas[..|vmas| - 1]);
    }
  }

  /** What fork leaves in the entries of one area, by bit 1 of its flags: the child maps the parent's frames
      without RW, and the area's pages are copy-on-write on both sides exactly when the bit is set. */
  lemma ForkedArea(s: Mem, s': Mem, parent: nat, child: nat, vmas: seq<Vma>, j: nat, v: nat)
    requires VmasOk(vmas) && ForkStep(s, s', parent, child, vmas) && j < |vmas| && v in PagesOf(vmas[j])
    ensures v < USER_PAGES
    ensures var w, mine, its := Pte(s.mem, parent, v), Pte(s'.mem, parent, v), Pte(s'.mem, child, v);
      if w.present then
        && its.present && its.user && !its.rw && its.frame == mine.frame == w.frame
        && its.cow == (vmas[j].flags / 2 % 2 == 1)
        && (vmas[j].flags / 2 % 2 == 1 ==> mine.present && mine.cow && !mine.rw)
        && (vmas[j].flags / 2 % 2 == 0 ==> mine == w)
      else its == ZERO && mine == w
  {
    PageWritable(vmas, j, v);
    assert VmaOk(vmas[j]);
    hide Pages, WritablePages, Pte, VmasOk;
  }

  lemma SpanNonNegative(vmas: seq<Vma>)
    requires forall k :: 0 <= k < |vmas| ==> VmaOk(vmas[k])
    ensures 0 <= Span(vmas)
  {
    if vmas != [] {
      SpanNonNegative(vmas[..|vmas| - 1]);
      assert VmaOk(vmas[|vmas| - 1]);
    }
  }

  lemma SpanMonotonic(vmas: seq<Vma>, i: nat)
    requires i < |vmas| && forall k :: 0 <= k < |vmas| ==> VmaOk(vmas[k])
    ensures Span(vmas[..i]) + NumPages(vmas[i]) <= Span(vmas)
  {
    if i == |vmas| - 1 {
      assert vmas[..i + 1] == vmas;
    } else {
      var rest := vmas[..|vmas| - 1];
      SpanMonotonic(rest, i);
      assert rest[..i] == vmas[..i];
    }
  }
}
