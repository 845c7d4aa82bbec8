/** Page faults (sys/isr.c) and unmapping (sys/cleanup.c) on one address space. */
module Faults {
  import opened Words
  import opened Memory
  import opened Updates
  import opened KernelMemory
  import opened Processes

  // ---------- copy on write ----------

  /** copy_on_write_handler with two sharers: the process gets a writable copy in frame `p`. */
  ghost predicate CowCopied(s: Mem, s': Mem, r: nat, v: nat, p: nat) {
    var f := Pte(s.mem, r, v).frame;
    && SameContents(s, s') && OneKey(s, s', r, v, LeafWord(p, true, false)) && TablesStay(s, s')
    && p < |s.role| && s.role[p] == Unused && s'.role[p] == Data && f < |s.mem| && s.role[f] == Data
    && s'.mem[p] == s.mem[f] && s'.refs[p] == 1 && CountChanges(s, s', f, -1)
  }

  /** copy_on_write_handler otherwise: the entry becomes writable in place. */
  ghost predicate CowUnlocked(s: Mem, s': Mem, r: nat, v: nat) {
    && SameContents(s, s') && OneKey(s, s', r, v, MakeWritable(Pte(s.mem, r, v)))
    && s'.role == s.role && s'.refs == s.refs && s'.free == s.free
  }

  /** What copy_on_write_handler does, by the branch its tests select. */
  ghost predicate CowStep(s: Mem, s': Mem, r: nat, v: nat) {
    var w := Pte(s.mem, r, v);
    && Inv(s') && w.frame < |s.refs|
    && if !w.cow then s' == s
       else if s.refs[w.frame] == 2 then exists p: nat :: CowCopied(s, s', r, v, p)
       else CowUnlocked(s, s', r, v)
  }

  lemma CopyKeys(s: Mem, s1: Mem, s2: Mem, s3: Mem, s4: Mem, r: nat, v: nat, w: Word)
    requires OneKey(s, s1, r, v, ZERO) && SameMappings(s1, s2) && SameRoots(s1, s2)
    requires OneKey(s2, s3, r, v, w) && SameMappings(s3, s4) && SameRoots(s3, s4)
    ensures OneKey(s, s4, r, v, w)
  {
    forall q: nat, u: nat | IsRoot(s, q) && u < USER_PAGES
      ensures Pte(s4.mem, q, u) == if q == r && u == v then w else Pte(s.mem, q, u)
    {
      assert IsRoot(s1, q) && IsRoot(s2, q) && IsRoot(s3, q);
      assert Pte(s1.mem, q, u) == if q == r && u == v then ZERO else Pte(s.mem, q, u);
      assert Pte(s2.mem, q, u) == Pte(s1.mem, q, u);
    }
  }

  lemma CopyFrames(s: Mem, s1: Mem, s2: Mem, s3: Mem, s4: Mem, f: nat, p: nat)
    requires FrameDropped(s, s1, f) && s.refs[f] == 2 && f < |s.mem| && s.role[f] == Data
    requires s1.free != [] && p == s1.free[|s1.free| - 1] && p < |s1.mem| && s1.role[p] == Unused && s2 == AllocS(s1)
    requires s2.refs[p] == 0
    requires SameContents(s2, s3) && CountChanges(s2, s3, p, 1) && TablesStay(s2, s3)
    requires s4 == Mem(s3.mem[p := s.mem[f]], s3.role, s3.refs, s3.free, s3.kernel)
    ensures SameContents(s, s4) && p < |s.role| && s.role[p] == Unused && s4.role[p] == Data
    ensures s4.mem[p] == s.mem[f] && s4.refs[p] == 1 && CountChanges(s, s4, f, -1) && TablesStay(s, s4)
  {
    TablesStayTransitive(s, s2, s4);
  }

  lemma AllocSame(s: Mem)
    requires Inv(s) && 0 < |s.free|
    ensures s.free[|s.free| - 1] < |s.mem| && s.role[s.free[|s.free| - 1]] == Unused
    ensures Inv(AllocS(s)) && SameMappings(s, AllocS(s)) && SameRoots(s, AllocS(s))
    ensures AllocS(s).refs[s.free[|s.free| - 1]] == 0 && AllocS(s).role[s.free[|s.free| - 1]] == Data
    ensures |AllocS(s).mem| == |s.mem|
  {
    AllocKeeps(s);
    forall q: nat, u: nat | IsRoot(s, q) && u < USER_PAGES ensures Pte(AllocS(s).mem, q, u) == Pte(s.mem, q, u) {
      AllocPath(s, q, u);
    }
  }

  /** The two-sharer branch, step by step: unmap, take a frame, map it, copy the bytes. */
  lemma CopyEffect(s: Mem, s3: Mem, s4: Mem, r: nat, v: nat, p: nat)
    requires Inv(s) && Sized(s) && IsRoot(s, r) && v < USER_PAGES && Pte(s.mem, r, v).present
    requires Pte(s.mem, r, v).frame < |s.refs| && s.refs[Pte(s.mem, r, v).frame] == 2
    requires 0 < |RemoveS(s, r, v).free| && p == RemoveS(s, r, v).free[|RemoveS(s, r, v).free| - 1]
    requires OneKey(AllocS(RemoveS(s, r, v)), s3, r, v, LeafWord(p, true, false))
    requires SameContents(AllocS(RemoveS(s, r, v)), s3) && CountChanges(AllocS(RemoveS(s, r, v)), s3, p, 1)
    requires Inv(s3) && p < |s3.mem| && NewUnder(AllocS(RemoveS(s, r, v)), s3, r)
    requires s4 == Mem(s3.mem[p := s.mem[Pte(s.mem, r, v).frame]], s3.role, s3.refs, s3.free, s3.kernel)
    ensures Inv(s4) && CowCopied(s, s4, r, v, p)
  {
    hide Inv, OneKey, SameMappings, SameRoots, Pte, RemoveS;
    var f := Pte(s.mem, r, v).frame;
    var s1 := RemoveS(s, r, v);
    RemoveEffect(s, r, v);
    AllocSame(s1);
    NewUnderStay(AllocS(s1), s3, r);
    CopyFrames(s, s1, AllocS(s1), s3, s4, f, p);
    DataContents(s3, p, s.mem[f]);
    CopyKeys(s, s1, AllocS(s1), s3, s4, r, v, LeafWord(p, true, false));
  }

  /** Overwriting a data frame. */
  lemma DataContents(s: Mem, p: nat, page: Page)
    requires Inv(s) && p < |s.role| && s.role[p] == Data
    ensures Inv(Mem(s.mem[p := page], s.role, s.refs, s.free, s.kernel))
    ensures SameMappings(s, Mem(s.mem[p := page], s.role, s.refs, s.free, s.kernel))
    ensures SameRoots(s, Mem(s.mem[p := page], s.role, s.refs, s.free, s.kernel))
  {
    var s' := Mem(s.mem[p := page], s.role, s.refs, s.free, s.kernel);
    assert DirsOk(s') by {
      forall f, i | 0 <= f < |s'.role| && 0 <= i < 512 && IsDir(s'.role[f]) && !(s'.role[f].Root? && i == KERNEL_SLOT)
        ensures DirEntryOk(s', f, i)
      {
        assert DirEntryOk(s, f, i);
      }
    }
    assert ParentsOk(s') by {
      forall g | 0 <= g < |s'.role| && s'.role[g].Table? ensures ParentOk(s', g) { assert ParentOk(s, g); }
    }
    assert LeavesOk(s') by {
      forall t, i | 0 <= t < |s'.role| && 0 <= i < 512 && IsLeafTable(s'.role[t]) ensures LeafOk(s', t, i) {
        assert LeafOk(s, t, i);
      }
    }
    forall f: nat | f < |s.role| ensures Slots(s', f) == Slots(s, f) {
      forall t: nat, i: nat | t < |s.role| && i < 512 ensures MapsTo(s', t, i, f) <==> MapsTo(s, t, i, f) {}
      SlotsSame(s, s', f);
    }
    forall q: nat, u: nat | IsRoot(s, q) && u < USER_PAGES ensures Pte(s'.mem, q, u) == Pte(s.mem, q, u) {
      SamePath(s, s'.mem, q, u);
      PathFacts(s, q, u);
    }
  }

  /** The two-sharer branch of copy_on_write_handler. */
  method CopyPage(k: Kernel, r: nat, v: nat) returns (ok: bool)
    requires k.Valid() && IsRoot(k.S(), r) && v < USER_PAGES && Pte(k.mem, r, v).present && 2 <= |k.free|
    requires Pte(k.mem, r, v).frame < |k.refCount| && k.refCount[Pte(k.mem, r, v).frame] == 2
    modifies k
    ensures ok && k.Valid() && exists p: nat :: CowCopied(old(k.S()), k.S(), r, v, p)
  {
    hide Inv, ListOk, Grown, NewUnder, CowCopied, OneKey, SameContents, RemoveS, AllocS, Pte, Missing;
    ghost var s := k.S();
    PresentSlot(s, r, v);
    RemoveEffect(s, r, v);
    AllocSame(RemoveS(s, r, v));
    var buffer := k.mem[Pte(k.mem, r, v).frame];
    ok := k.PageRemove(r, v);
    var p;
    ok, p := k.PageAlloc();
    EmptySlot(s, k.S(), r, v);
    ok := k.PageInsert(r, v, p, true, false);
    ghost var s3 := k.S();
    k.mem := k.mem[p := buffer];
    CopyEffect(s, s3, k.S(), r, v, p);
  }

  /** A present entry needs no new tables. */
  lemma PresentSlot(s: Mem, r: nat, v: nat)
    requires Inv(s) && IsRoot(s, r) && v < USER_PAGES && Pte(s.mem, r, v).present
    ensures Missing(s.mem, r, v) == 0 && 0 <= Pt(s.mem, r, v) < |s.mem|
  {
    PathFacts(s, r, v);
  }

  /** After the removal the tables are still there and the entry is empty. */
  lemma EmptySlot(s: Mem, s2: Mem, r: nat, v: nat)
    requires Inv(s) && IsRoot(s, r) && v < USER_PAGES && Pte(s.mem, r, v).present && 0 < |RemoveS(s, r, v).free|
    requires s2 == AllocS(RemoveS(s, r, v))
    ensures IsRoot(s2, r) && Pte(s2.mem, r, v) == ZERO
    ensures Missing(s2.mem, r, v) == 0
  {
    RemoveEffect(s, r, v);
    AllocSame(RemoveS(s, r, v));
    assert Pte(RemoveS(s, r, v).mem, r, v) == ZERO;
    RemovePath(s, r, v);
  }

  lemma RemovePath(s: Mem, r: nat, v: nat)
    requires Inv(s) && Sized(s) && IsRoot(s, r) && v < USER_PAGES
    requires Pte(s.mem, r, v).present && 0 < |RemoveS(s, r, v).free|
    ensures Missing(AllocS(RemoveS(s, r, v)).mem, r, v) == 0
  {
    hide Inv, Pt, Missing;
    var s1 := RemoveS(s, r, v);
    RemoveEffect(s, r, v);
    RemoveDirs(s, r, v);
    PathKept(s, s1, r, v);
    AllocSame(s1);
    PathKept(s1, AllocS(s1), r, v);
  }

  lemma RemoveDirs(s: Mem, r: nat, v: nat)
    requires Inv(s) && IsRoot(s, r) && v < USER_PAGES && Pte(s.mem, r, v).present
    ensures Sized(s) && |RemoveS(s, r, v).mem| == |s.mem| && Pt(s.mem, r, v) != -1
    ensures forall f :: 0 <= f < |s.mem| && IsDir(s.role[f]) ==>
      RemoveS(s, r, v).mem[f] == s.mem[f] && RemoveS(s, r, v).role[f] == s.role[f]
  {
    RemoveParts(s, r, v);
    PathFacts(s, r, v);
  }

  /** Directories that keep their words keep the path. */
  lemma PathKept(s: Mem, s': Mem, r: nat, v: nat)
    requires Inv(s) && IsRoot(s, r) && v < USER_PAGES && Pt(s.mem, r, v) != -1 && |s'.mem| == |s.mem|
    requires forall f :: 0 <= f < |s.mem| && IsDir(s.role[f]) ==> s'.mem[f] == s.mem[f]
    ensures Pt(s'.mem, r, v) == Pt(s.mem, r, v) && Missing(s'.mem, r, v) == 0
  {
    PathFacts(s, r, v);
    SamePath(s, s'.mem, r, v);
  }

  /** copy_on_write_handler, called for a write to a present page. */
  method CopyOnWrite(k: Kernel, r: nat, v: nat) returns (ok: bool)
    requires k.Valid() && IsRoot(k.S(), r) && v < USER_PAGES && Pte(k.mem, r, v).present && 2 <= |k.free|
    modifies k
    ensures ok && k.Valid() && CowStep(old(k.S()), k.S(), r, v)
  {
    hide Inv, ListOk, Grown, NewUnder, CowCopied, OneKey, SameContents, CountChanges, Missing, Pte, Pt;
    ghost var s := k.S();
    PresentSlot(s, r, v);
    RemarkContents(s, r, v, MakeWritable(Pte(s.mem, r, v)));
    var t, i;
    ok, t, i := k.Pml4Walk(r, v);
    WalkedWord(s, k.S(), r, v);
    var w := k.mem[t][i];
    if w.cow {
      if k.refCount[w.frame] == 2 {
        ok := CopyPage(k, r, v);
      } else {
        RemarkEffect(s, r, v, MakeWritable(w));
        k.mem := k.mem[t := k.mem[t][i := MakeWritable(w)]];
        assert k.S() == SetWord(s, t, i, MakeWritable(w));
      }
    }
  }

  // ---------- demand allocation ----------

  /** An entry for a zeroed frame that was free before and is mapped once now. */
  ghost predicate FreshPage(s: Mem, s': Mem, w: Word, rw: bool) {
    && Sized(s) && Sized(s') && |s'.mem| == |s.mem| && w.frame < |s.role|
    && s.role[w.frame] == Unused && s'.role[w.frame] == Data
    && s'.mem[w.frame] == Zeros() && s'.refs[w.frame] == 1 && w == LeafWord(w.frame, rw, false)
  }

  /** allocatePages after the pages in `done`: the unmapped ones got fresh pages, nothing else moved. */
  ghost predicate Filled(s: Mem, s': Mem, r: nat, done: set<nat>, rw: bool) {
    && SameRoots(s, s') && SameContents(s, s') && TablesStay(s, s')
    && (forall g :: 0 <= g < |s.role| && s'.role[g] == Unused ==> s.role[g] == Unused)
    && (forall g :: 0 <= g < |s.role| && s.role[g] == Data ==> s'.refs[g] == s.refs[g])
    && forall q: nat, u: nat :: IsRoot(s, q) && u < USER_PAGES ==>
         if q == r && u in done && !Pte(s.mem, q, u).present then FreshPage(s, s', Pte(s'.mem, q, u), rw)
         else Pte(s'.mem, q, u) == Pte(s.mem, q, u)
  }

  lemma FilledStart(s: Mem, r: nat, first: nat, rw: bool)
    requires Inv(s)
    ensures Filled(s, s, r, Range(first, 0), rw)
  {
  }

  lemma FilledStep(s: Mem, s1: Mem, s2: Mem, r: nat, done: set<nat>, v: nat, rw: bool)
    requires Filled(s, s1, r, done, rw) && Filled(s1, s2, r, {v}, rw) && v !in done && v < USER_PAGES
    ensures Filled(s, s2, r, done + {v}, rw)
  {
    TablesStayTransitive(s, s1, s2);
    forall q: nat, u: nat | IsRoot(s, q) && u < USER_PAGES
      ensures if q == r && u in done + {v} && !Pte(s.mem, q, u).present then FreshPage(s, s2, Pte(s2.mem, q, u), rw)
              else Pte(s2.mem, q, u) == Pte(s.mem, q, u)
    {
      assert IsRoot(s1, q);
      assert if q == r && u in done && !Pte(s.mem, q, u).present then FreshPage(s, s1, Pte(s1.mem, q, u), rw)
             else Pte(s1.mem, q, u) == Pte(s.mem, q, u);
      assert if q == r && u in {v} && !Pte(s1.mem, q, u).present then FreshPage(s1, s2, Pte(s2.mem, q, u), rw)
             else Pte(s2.mem, q, u) == Pte(s1.mem, q, u);
    }
  }

  lemma FillNothing(s: Mem, s': Mem, r: nat, v: nat, rw: bool)
    requires Grown(s, s') && NewUnder(s, s', r) && IsRoot(s, r) && v < USER_PAGES && Pte(s.mem, r, v).present
    ensures Filled(s, s', r, {v}, rw)
  {
    NewUnderStay(s, s', r);
    forall q: nat, u: nat | IsRoot(s, q) && u < USER_PAGES ensures Pte(s'.mem, q, u) == Pte(s.mem, q, u) {}
  }

  lemma FillEffect(s: Mem, s1: Mem, s3: Mem, r: nat, v: nat, rw: bool)
    requires Grown(s, s1) && IsRoot(s, r) && v < USER_PAGES && !Pte(s.mem, r, v).present && 0 < |s1.free|
    requires OneKey(AllocS(s1), s3, r, v, LeafWord(s1.free[|s1.free| - 1], rw, false))
    requires SameContents(AllocS(s1), s3) && CountChanges(AllocS(s1), s3, s1.free[|s1.free| - 1], 1)
    requires NewUnder(s, s1, r) && NewUnder(AllocS(s1), s3, r)
    ensures Filled(s, s3, r, {v}, rw)
  {
    hide Inv, Pte, NewUnder, AllocS, SameRoots, CountChanges, Grown, TablesStay, FreshPage;
    FillStays(s, s1, s3, r, v, rw);
    FillKeys(s, s1, s3, r, v, rw);
    FillFrames(s, s1, s3, r);
  }

  lemma FillFrames(s: Mem, s1: Mem, s3: Mem, r: nat)
    requires Grown(s, s1) && IsRoot(s, r) && 0 < |s1.free| && |AllocS(s1).mem| == |s3.mem|
    requires SameRoots(AllocS(s1), s3) && SameContents(AllocS(s1), s3) && NewUnder(AllocS(s1), s3, r)
    requires CountChanges(AllocS(s1), s3, s1.free[|s1.free| - 1], 1)
    ensures SameRoots(s, s3) && SameContents(s, s3)
    ensures forall g :: 0 <= g < |s.role| && s3.role[g] == Unused ==> s.role[g] == Unused
    ensures forall g :: 0 <= g < |s.role| && s.role[g] == Data ==> s3.refs[g] == s.refs[g]
  {
    AllocSame(s1);
    AllocKeeps(s1);
    hide Pte;
  }

  lemma FillStays(s: Mem, s1: Mem, s3: Mem, r: nat, v: nat, rw: bool)
    requires Grown(s, s1) && IsRoot(s, r) && 0 < |s1.free| && |AllocS(s1).mem| == |s3.mem|
    requires NewUnder(s, s1, r) && NewUnder(AllocS(s1), s3, r) && SameRoots(AllocS(s1), s3)
    ensures TablesStay(s, s3)
  {
    NewUnderStay(s, s1, r);
    AllocSame(s1);
    AllocKeeps(s1);
    NewUnderStay(AllocS(s1), s3, r);
    TablesStayTransitive(s, s1, AllocS(s1));
    TablesStayTransitive(s, AllocS(s1), s3);
  }

  lemma FillKeys(s: Mem, s1: Mem, s3: Mem, r: nat, v: nat, rw: bool)
    requires Grown(s, s1) && IsRoot(s, r) && v < USER_PAGES && !Pte(s.mem, r, v).present && 0 < |s1.free|
    requires OneKey(AllocS(s1), s3, r, v, LeafWord(s1.free[|s1.free| - 1], rw, false))
    requires SameContents(AllocS(s1), s3) && CountChanges(AllocS(s1), s3, s1.free[|s1.free| - 1], 1)
    ensures forall q: nat, u: nat :: IsRoot(s, q) && u < USER_PAGES ==>
      if q == r && u in {v} && !Pte(s.mem, q, u).present then FreshPage(s, s3, Pte(s3.mem, q, u), rw)
      else Pte(s3.mem, q, u) == Pte(s.mem, q, u)
  {
    AllocSame(s1);
    AllocKeeps(s1);
    hide Pte, NewUnder;
    forall q: nat, u: nat | IsRoot(s, q) && u < USER_PAGES
      ensures if q == r && u in {v} && !Pte(s.mem, q, u).present then FreshPage(s, s3, Pte(s3.mem, q, u), rw)
              else Pte(s3.mem, q, u) == Pte(s.mem, q, u)
    {
      assert Pte(s1.mem, q, u) == Pte(s.mem, q, u);
      assert Pte(AllocS(s1).mem, q, u) == Pte(s1.mem, q, u);
    }
  }

  /** The loop body of allocatePages. */
  method AllocatePage(k: Kernel, r: nat, v: nat, rw: bool) returns (ok: bool)
    requires k.Valid() && IsRoot(k.S(), r) && v < USER_PAGES
    modifies k
    ensures 4 < |old(k.free)| ==> ok
    ensures ok ==> k.Valid() && Filled(old(k.S()), k.S(), r, {v}, rw) && |old(k.free)| <= |k.free| + 4
  {
    hide Inv, ListOk, Grown, NewUnder, OneKey, SameContents, CountChanges, AllocS, Pte, Pt, Missing, Filled;
    ghost var s := k.S();
    var t, i;
    ok, t, i := k.Pml4Walk(r, v);
    if !ok {
      return;
    }
    ghost var s1 := k.S();
    WalkedWord(s, s1, r, v);
    GrownMapping(s, s1, r, v);
    if k.mem[t][i] != ZERO {
      FillNothing(s, s1, r, v, rw);
    } else {
      var p;
      ok, p := k.PageAlloc();
      if ok {
        WalkedTables(s1, r, v);
        AllocSame(s1);
        AllocMapping(s1, r, v);
        ok := k.PageInsert(r, v, p, rw, false);
        FillEffect(s, s1, k.S(), r, v, rw);
      }
    }
  }

  /** A walk right after a walk needs no new tables, and page_alloc does not change that. */
  lemma WalkedTables(s: Mem, r: nat, v: nat)
    requires Inv(s) && IsRoot(s, r) && v < USER_PAGES && Pt(s.mem, r, v) != -1 && 0 < |s.free|
    ensures Missing(AllocS(s).mem, r, v) == 0
  {
    AllocSame(s);
    PathKept(s, AllocS(s), r, v);
  }

  lemma AllocMapping(s: Mem, r: nat, v: nat)
    requires Inv(s) && IsRoot(s, r) && v < USER_PAGES && 0 < |s.free|
    ensures IsRoot(AllocS(s), r) && Pte(AllocS(s).mem, r, v) == Pte(s.mem, r, v)
    ensures |AllocS(s).free| == |s.free| - 1
  {
    AllocSame(s);
  }

  /** allocatePages: after it every page of the descriptor is mapped. */
  method AllocatePages(k: Kernel, r: nat, m: Vma) returns (ok: bool)
    requires k.Valid() && IsRoot(k.S(), r) && VmaOk(m)
    modifies k
    ensures 4 * NumPages(m) < |old(k.free)| ==> ok
    ensures ok ==> k.Valid() && Filled(old(k.S()), k.S(), r, PagesOf(m), Writable(m))
    ensures ok ==> forall v: nat :: v in PagesOf(m) && !Pte(old(k.S()).mem, r, v).present ==>
      Pte(k.mem, r, v).present && Pte(k.mem, r, v).rw == (m.flags / 2 % 2 == 1)
  {
    hide Inv, ListOk, Filled, Pte, VmaOk, NumPages, PageNumber, Writable, Range;
    ghost var s := k.S();
    var first, n, i := PageNumber(m.start), NumPages(m), 0;
    FilledStart(s, r, first, Writable(m));
    PagesNonNegative(m);
    while i < n
      invariant 0 <= i <= n && k.Valid() && IsRoot(k.S(), r)
      invariant |s.free| <= |k.free| + 4 * i
      invariant Filled(s, k.S(), r, Range(first, i), Writable(m))
    {
      PageAddress(m, i);
      ghost var s1 := k.S();
      ok := AllocatePage(k, r, PageNumber(m.start + i * PAGE_SIZE), Writable(m));
      if !ok {
        return;
      }
      FilledMore(s, s1, k.S(), r, first, i, Writable(m));
      i := i + 1;
    }
    ok := true;
    FilledArea(s, k.S(), r, m);
  }

  /** The new entries of an area, by bit 1 of its flags. */
  lemma FilledArea(s: Mem, s': Mem, r: nat, m: Vma)
    requires VmaOk(m) && IsRoot(s, r) && Filled(s, s', r, PagesOf(m), Writable(m))
    ensures forall v: nat :: v in PagesOf(m) && !Pte(s.mem, r, v).present ==>
      && Pte(s'.mem, r, v).present && Pte(s'.mem, r, v).user && !Pte(s'.mem, r, v).cow
      && Pte(s'.mem, r, v).rw == (m.flags / 2 % 2 == 1)
  {
    hide Pte, SameRoots, SameContents, TablesStay;
  }

  lemma FilledMore(s: Mem, s1: Mem, s2: Mem, r: nat, first: nat, i: nat, rw: bool)
    requires Filled(s, s1, r, Range(first, i), rw) && Filled(s1, s2, r, {first + i}, rw) && IsRoot(s, r) &&
      first + i < USER_PAGES
    ensures Filled(s, s2, r, Range(first, i + 1), rw) && IsRoot(s2, r)
  {
    hide Filled, Pte;
    assert Range(first, i) + {first + i} == Range(first, i + 1);
    FilledStep(s, s1, s2, r, Range(first, i), first + i, rw);
    FilledRoot(s, s2, r, Range(first, i + 1), rw);
  }

  lemma PagesNonNegative(m: Vma)
    requires VmaOk(m)
    ensures 0 <= NumPages(m)
  {
  }

  lemma FilledRoot(s: Mem, s': Mem, r: nat, done: set<nat>, rw: bool)
    requires Filled(s, s', r, done, rw) && IsRoot(s, r)
    ensures IsRoot(s', r)
  {
  }
}
