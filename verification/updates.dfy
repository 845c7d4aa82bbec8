/** The state changes sys/page.c is made of, and what each keeps. */
module Updates {
  import opened Words
  import opened Memory

  /** No process sees a different page table. */
  ghost predicate SameMappings(s: Mem, s': Mem) {
    forall r: nat, v: nat :: IsRoot(s, r) && v < USER_PAGES ==> Pte(s'.mem, r, v) == Pte(s.mem, r, v)
  }

  /** Same roots as before. */
  ghost predicate SameRoots(s: Mem, s': Mem) {
    forall r: nat :: IsRoot(s', r) <==> IsRoot(s, r)
  }

  /** User pages and kernel frames keep their contents and uses. */
  ghost predicate SameContents(s: Mem, s': Mem) {
    && Sized(s) && Sized(s')
    && |s'.mem| == |s.mem| && s'.kernel == s.kernel
    && (forall f :: 0 <= f < |s.role| && (s.role[f] == Data || s.role[f] == Reserved)
          ==> s'.role[f] == s.role[f] && s'.mem[f] == s.mem[f])
  }

  function SetWord(s: Mem, f: nat, i: nat, w: Word): Mem
    requires f < |s.mem| && i < 512
  {
    Mem(s.mem[f := s.mem[f][i := w]], s.role, s.refs, s.free, s.kernel)
  }

  // ---------- taking a frame off the free list ----------

  /** A store into word `i` of a user page. */
  function StoreS(s: Mem, f: nat, i: nat, word: Word): Mem
    requires f < |s.mem| && i < 512
  {
    Mem(s.mem[f := s.mem[f][i := word]], s.role, s.refs, s.free, s.kernel)
  }

  /** page_alloc: the head of the list, zeroed. */
  function AllocS(s: Mem): Mem
    requires Sized(s) && 0 < |s.free|
  {
    var p := s.free[|s.free| - 1];
    if p < |s.mem| then Mem(s.mem[p := Zeros()], s.role[p := Data], s.refs, s.free[..|s.free| - 1], s.kernel)
    else s
  }

  lemma SlotsIn(s: Mem, f: nat, t: nat, i: nat)
    requires Sized(s)
    ensures (t, i) in Slots(s, f) <==> t < |s.role| && i < 512 && MapsTo(s, t, i, f)
  {
  }

  lemma SlotsSame(s: Mem, s': Mem, f: nat)
    requires Sized(s) && Sized(s')
    requires forall t: nat, i: nat :: (t < |s.role| && i < 512 && MapsTo(s, t, i, f))
                                  <==> (t < |s'.role| && i < 512 && MapsTo(s', t, i, f))
    ensures Slots(s', f) == Slots(s, f)
  {
  }

  /** A frame that is not in use for data is mapped nowhere. */
  lemma UnmappedUnlessData(s: Mem, f: nat)
    requires Inv(s) && f < |s.role| && s.role[f] != Data
    ensures Slots(s, f) == {}
  {
    forall t: nat, i: nat | t < |s.role| && i < 512 ensures !MapsTo(s, t, i, f) {
      if IsLeafTable(s.role[t]) {
        assert LeafOk(s, t, i);
      }
    }
  }

  lemma AllocFree(s: Mem)
    requires Sized(s) && FreeOk(s) && 0 < |s.free|
    ensures s.free[|s.free| - 1] < |s.mem| && s.role[s.free[|s.free| - 1]] == Unused
    ensures s.refs[s.free[|s.free| - 1]] == 0
    ensures FreeOk(AllocS(s))
  {
    var p := s.free[|s.free| - 1];
    assert p in s.free;
    var s' := AllocS(s);
    assert forall f :: f in s'.free ==> f in s.free && f != p;
    forall f | f in s.free && f != p ensures f in s'.free {
      var k :| 0 <= k < |s.free| && s.free[k] == f;
      assert s'.free[k] == f;
    }
  }

  lemma AllocTables(s: Mem)
    requires Inv(s) && 0 < |s.free| && s.free[|s.free| - 1] < |s.mem| && s.role[s.free[|s.free| - 1]] == Unused
    ensures DirsOk(AllocS(s)) && RootsOk(AllocS(s)) && ParentsOk(AllocS(s)) && LeavesOk(AllocS(s))
  {
    var s' := AllocS(s);
    assert DirsOk(s') by {
      forall f, i | 0 <= f < |s'.role| && 0 <= i < 512 && IsDir(s'.role[f]) && !(s'.role[f].Root? && i == KERNEL_SLOT)
        ensures DirEntryOk(s', f, i)
      {
        assert DirEntryOk(s, f, i);
      }
    }
    assert ParentsOk(s') by {
      forall g | 0 <= g < |s'.role| && s'.role[g].Table? ensures ParentOk(s', g) {
        assert ParentOk(s, g);
      }
    }
    assert LeavesOk(s') by {
      forall t, i | 0 <= t < |s'.role| && 0 <= i < 512 && IsLeafTable(s'.role[t]) ensures LeafOk(s', t, i) {
        assert LeafOk(s, t, i);
      }
    }
  }

  lemma AllocSlots(s: Mem)
    requires Inv(s) && 0 < |s.free| && s.free[|s.free| - 1] < |s.mem| && s.role[s.free[|s.free| - 1]] == Unused
    ensures Sized(AllocS(s)) && forall f: nat :: f < |s.role| ==> Slots(AllocS(s), f) == Slots(s, f)
  {
    var s' := AllocS(s);
    forall f: nat | f < |s.role| ensures Slots(s', f) == Slots(s, f) {
      forall t: nat, i: nat | t < |s.role| && i < 512 ensures MapsTo(s', t, i, f) <==> MapsTo(s, t, i, f) {}
      SlotsSame(s, s', f);
    }
  }

  lemma AllocKeeps(s: Mem)
    requires Inv(s) && 0 < |s.free|
    ensures s.free[|s.free| - 1] < |s.mem| && s.role[s.free[|s.free| - 1]] == Unused
    ensures Inv(AllocS(s)) && SameRoots(s, AllocS(s)) && SameContents(s, AllocS(s))
    ensures forall f: nat :: f < |s.role| ==> Slots(AllocS(s), f) == Slots(s, f)
    ensures Slots(s, s.free[|s.free| - 1]) == {} && AllocS(s).refs[s.free[|s.free| - 1]] == 0
  {
    AllocFree(s);
    AllocTables(s);
    AllocSlots(s);
    UnmappedUnlessData(s, s.free[|s.free| - 1]);
  }

  lemma AllocPath(s: Mem, r: nat, v: nat)
    requires Inv(s) && 0 < |s.free| && s.free[|s.free| - 1] < |s.mem|
    requires s.role[s.free[|s.free| - 1]] == Unused && IsRoot(s, r) && v < USER_PAGES
    ensures Pte(AllocS(s).mem, r, v) == Pte(s.mem, r, v)
  {
    PathFacts(s, r, v);
  }

  /** Leaving every directory alone leaves every walk alone. */
  lemma SamePath(s: Mem, mem': seq<Page>, r: nat, v: nat)
    requires Inv(s) && IsRoot(s, r) && v < USER_PAGES
    requires |mem'| == |s.mem| && forall f :: 0 <= f < |s.role| && IsDir(s.role[f]) ==> mem'[f] == s.mem[f]
    ensures Pt(mem', r, v) == Pt(s.mem, r, v)
  {
    PathFacts(s, r, v);
  }

  // ---------- hooking a fresh table into its parent ----------

  /** The allocating branch of a walk: count frame `p` once and store it in entry `i` of `f`. */
  function HookS(s: Mem, p: nat, f: nat, i: nat): Mem
    requires Sized(s) && p < |s.role| && f < |s.role| && i < 512
  {
    Mem(s.mem[f := s.mem[f][i := TableWord(p)]], s.role[p := ChildRole(s.role[f], f, i)],
        s.refs[p := s.refs[p] + 1], s.free, s.kernel)
  }

  ghost predicate CanHook(s: Mem, p: nat, f: nat, i: nat) {
    && Inv(s) && p < |s.role| && f < |s.role| && i < 512
    && s.role[p] == Data && s.refs[p] == 0 && s.mem[p] == Zeros()
    && IsDir(s.role[f]) && Level(s.role[f]) >= 2 && !(s.role[f].Root? && i == KERNEL_SLOT) && !s.mem[f][i].present
  }

  lemma HookTables(s: Mem, p: nat, f: nat, i: nat)
    requires CanHook(s, p, f, i) && Slots(s, p) == {}
    ensures Sized(HookS(s, p, f, i)) && ParentsOk(HookS(s, p, f, i)) && LeavesOk(HookS(s, p, f, i))
  {
    var s' := HookS(s, p, f, i);
    assert DirEntryOk(s, f, i);
    assert ParentsOk(s') by {
      forall g | 0 <= g < |s'.role| && s'.role[g].Table? ensures ParentOk(s', g) {
        if g != p {
          assert ParentOk(s, g);
        } else if s.role[f].Table? {
          assert ParentOk(s, f);
        }
      }
    }
    assert LeavesOk(s') by {
      forall t, j | 0 <= t < |s'.role| && 0 <= j < 512 && IsLeafTable(s'.role[t]) ensures LeafOk(s', t, j) {
        if t != p {
          assert LeafOk(s, t, j);
          SlotsIn(s, p, t, j);
        }
      }
    }
  }

  lemma HookDirs(s: Mem, p: nat, f: nat, i: nat)
    requires CanHook(s, p, f, i)
    ensures Sized(HookS(s, p, f, i)) && DirsOk(HookS(s, p, f, i))
  {
    var s' := HookS(s, p, f, i);
    forall g, j | 0 <= g < |s'.role| && 0 <= j < 512 && IsDir(s'.role[g]) && !(s'.role[g].Root? && j == KERNEL_SLOT)
      ensures DirEntryOk(s', g, j)
    {
      if g != p && !(g == f && j == i) {
        assert DirEntryOk(s, g, j);
      }
    }
  }

  lemma HookKeeps(s: Mem, p: nat, f: nat, i: nat)
    requires CanHook(s, p, f, i)
    ensures Inv(HookS(s, p, f, i))
  {
    var s' := HookS(s, p, f, i);
    assert Slots(s, p) == {};
    HookMapsTo(s, p, f, i);
    HookTables(s, p, f, i);
    HookDirs(s, p, f, i);
    forall g: nat | g < |s.role| && g != p ensures Slots(s', g) == Slots(s, g) {
      SlotsSame(s, s', g);
    }
  }

  lemma HookMapsTo(s: Mem, p: nat, f: nat, i: nat)
    requires CanHook(s, p, f, i)
    ensures Sized(HookS(s, p, f, i))
    ensures forall g: nat, t: nat, j: nat :: t < |s.role| && j < 512 ==>
      (MapsTo(HookS(s, p, f, i), t, j, g) <==> MapsTo(s, t, j, g))
  {
  }

  lemma HookPath(s: Mem, p: nat, f: nat, i: nat, r: nat, v: nat)
    requires CanHook(s, p, f, i) && IsRoot(s, r) && v < USER_PAGES
    ensures Pte(HookS(s, p, f, i).mem, r, v) == Pte(s.mem, r, v)
  {
    var mem' := HookS(s, p, f, i).mem;
    PathFacts(s, r, v);
    assert mem'[p] == Zeros();
    if Pdpt(mem', r, v) == p {
    } else if Pd(mem', r, v) == p {
    } else if Pt(mem', r, v) == p {
    }
  }

  // ---------- leaf entries ----------

  ghost predicate IsLeafSlot(s: Mem, t: nat, i: nat) {
    t < |s.role| && i < 512 && IsLeafTable(s.role[t])
  }

  /** Changing one leaf entry changes the entry of one page number. */
  lemma LeafPath(s: Mem, s': Mem, t: nat, i: nat, r: nat, v: nat)
    requires Inv(s) && IsLeafSlot(s, t, i) && IsRoot(s, r) && v < USER_PAGES
    requires |s'.mem| == |s.mem| && forall f :: 0 <= f < |s.mem| && s.role[f].Table? && f != t ==> s'.mem[f] == s.mem[f]
    requires forall f :: 0 <= f < |s.mem| && s.role[f].Root? ==> s'.mem[f] == s.mem[f]
    requires forall j :: 0 <= j < 512 && j != i ==> s'.mem[t][j] == s.mem[t][j]
    ensures Pte(s'.mem, r, v) == if Pt(s.mem, r, v) == t && I1(v) == i then s'.mem[t][i] else Pte(s.mem, r, v)
  {
    SamePath(s, s'.mem, r, v);
    PathFacts(s, r, v);
  }

  /** page_insert on an empty entry. */
  function MapS(s: Mem, t: nat, i: nat, w: Word): Mem
    requires Sized(s) && t < |s.mem| && i < 512 && w.frame < |s.refs|
  {
    Mem(s.mem[t := s.mem[t][i := w]], s.role, s.refs[w.frame := s.refs[w.frame] + 1], s.free, s.kernel)
  }

  lemma MapKeeps(s: Mem, t: nat, i: nat, w: Word)
    requires Inv(s) && IsLeafSlot(s, t, i) && !s.mem[t][i].present
    requires w.present && w.user && w.frame < |s.role| && s.role[w.frame] == Data
    ensures Inv(MapS(s, t, i, w))
    ensures Slots(MapS(s, t, i, w), w.frame) == Slots(s, w.frame) + {(t, i)} && (t, i) !in Slots(s, w.frame)
  {
    var s' := MapS(s, t, i, w);
    OthersKeep(s, s', t, i);
    SlotsIn(s, w.frame, t, i);
    forall g: nat | g < |s.role| ensures Slots(s', g) == if g == w.frame then Slots(s, g) + {(t, i)} else Slots(s, g) {
      MapSlots(s, t, i, w, g);
    }
  }

  lemma MapSlots(s: Mem, t: nat, i: nat, w: Word, g: nat)
    requires Sized(s) && IsLeafSlot(s, t, i) && !s.mem[t][i].present && w.present && w.frame < |s.role| && g < |s.role|
    ensures Slots(MapS(s, t, i, w), g) == if g == w.frame then Slots(s, g) + {(t, i)} else Slots(s, g)
  {
    var s' := MapS(s, t, i, w);
    forall a: nat, b: nat ensures (a, b) in Slots(s', g) <==>
      (a, b) in Slots(s, g) || (g == w.frame && (a, b) == (t, i)) {
      SlotsIn(s', g, a, b);
      SlotsIn(s, g, a, b);
    }
  }

  /** What a change of one leaf entry, and of reference counts of data, cannot break. */
  lemma OthersKeep(s: Mem, s': Mem, t: nat, i: nat)
    requires Inv(s) && IsLeafSlot(s, t, i)
    requires Sized(s') && s'.role == s.role && s'.free == s.free && s'.kernel == s.kernel
    requires forall f :: 0 <= f < |s.mem| && f != t ==> s'.mem[f] == s.mem[f]
    requires forall j :: 0 <= j < 512 && j != i ==> s'.mem[t][j] == s.mem[t][j]
    requires LeafWordOk(s, s'.mem[t][i])
    requires forall f :: 0 <= f < |s.role| && s.role[f] != Data ==> s'.refs[f] == s.refs[f]
    ensures FreeOk(s') && DirsOk(s') && RootsOk(s') && ParentsOk(s') && LeavesOk(s')
  {
    assert DirsOk(s') by {
      forall g, j | 0 <= g < |s'.role| && 0 <= j < 512 && IsDir(s'.role[g]) && !(s'.role[g].Root? && j == KERNEL_SLOT)
        ensures DirEntryOk(s', g, j)
      {
        assert DirEntryOk(s, g, j);
      }
    }
    assert ParentsOk(s') by {
      forall g | 0 <= g < |s'.role| && s'.role[g].Table? ensures ParentOk(s', g) {
        assert ParentOk(s, g);
      }
    }
    assert LeavesOk(s') by {
      forall a, b | 0 <= a < |s'.role| && 0 <= b < 512 && IsLeafTable(s'.role[a]) ensures LeafOk(s', a, b) {
        assert LeafOk(s, a, b);
      }
    }
  }

  /** fork_handler and copy_on_write_handler rewriting the flags of one entry. */
  lemma RemarkKeeps(s: Mem, t: nat, i: nat, w: Word)
    requires Inv(s) && IsLeafSlot(s, t, i) && s.mem[t][i].present
    requires w.present && w.user && w.frame == s.mem[t][i].frame
    ensures Inv(SetWord(s, t, i, w))
    ensures forall g: nat :: g < |s.role| ==> Slots(SetWord(s, t, i, w), g) == Slots(s, g)
  {
    var s' := SetWord(s, t, i, w);
    assert LeafOk(s, t, i);
    OthersKeep(s, s', t, i);
    forall g: nat | g < |s.role| ensures Slots(s', g) == Slots(s, g) {
      forall a: nat, b: nat | a < |s.role| && b < 512 ensures MapsTo(s', a, b, g) <==> MapsTo(s, a, b, g) {}
      SlotsSame(s, s', g);
    }
  }

  // ---------- giving frames back ----------

  /** page_release. */
  function ReleaseS(s: Mem, p: nat): Mem
    requires Sized(s) && p < |s.role|
  {
    Mem(s.mem[p := Zeros()], s.role[p := Unused], s.refs[p := 0], s.free + [p], s.kernel)
  }

  /** A frame can go when no entry of a live table points to it. */
  ghost predicate CanRelease(s: Mem, p: nat) {
    && Inv(s) && p < |s.role|
    && ((s.role[p] == Data && s.refs[p] == 0)
        || (s.role[p].Dying? && forall g :: 0 <= g < |s.role| && s.role[g].Table? ==> s.role[g].parent != p))
  }

  lemma ReleaseFree(s: Mem, p: nat)
    requires CanRelease(s, p)
    ensures Sized(ReleaseS(s, p)) && FreeOk(ReleaseS(s, p)) && RootsOk(ReleaseS(s, p))
  {
    var s' := ReleaseS(s, p);
    assert p !in s.free;
    forall f | f in s.free ensures f in s'.free {
      var k :| 0 <= k < |s.free| && s.free[k] == f;
      assert s'.free[k] == f;
    }
    assert s'.free[|s.free|] == p;
  }

  lemma ReleaseTables(s: Mem, p: nat)
    requires CanRelease(s, p) && Slots(s, p) == {}
    ensures Sized(ReleaseS(s, p)) && DirsOk(ReleaseS(s, p)) && ParentsOk(ReleaseS(s, p)) && LeavesOk(ReleaseS(s, p))
  {
    var s' := ReleaseS(s, p);
    assert DirsOk(s') by {
      forall g, j | 0 <= g < |s'.role| && 0 <= j < 512 && IsDir(s'.role[g]) && !(s'.role[g].Root? && j == KERNEL_SLOT)
        ensures DirEntryOk(s', g, j)
      {
        assert DirEntryOk(s, g, j);
      }
    }
    assert ParentsOk(s') by {
      forall g | 0 <= g < |s'.role| && s'.role[g].Table? ensures ParentOk(s', g) {
        assert ParentOk(s, g);
      }
    }
    assert LeavesOk(s') by {
      forall t, j | 0 <= t < |s'.role| && 0 <= j < 512 && IsLeafTable(s'.role[t]) ensures LeafOk(s', t, j) {
        assert LeafOk(s, t, j);
        SlotsIn(s, p, t, j);
      }
    }
  }

  lemma ReleaseKeeps(s: Mem, p: nat)
    requires CanRelease(s, p)
    ensures Inv(ReleaseS(s, p)) && SameRoots(s, ReleaseS(s, p))
    ensures forall g: nat :: g < |s.role| ==> Slots(ReleaseS(s, p), g) == Slots(s, g)
  {
    var s' := ReleaseS(s, p);
    assert Slots(s, p) == {} by {
      if s.role[p] != Data { UnmappedUnlessData(s, p); }
    }
    ReleaseFree(s, p);
    ReleaseTables(s, p);
    forall g: nat | g < |s.role| ensures Slots(s', g) == Slots(s, g) {
      forall t: nat, j: nat | t < |s.role| && j < 512 ensures MapsTo(s', t, j, g) <==> MapsTo(s, t, j, g) {}
      SlotsSame(s, s', g);
    }
  }

  lemma ReleasePath(s: Mem, p: nat, r: nat, v: nat)
    requires CanRelease(s, p) && IsRoot(s, r) && v < USER_PAGES
    ensures Pte(ReleaseS(s, p).mem, r, v) == Pte(s.mem, r, v)
  {
    SamePath(s, ReleaseS(s, p).mem, r, v);
    PathFacts(s, r, v);
  }

  /** The first half of page_remove: one reference and one entry less. */
  function DropS(s: Mem, t: nat, i: nat): Mem
    requires Sized(s) && t < |s.mem| && i < 512 && s.mem[t][i].frame < |s.refs|
  {
    var f := s.mem[t][i].frame;
    Mem(s.mem[t := s.mem[t][i := ZERO]], s.role, s.refs[f := s.refs[f] - 1], s.free, s.kernel)
  }

  /** page_remove on a present entry: the frame is released with its last reference. */
  function UnmapS(s: Mem, t: nat, i: nat): Mem
    requires Sized(s) && t < |s.mem| && i < 512 && s.mem[t][i].frame < |s.refs|
  {
    var f := s.mem[t][i].frame;
    if s.refs[f] == 1 then ReleaseS(DropS(s, t, i), f) else DropS(s, t, i)
  }

  lemma DropSlots(s: Mem, t: nat, i: nat, g: nat)
    requires Inv(s) && IsLeafSlot(s, t, i) && s.mem[t][i].present && s.mem[t][i].frame < |s.refs|
    ensures Slots(DropS(s, t, i), g) == if g == s.mem[t][i].frame then Slots(s, g) - {(t, i)} else Slots(s, g)
  {
    var s1 := DropS(s, t, i);
    var f := s.mem[t][i].frame;
    forall a: nat, b: nat ensures (a, b) in Slots(s1, g) <==> (a, b) in Slots(s, g) && !(g == f && (a, b) == (t, i)) {
      SlotsIn(s1, g, a, b);
      SlotsIn(s, g, a, b);
    }
  }

  lemma DropKeeps(s: Mem, t: nat, i: nat)
    requires Inv(s) && IsLeafSlot(s, t, i) && s.mem[t][i].present && LeafOk(s, t, i)
    ensures Inv(DropS(s, t, i)) && (t, i) in Slots(s, s.mem[t][i].frame)
    ensures forall g: nat :: g < |s.role| ==>
      Slots(DropS(s, t, i), g) == if g == s.mem[t][i].frame then Slots(s, g) - {(t, i)} else Slots(s, g)
  {
    var f := s.mem[t][i].frame;
    OthersKeep(s, DropS(s, t, i), t, i);
    SlotsIn(s, f, t, i);
    forall g: nat | g < |s.role|
      ensures Slots(DropS(s, t, i), g) == if g == f then Slots(s, g) - {(t, i)} else Slots(s, g)
    {
      DropSlots(s, t, i, g);
    }
  }

  lemma UnmapKeeps(s: Mem, t: nat, i: nat)
    requires Inv(s) && IsLeafSlot(s, t, i) && s.mem[t][i].present
    ensures LeafOk(s, t, i) && Inv(UnmapS(s, t, i))
    ensures (t, i) in Slots(s, s.mem[t][i].frame)
    ensures forall g: nat :: g < |s.role| ==>
      Slots(UnmapS(s, t, i), g) == if g == s.mem[t][i].frame then Slots(s, g) - {(t, i)} else Slots(s, g)
  {
    assert LeafOk(s, t, i);
    DropKeeps(s, t, i);
    if s.refs[s.mem[t][i].frame] == 1 {
      ReleaseKeeps(DropS(s, t, i), s.mem[t][i].frame);
    }
  }

  lemma UnmapPath(s: Mem, t: nat, i: nat, r: nat, v: nat)
    requires Inv(s) && IsLeafSlot(s, t, i) && s.mem[t][i].present && LeafOk(s, t, i)
    requires IsRoot(s, r) && v < USER_PAGES
    ensures IsRoot(UnmapS(s, t, i), r)
    ensures Pte(UnmapS(s, t, i).mem, r, v) == if Pt(s.mem, r, v) == t && I1(v) == i then ZERO else Pte(s.mem, r, v)
  {
    LeafPath(s, UnmapS(s, t, i), t, i, r, v);
  }

  // ---------- walks ----------

  /** One level of a walk: follow entry `i` of directory `f`, allocating the table when it is absent. */
  function EnterS(s: Mem, f: nat, i: nat): Mem
    requires Inv(s) && f < |s.role| && i < 512
  {
    if s.mem[f][i].present || s.free == [] then s
    else
      assert s.free[|s.free| - 1] in s.free;
      HookS(AllocS(s), s.free[|s.free| - 1], f, i)
  }

  ghost predicate CanEnter(s: Mem, f: nat, i: nat) {
    && Inv(s) && f < |s.role| && i < 512 && IsDir(s.role[f]) && !(s.role[f].Root? && i == KERNEL_SLOT)
    && (s.mem[f][i].present || 0 < |s.free|)
  }

  /** What a walk may do: turn free frames into tables, and nothing a process or the counts can notice. */
  ghost predicate Grown(s: Mem, s': Mem) {
    && Inv(s) && Inv(s') && |s'.mem| == |s.mem|
    && SameMappings(s, s') && SameRoots(s, s') && SameContents(s, s')
    && (forall g :: 0 <= g < |s.role| && s.role[g] != Unused ==> s'.role[g] == s.role[g] && s'.refs[g] == s.refs[g])
    && (forall g: nat :: g < |s.role| ==> Slots(s', g) == Slots(s, g))
    && s'.free <= s.free
  }

  lemma EnterPath(s: Mem, f: nat, i: nat, r: nat, v: nat)
    requires CanEnter(s, f, i) && IsRoot(s, r) && v < USER_PAGES
    ensures Pte(EnterS(s, f, i).mem, r, v) == Pte(s.mem, r, v)
  {
    if !s.mem[f][i].present {
      AllocKeeps(s);
      AllocPath(s, r, v);
      HookPath(AllocS(s), s.free[|s.free| - 1], f, i, r, v);
    }
  }

  lemma EnterGrows(s: Mem, f: nat, i: nat)
    requires CanEnter(s, f, i) && !s.mem[f][i].present
    ensures s.free[|s.free| - 1] < |s.mem| && s.role[s.free[|s.free| - 1]] == Unused
    ensures Inv(EnterS(s, f, i)) && SameRoots(s, EnterS(s, f, i)) && SameContents(s, EnterS(s, f, i))
    ensures forall g: nat :: g < |s.role| ==> Slots(EnterS(s, f, i), g) == Slots(s, g)
  {
    var p := s.free[|s.free| - 1];
    AllocKeeps(s);
    var s1 := AllocS(s);
    HookKeeps(s1, p, f, i);
    HookMapsTo(s1, p, f, i);
    forall g: nat | g < |s.role| ensures Slots(EnterS(s, f, i), g) == Slots(s, g) {
      SlotsSame(s1, EnterS(s, f, i), g);
    }
  }

  lemma EnterKeeps(s: Mem, f: nat, i: nat)
    requires CanEnter(s, f, i)
    ensures Grown(s, EnterS(s, f, i)) && EnterS(s, f, i).mem[f][i].present
    ensures Level(s.role[f]) >= 2 && EnterS(s, f, i).mem[f][i].frame < |s.role|
    ensures EnterS(s, f, i).role[EnterS(s, f, i).mem[f][i].frame] == Table(Level(s.role[f]) - 1, f, i)
    ensures s.mem[f][i].present ==> EnterS(s, f, i) == s
    ensures !s.mem[f][i].present ==> |EnterS(s, f, i).free| == |s.free| - 1
    ensures !s.mem[f][i].present ==> EnterS(s, f, i).mem[EnterS(s, f, i).mem[f][i].frame] == Zeros()
    ensures forall g :: 0 <= g < |s.role| && EnterS(s, f, i).role[g] != s.role[g] ==>
      s.role[g] == Unused && EnterS(s, f, i).role[g] == Table(Level(s.role[f]) - 1, f, i)
  {
    EnterTable(s, f, i);
    EnterMappings(s, f, i);
    if !s.mem[f][i].present {
      EnterGrows(s, f, i);
    }
  }

  /** The table that the entry points to afterwards. */
  lemma EnterTable(s: Mem, f: nat, i: nat)
    requires CanEnter(s, f, i)
    ensures Level(s.role[f]) >= 2 && EnterS(s, f, i).mem[f][i].present && EnterS(s, f, i).mem[f][i].frame < |s.role|
    ensures EnterS(s, f, i).role[EnterS(s, f, i).mem[f][i].frame] == Table(Level(s.role[f]) - 1, f, i)
    ensures !s.mem[f][i].present ==> EnterS(s, f, i).mem[EnterS(s, f, i).mem[f][i].frame] == Zeros()
  {
    assert DirEntryOk(s, f, i);
    if s.role[f].Table? { assert ParentOk(s, f); }
    if !s.mem[f][i].present {
      EnterGrows(s, f, i);
    }
  }

  lemma EnterMappings(s: Mem, f: nat, i: nat)
    requires CanEnter(s, f, i)
    ensures forall r: nat, v: nat :: IsRoot(s, r) && v < USER_PAGES ==>
      Pte(EnterS(s, f, i).mem, r, v) == Pte(s.mem, r, v)
  {
    forall r: nat, v: nat | IsRoot(s, r) && v < USER_PAGES ensures Pte(EnterS(s, f, i).mem, r, v) == Pte(s.mem, r, v) {
      EnterPath(s, f, i, r, v);
    }
  }

  lemma GrownTransitive(s: Mem, s1: Mem, s2: Mem)
    requires Grown(s, s1) && Grown(s1, s2)
    ensures Grown(s, s2)
  {
    forall r: nat, v: nat | IsRoot(s, r) && v < USER_PAGES ensures Pte(s2.mem, r, v) == Pte(s.mem, r, v) {
      assert Pte(s1.mem, r, v) == Pte(s.mem, r, v);
    }
  }

  /** A frame in use keeps its use, and a table that was there stays there. */
  lemma GrownKeepsUse(s: Mem, s': Mem, g: nat)
    requires Grown(s, s') && g < |s.role| && s.role[g] != Unused
    ensures Sized(s) && Sized(s') && |s'.mem| == |s.mem| && s'.role[g] == s.role[g]
    ensures IsDir(s.role[g]) ==> forall i: nat ::
      i < 512 && !(s.role[g].Root? && i == KERNEL_SLOT) && s.mem[g][i].present ==>
        Down(s'.mem, g, i) == Down(s.mem, g, i)
  {
    forall i: nat | IsDir(s.role[g]) && i < 512 && !(s.role[g].Root? && i == KERNEL_SLOT) && s.mem[g][i].present
      ensures Down(s'.mem, g, i) == Down(s.mem, g, i)
    {
      assert DirEntryOk(s, g, i);
      assert ParentOk(s', s.mem[g][i].frame);
    }
  }

  /** The frame holding the entry that points to table `g`. */
  function Up(role: seq<Role>, g: int): int {
    if 0 <= g < |role| && role[g].Table? then role[g].parent else -1
  }

  /** `g` is a table of the tree below `f`. */
  predicate Under(role: seq<Role>, g: int, f: int) {
    0 <= f && (Up(role, g) == f || Up(role, Up(role, g)) == f || Up(role, Up(role, Up(role, g))) == f)
  }

  /** Every frame that changed its use was free and is now a table below `f`. */
  ghost predicate NewUnder(s: Mem, s': Mem, f: nat) {
    && Sized(s) && Sized(s') && |s.mem| == |s'.mem|
    && forall g :: 0 <= g < |s.role| && s'.role[g] != s.role[g] ==>
      s.role[g] == Unused && s'.role[g].Table? && Under(s'.role, g, f)
  }

  /** Tables and roots keep their places, and no new table hangs under a dying one. */
  ghost predicate TablesStay(s: Mem, s': Mem) {
    && Sized(s) && Sized(s') && |s.mem| == |s'.mem|
    && forall g :: 0 <= g < |s.role| && s'.role[g] != s.role[g] ==>
         && (s.role[g] == Unused || s.role[g] == Data)
         && !s'.role[g].Dying?
         && (s'.role[g].Table? ==> s'.role[g].parent < |s.role| && !s'.role[s'.role[g].parent].Dying?)
  }

  lemma TablesStayTransitive(s: Mem, s1: Mem, s2: Mem)
    requires TablesStay(s, s1) && TablesStay(s1, s2)
    ensures TablesStay(s, s2)
  {
  }

  lemma NewUnderStay(s: Mem, s': Mem, r: nat)
    requires NewUnder(s, s', r) && IsRoot(s, r)
    ensures TablesStay(s, s')
  {
  }

  /** How many tables a walk has to allocate. */
  function Missing(mem: seq<Page>, root: nat, v: nat): (n: nat)
    ensures n <= 3
  {
    if Pdpt(mem, root, v) == -1 then 3
    else if Pd(mem, root, v) == -1 then 2
    else if Pt(mem, root, v) == -1 then 1
    else 0
  }

  /** The entry of page number `v` of process `r` is now `w`; every other entry of every process is as before. */
  ghost predicate OneKey(s: Mem, s': Mem, r: nat, v: nat, w: Word) {
    && SameRoots(s, s')
    && forall q: nat, u: nat :: IsRoot(s, q) && u < USER_PAGES ==>
         Pte(s'.mem, q, u) == if q == r && u == v then w else Pte(s.mem, q, u)
  }

  /** Contents and use of all data frames but `f`, and of kernel frames, are as before. */
  ghost predicate SameContentsBut(s: Mem, s': Mem, f: nat) {
    && Sized(s) && Sized(s') && |s'.mem| == |s.mem| && s'.kernel == s.kernel
    && (forall g :: 0 <= g < |s.role| && g != f && (s.role[g] == Data || s.role[g] == Reserved)
          ==> s'.role[g] == s.role[g] && s'.mem[g] == s.mem[g])
  }

  /** The reference counts of data frames change by `d` at `f` only. */
  ghost predicate CountChanges(s: Mem, s': Mem, f: nat, d: int) {
    && Sized(s) && Sized(s') && |s'.mem| == |s.mem|
    && forall g :: 0 <= g < |s.role| && s.role[g] == Data && s'.role[g] == Data ==>
         s'.refs[g] == s.refs[g] + if g == f then d else 0
  }

  lemma MapEffect(s: Mem, r: nat, v: nat, w: Word)
    requires Inv(s) && IsRoot(s, r) && v < USER_PAGES && Pt(s.mem, r, v) != -1 && !Pte(s.mem, r, v).present
    requires w.present && w.user && w.frame < |s.role| && s.role[w.frame] == Data
    ensures 0 <= Pt(s.mem, r, v) < |s.mem| && I1(v) < 512
    ensures Inv(MapS(s, Pt(s.mem, r, v), I1(v), w)) && OneKey(s, MapS(s, Pt(s.mem, r, v), I1(v), w), r, v, w)
  {
    PathFacts(s, r, v);
    var t := Pt(s.mem, r, v);
    MapKeeps(s, t, I1(v), w);
    var s' := MapS(s, t, I1(v), w);
    forall q: nat, u: nat | IsRoot(s, q) && u < USER_PAGES
      ensures Pte(s'.mem, q, u) == if q == r && u == v then w else Pte(s.mem, q, u)
    {
      LeafPath(s, s', t, I1(v), q, u);
      if Pt(s.mem, q, u) == t && I1(u) == I1(v) { SlotInjective(s, r, v, q, u); }
    }
  }

  lemma RemarkEffect(s: Mem, r: nat, v: nat, w: Word)
    requires Inv(s) && IsRoot(s, r) && v < USER_PAGES && Pte(s.mem, r, v).present
    requires w.present && w.user && w.frame == Pte(s.mem, r, v).frame
    ensures 0 <= Pt(s.mem, r, v) < |s.mem| && I1(v) < 512
    ensures var s' := SetWord(s, Pt(s.mem, r, v), I1(v), w); Inv(s') && OneKey(s, s', r, v, w)
  {
    PathFacts(s, r, v);
    var t := Pt(s.mem, r, v);
    RemarkKeeps(s, t, I1(v), w);
    var s' := SetWord(s, t, I1(v), w);
    forall q: nat, u: nat | IsRoot(s, q) && u < USER_PAGES
      ensures Pte(s'.mem, q, u) == if q == r && u == v then w else Pte(s.mem, q, u)
    {
      LeafPath(s, s', t, I1(v), q, u);
      if Pt(s.mem, q, u) == t && I1(u) == I1(v) { SlotInjective(s, r, v, q, u); }
    }
  }

  lemma UnmapEffect(s: Mem, r: nat, v: nat)
    requires Inv(s) && IsRoot(s, r) && v < USER_PAGES && Pte(s.mem, r, v).present
    ensures 0 <= Pt(s.mem, r, v) < |s.mem| && I1(v) < 512
    ensures Pte(s.mem, r, v).frame < |s.role| && s.role[Pte(s.mem, r, v).frame] == Data
    ensures Inv(UnmapS(s, Pt(s.mem, r, v), I1(v))) && OneKey(s, UnmapS(s, Pt(s.mem, r, v), I1(v)), r, v, ZERO)
  {
    PathFacts(s, r, v);
    var t := Pt(s.mem, r, v);
    UnmapKeeps(s, t, I1(v));
    var s' := UnmapS(s, t, I1(v));
    forall q: nat, u: nat | IsRoot(s, q) && u < USER_PAGES
      ensures Pte(s'.mem, q, u) == if q == r && u == v then ZERO else Pte(s.mem, q, u)
    {
      UnmapPath(s, t, I1(v), q, u);
      if Pt(s.mem, q, u) == t && I1(u) == I1(v) { SlotInjective(s, r, v, q, u); }
    }
  }

  /** page_remove on a present entry. */
  function RemoveS(s: Mem, r: nat, v: nat): Mem
    requires Sized(s)
  {
    var t := Pt(s.mem, r, v);
    if 0 <= t < |s.mem| && s.mem[t][I1(v)].present && s.mem[t][I1(v)].frame < |s.refs| then UnmapS(s, t, I1(v)) else s
  }

  /** A walk followed by a store into the empty slot. */
  lemma InsertEffect(s: Mem, s1: Mem, r: nat, v: nat, w: Word)
    requires Grown(s, s1) && IsRoot(s, r) && v < USER_PAGES && !Pte(s.mem, r, v).present && Pt(s1.mem, r, v) != -1
    requires w.present && w.user && w.frame < |s.role| && s.role[w.frame] == Data
    ensures 0 <= Pt(s1.mem, r, v) < |s1.mem| && I1(v) < 512
    ensures Inv(MapS(s1, Pt(s1.mem, r, v), I1(v), w)) && OneKey(s, MapS(s1, Pt(s1.mem, r, v), I1(v), w), r, v, w)
    ensures SameContents(s, MapS(s1, Pt(s1.mem, r, v), I1(v), w))
    ensures CountChanges(s, MapS(s1, Pt(s1.mem, r, v), I1(v), w), w.frame, 1)
  {
    assert Pte(s1.mem, r, v) == Pte(s.mem, r, v);
    MapEffect(s1, r, v, w);
    PathFacts(s1, r, v);
    var s' := MapS(s1, Pt(s1.mem, r, v), I1(v), w);
    forall q: nat, u: nat | IsRoot(s, q) && u < USER_PAGES
      ensures Pte(s'.mem, q, u) == if q == r && u == v then w else Pte(s.mem, q, u)
    {
      assert Pte(s1.mem, q, u) == Pte(s.mem, q, u);
    }
  }

  /** page_remove in its own order: drop the reference, release the frame when it was the last, clear the entry. */
  lemma RemoveParts(s: Mem, r: nat, v: nat)
    requires Inv(s) && IsRoot(s, r) && v < USER_PAGES && Pte(s.mem, r, v).present
    ensures Sized(s) && 0 <= Pt(s.mem, r, v) < |s.mem| && I1(v) < 512 && Pte(s.mem, r, v).frame < |s.refs|
    ensures RemoveS(s, r, v) == UnmapS(s, Pt(s.mem, r, v), I1(v))
    ensures Inv(RemoveS(s, r, v)) && Inv(DropS(s, Pt(s.mem, r, v), I1(v)))
    ensures s.refs[Pte(s.mem, r, v).frame] == 1 ==>
      CanRelease(DropS(s, Pt(s.mem, r, v), I1(v)), Pte(s.mem, r, v).frame)
  {
    hide Inv, Pt, CanRelease, LeafOk, ReleaseS;
    LeafSlot(s, r, v);
    var t, i := Pt(s.mem, r, v), I1(v);
    UnmapKeeps(s, t, i);
    DropKeeps(s, t, i);
    if s.refs[s.mem[t][i].frame] == 1 {
      LastReference(s, t, i);
    }
  }

  /** The slot of a present entry. */
  lemma LeafSlot(s: Mem, r: nat, v: nat)
    requires Inv(s) && IsRoot(s, r) && v < USER_PAGES && Pte(s.mem, r, v).present
    ensures Sized(s) && 0 <= Pt(s.mem, r, v) < |s.mem| && I1(v) < 512
    ensures IsLeafSlot(s, Pt(s.mem, r, v), I1(v)) && Pte(s.mem, r, v) == s.mem[Pt(s.mem, r, v)][I1(v)]
    ensures Pte(s.mem, r, v).frame < |s.refs|
  {
    PathFacts(s, r, v);
  }

  lemma LastReference(s: Mem, t: nat, i: nat)
    requires Inv(s) && IsLeafSlot(s, t, i) && s.mem[t][i].present && LeafOk(s, t, i) && s.refs[s.mem[t][i].frame] == 1
    ensures CanRelease(DropS(s, t, i), s.mem[t][i].frame)
  {
    DropKeeps(s, t, i);
  }

  /** What page_remove does to frames: this frame loses a reference and goes with the last one. */
  ghost predicate FrameDropped(s: Mem, s': Mem, f: nat) {
    && SameContentsBut(s, s', f) && CountChanges(s, s', f, -1) && f < |s.role| && 1 <= s.refs[f]
    && s'.role == (if s.refs[f] == 1 then s.role[f := Unused] else s.role)
    && s'.free == (if s.refs[f] == 1 then s.free + [f] else s.free)
    && (s.refs[f] != 1 ==> s'.mem[f] == s.mem[f])
  }

  lemma RemoveDrops(s: Mem, r: nat, v: nat)
    requires Inv(s) && IsRoot(s, r) && v < USER_PAGES && Pte(s.mem, r, v).present
    ensures FrameDropped(s, RemoveS(s, r, v), Pte(s.mem, r, v).frame)
  {
    hide Inv, Pt, CanRelease;
    LeafSlot(s, r, v);
    MappedCounted(s, r, v);
    RemoveParts(s, r, v);
    DropsFrame(s, Pt(s.mem, r, v), I1(v));
  }

  lemma DropsFrame(s: Mem, t: nat, i: nat)
    requires Sized(s) && IsLeafSlot(s, t, i) && s.mem[t][i].frame < |s.refs| && 1 <= s.refs[s.mem[t][i].frame]
    requires s.role[s.mem[t][i].frame] == Data
    ensures FrameDropped(s, UnmapS(s, t, i), s.mem[t][i].frame)
  {
  }

  /** A mapped frame is data, and counted. */
  lemma MappedCounted(s: Mem, r: nat, v: nat)
    requires Inv(s) && IsRoot(s, r) && v < USER_PAGES && Pte(s.mem, r, v).present
    ensures Sized(s) && Pte(s.mem, r, v).frame < |s.refs| && 1 <= s.refs[Pte(s.mem, r, v).frame]
    ensures s.role[Pte(s.mem, r, v).frame] == Data
  {
    var f := Pte(s.mem, r, v).frame;
    PathFacts(s, r, v);
    SlotsIn(s, f, Pt(s.mem, r, v), I1(v));
    assert (Pt(s.mem, r, v), I1(v)) in Slots(s, f);
  }

  /** page_remove: one entry goes, and its frame with it exactly when this was the last reference. */
  lemma RemoveEffect(s: Mem, r: nat, v: nat)
    requires Inv(s) && IsRoot(s, r) && v < USER_PAGES && Pte(s.mem, r, v).present
    ensures Pte(s.mem, r, v).frame < |s.role| && s.role[Pte(s.mem, r, v).frame] == Data
    ensures Inv(RemoveS(s, r, v)) && OneKey(s, RemoveS(s, r, v), r, v, ZERO)
    ensures FrameDropped(s, RemoveS(s, r, v), Pte(s.mem, r, v).frame)
  {
    hide Inv;
    RemoveParts(s, r, v);
    UnmapEffect(s, r, v);
    RemoveDrops(s, r, v);
  }

  // ---------- a new address space ----------

  /** fork_handler and build_process_address_space: a zeroed root that shares the kernel's slot. */
  function RootS(s: Mem): Mem
    requires Sized(s) && 0 < |s.free|
  {
    var p := s.free[|s.free| - 1];
    if p < |s.mem| then
      Mem(s.mem[p := Zeros()[KERNEL_SLOT := s.kernel]], s.role[p := Root], s.refs, s.free[..|s.free| - 1], s.kernel)
    else s
  }

  ghost predicate NothingMapped(s: Mem, r: nat) {
    forall u: nat :: u < USER_PAGES ==> Pte(s.mem, r, u) == ZERO
  }

  lemma RootTables(s: Mem)
    requires Inv(s) && 0 < |s.free| && s.free[|s.free| - 1] < |s.mem| && s.role[s.free[|s.free| - 1]] == Unused
    ensures Sized(RootS(s)) && DirsOk(RootS(s)) && ParentsOk(RootS(s)) && LeavesOk(RootS(s))
  {
    var s' := RootS(s);
    assert DirsOk(s') by {
      forall f, i | 0 <= f < |s'.role| && 0 <= i < 512 && IsDir(s'.role[f]) && !(s'.role[f].Root? && i == KERNEL_SLOT)
        ensures DirEntryOk(s', f, i)
      {
        if f != s.free[|s.free| - 1] { assert DirEntryOk(s, f, i); }
      }
    }
    assert ParentsOk(s') by {
      forall g | 0 <= g < |s'.role| && s'.role[g].Table? ensures ParentOk(s', g) {
        assert ParentOk(s, g);
      }
    }
    assert LeavesOk(s') by {
      forall t, i | 0 <= t < |s'.role| && 0 <= i < 512 && IsLeafTable(s'.role[t]) ensures LeafOk(s', t, i) {
        assert LeafOk(s, t, i);
      }
    }
  }

  lemma RootKeeps(s: Mem)
    requires Inv(s) && 0 < |s.free|
    ensures s.free[|s.free| - 1] < |s.mem| && s.role[s.free[|s.free| - 1]] == Unused
    ensures Inv(RootS(s)) && SameContents(s, RootS(s)) && IsRoot(RootS(s), s.free[|s.free| - 1])
    ensures forall q: nat :: IsRoot(RootS(s), q) <==> IsRoot(s, q) || q == s.free[|s.free| - 1]
    ensures forall q: nat, u: nat :: IsRoot(s, q) && u < USER_PAGES ==> Pte(RootS(s).mem, q, u) == Pte(s.mem, q, u)
    ensures NothingMapped(RootS(s), s.free[|s.free| - 1])
    ensures forall f: nat :: f < |s.role| ==> Slots(RootS(s), f) == Slots(s, f)
  {
    var s', p := RootS(s), s.free[|s.free| - 1];
    AllocFree(s);
    assert FreeOk(s') by {
      assert forall f :: f in s'.free <==> f in AllocS(s).free;
    }
    RootTables(s);
    forall f: nat | f < |s.role| ensures Slots(s', f) == Slots(s, f) {
      forall t: nat, i: nat | t < |s.role| && i < 512 ensures MapsTo(s', t, i, f) <==> MapsTo(s, t, i, f) {}
      SlotsSame(s, s', f);
    }
    RootMappings(s);
  }

  lemma RootMappings(s: Mem)
    requires Inv(s) && 0 < |s.free| && s.free[|s.free| - 1] < |s.mem| && s.role[s.free[|s.free| - 1]] == Unused
    ensures forall q: nat, u: nat :: IsRoot(s, q) && u < USER_PAGES ==> Pte(RootS(s).mem, q, u) == Pte(s.mem, q, u)
    ensures NothingMapped(RootS(s), s.free[|s.free| - 1])
  {
    var s', p := RootS(s), s.free[|s.free| - 1];
    forall q: nat, u: nat | IsRoot(s, q) && u < USER_PAGES ensures Pte(s'.mem, q, u) == Pte(s.mem, q, u) {
      PathFacts(s, q, u);
    }
    forall u: nat | u < USER_PAGES ensures Pte(s'.mem, p, u) == ZERO {
      assert I4(u) < KERNEL_SLOT;
      assert Pdpt(s'.mem, p, u) == -1;
    }
  }
}
