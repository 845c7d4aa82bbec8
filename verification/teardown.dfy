/** vma_remove_for_process and delete_process (sys/cleanup.c). */
module Teardown {
  import opened Words
  import opened Memory
  import opened Updates
  import opened KernelMemory
  import opened Processes
  import opened Faults

  // ---------- unmapping ----------

  /** vma_remove_for_process after the pages in `done`. Frames may have been freed, and freed frames
      turned into tables of this process by the walks. */
  ghost predicate Cleared(s: Mem, s': Mem, r: nat, done: set<nat>) {
    && SameRoots(s, s') && FramesCleared(s, s', r)
    && (forall q: nat, u: nat :: IsRoot(s, q) && u < USER_PAGES ==>
          Pte(s'.mem, q, u) == if q == r && u in done then ZERO else Pte(s.mem, q, u))
  }

  ghost predicate FramesCleared(s: Mem, s': Mem, r: nat) {
    && Sized(s) && Sized(s') && |s'.mem| == |s.mem| && s'.kernel == s.kernel
    && (forall g :: 0 <= g < |s.role| && s.role[g] == Reserved ==> s'.mem[g] == s.mem[g])
    && (forall g :: 0 <= g < |s.role| && s'.role[g] == Data ==>
          s.role[g] == Data && s'.mem[g] == s.mem[g] && (1 <= s.refs[g] ==> 1 <= s'.refs[g]))
    && (forall g :: 0 <= g < |s.role| && s'.role[g] != s.role[g] ==>
          (s.role[g] == Unused || s.role[g] == Data)
          && (s'.role[g] == Unused || (s'.role[g].Table? && Under(s'.role, g, r))))
  }

  lemma DroppedClears(s: Mem, s': Mem, r: nat, f: nat)
    requires FrameDropped(s, s', f) && s.role[f] == Data
    ensures FramesCleared(s, s', r)
  {
  }

  lemma OneKeyClears(s: Mem, s': Mem, r: nat, v: nat)
    requires OneKey(s, s', r, v, ZERO) && FramesCleared(s, s', r)
    ensures Cleared(s, s', r, {v})
  {
    hide Pte, FramesCleared, IsRoot;
  }

  lemma ClearedStart(s: Mem, r: nat)
    requires Sized(s)
    ensures Cleared(s, s, r, {})
  {
  }

  lemma ClearedGrown(s: Mem, s': Mem, r: nat, v: nat)
    requires Grown(s, s') && NewUnder(s, s', r) && IsRoot(s, r) && v < USER_PAGES && !Pte(s.mem, r, v).present
    ensures Cleared(s, s', r, {v})
  {
    PathFacts(s, r, v);
    forall q: nat, u: nat | IsRoot(s, q) && u < USER_PAGES ensures Pte(s'.mem, q, u) == Pte(s.mem, q, u) {}
  }

  lemma ClearedRemoved(s: Mem, r: nat, v: nat)
    requires Inv(s) && IsRoot(s, r) && v < USER_PAGES && Pte(s.mem, r, v).present
    ensures Sized(s) && Cleared(s, RemoveS(s, r, v), r, {v})
  {
    assert Sized(s);
    hide Inv, RemoveS, Pte, FrameDropped, FramesCleared, Cleared, OneKey;
    RemoveEffect(s, r, v);
    DroppedClears(s, RemoveS(s, r, v), r, Pte(s.mem, r, v).frame);
    OneKeyClears(s, RemoveS(s, r, v), r, v);
  }

  lemma ClearedStep(s: Mem, s1: Mem, s2: Mem, r: nat, done: set<nat>, v: nat)
    requires Cleared(s, s1, r, done) && Cleared(s1, s2, r, {v})
    ensures Cleared(s, s2, r, done + {v})
  {
    forall q: nat, u: nat | IsRoot(s, q) && u < USER_PAGES
      ensures Pte(s2.mem, q, u) == if q == r && u in done + {v} then ZERO else Pte(s.mem, q, u)
    {
      assert IsRoot(s1, q);
      assert Pte(s1.mem, q, u) == if q == r && u in done then ZERO else Pte(s.mem, q, u);
    }
    forall g | 0 <= g < |s.role| && s2.role[g] != s.role[g]
      ensures (s.role[g] == Unused || s.role[g] == Data)
        && (s2.role[g] == Unused || (s2.role[g].Table? && Under(s2.role, g, r)))
    {
      if s1.role[g] != s.role[g] && s1.role[g].Table? {
        UnderKept(s1, s2, r, g);
      }
    }
  }

  lemma UnderKept(s1: Mem, s2: Mem, r: nat, g: nat)
    requires Sized(s1) && Sized(s2) && |s1.mem| == |s2.mem|
    requires forall h :: 0 <= h < |s1.role| && s2.role[h] != s1.role[h] ==> s1.role[h] == Unused || s1.role[h] == Data
    requires g < |s1.role| && s1.role[g].Table? && Under(s1.role, g, r)
    ensures s2.role[g] == s1.role[g] && Under(s2.role, g, r)
  {
  }

  lemma ClearedRoot(s: Mem, s': Mem, r: nat, done: set<nat>)
    requires Cleared(s, s', r, done) && IsRoot(s, r)
    ensures IsRoot(s', r)
  {
  }

  /** The loop body of vma_remove_for_process. */
  method ClearPage(k: Kernel, r: nat, v: nat) returns (ok: bool)
    requires k.Valid() && IsRoot(k.S(), r) && v < USER_PAGES && k.free != []
    modifies k
    ensures 3 < |old(k.free)| ==> ok
    ensures ok ==> k.Valid() && Cleared(old(k.S()), k.S(), r, {v})
    ensures ok ==> |old(k.free)| <= |k.free| + 3 && k.free != []
  {
    hide Inv, ListOk, Grown, NewUnder, Pte, Pt, Missing, Cleared, RemoveS;
    ghost var s := k.S();
    var t, i;
    ok, t, i := k.Pml4Walk(r, v);
    if !ok {
      return;
    }
    WalkedWord(s, k.S(), r, v);
    if k.mem[t][i] != ZERO {
      RemoveEffect(s, r, v);
      ok := k.PageRemove(r, v);
      ClearedRemoved(s, r, v);
    } else {
      ClearedGrown(s, k.S(), r, v);
    }
  }

  method ClearVma(k: Kernel, r: nat, m: Vma, ghost s: Mem, ghost done: set<nat>) returns (ok: bool)
    requires k.Valid() && IsRoot(k.S(), r) && VmaOk(m) && k.free != [] && IsRoot(s, r)
    requires Cleared(s, k.S(), r, done)
    modifies k
    ensures 3 * NumPages(m) < |old(k.free)| ==> ok
    ensures ok ==> k.Valid() && IsRoot(k.S(), r) && Cleared(s, k.S(), r, done + PagesOf(m))
    ensures ok ==> |old(k.free)| <= |k.free| + 3 * NumPages(m) && k.free != []
  {
    hide Inv, ListOk, Cleared, Pte, VmaOk, NumPages, PageNumber;
    var first, n, i := PageNumber(m.start), NumPages(m), 0;
    PagesNonNegative(m);
    assert done + Range(first, 0) == done;
    while i < n
      invariant 0 <= i <= n && k.Valid() && IsRoot(k.S(), r) && k.free != []
      invariant |old(k.free)| <= |k.free| + 3 * i
      invariant Cleared(s, k.S(), r, done + Range(first, i))
    {
      PageAddress(m, i);
      var v := PageNumber(m.start + i * PAGE_SIZE);
      ghost var s1, d := k.S(), done + Range(first, i);
      ok := ClearPage(k, r, v);
      if !ok {
        return;
      }
      ClearedStep(s, s1, k.S(), r, d, v);
      assert d + {v} == done + Range(first, i + 1);
      ClearedRoot(s, k.S(), r, done + Range(first, i + 1));
      i := i + 1;
    }
    ok := true;
  }

  /** vma_remove_for_process: afterwards no page of the descriptors is mapped. */
  method RemoveVmas(k: Kernel, r: nat, vmas: seq<Vma>) returns (ok: bool)
    requires k.Valid() && IsRoot(k.S(), r) && VmasOk(vmas) && k.free != []
    modifies k
    ensures 3 * Span(vmas) < |old(k.free)| ==> ok
    ensures ok ==> k.Valid() && IsRoot(k.S(), r) && Cleared(old(k.S()), k.S(), r, Pages(vmas)) && k.free != []
  {
    ghost var s := k.S();
    ClearedStart(s, r);
    PagesStart(vmas);
    hide Inv, ListOk, Cleared, Pte, VmaOk, VmasOk, Pages, Span, PagesOf, NumPages;
    var i := 0;
    while i < |vmas|
      invariant 0 <= i <= |vmas| && k.Valid() && IsRoot(k.S(), r) && k.free != []
      invariant |s.free| <= |k.free| + 3 * Span(vmas[..i])
      invariant Cleared(s, k.S(), r, Pages(vmas[..i]))
    {
      NextVma(vmas, i);
      ok := ClearVma(k, r, vmas[i], s, Pages(vmas[..i]));
      if !ok {
        return;
      }
      i := i + 1;
    }
    assert vmas[..i] == vmas;
    ok := true;
  }

  // ---------- the tables themselves ----------

  /** `h` is `c` or a table below it. */
  predicate Sub(role: seq<Role>, h: nat, c: nat) {
    h == c || Under(role, h, c)
  }

  /** `h` hangs off one of the first `n` entries of `g`. */
  predicate Gone(role: seq<Role>, h: int, g: nat, n: nat) {
    || (Up(role, h) == g && role[h].slot < n)
    || (Up(role, Up(role, h)) == g && role[Up(role, h)].slot < n)
    || (Up(role, Up(role, Up(role, h))) == g && role[Up(role, Up(role, h))].slot < n)
  }

  /** Nothing but `changed` frames changed, and those went back to the free list. */
  ghost predicate Kept(s: Mem, s': Mem, g: nat) {
    && Sized(s) && Inv(s') && |s'.mem| == |s.mem| && s'.kernel == s.kernel && g < |s.role|
    && s.free <= s'.free
    && (forall q: nat, u: nat :: IsRoot(s', q) && u < USER_PAGES ==> Pte(s'.mem, q, u) == Pte(s.mem, q, u))
  }

  /** The first `n` entries of the dying table `g` have been processed: exactly what hung off them is released. */
  ghost predicate Partial(s: Mem, s': Mem, g: nat, n: nat) {
    && Kept(s, s', g) && s'.role[g] == Dying(Level(s.role[g])) && s'.refs[g] == s.refs[g]
    && (forall i :: n <= i < 512 ==> s'.mem[g][i] == s.mem[g][i])
    && (forall h :: 0 <= h < |s.role| && h != g ==>
          if Gone(s.role, h, g, n) then s'.role[h] == Unused
          else s'.role[h] == s.role[h] && s'.mem[h] == s.mem[h] && s'.refs[h] == s.refs[h])
  }

  /** The table `c` and everything below it have been released, and nothing else. */
  ghost predicate TornDown(s: Mem, s': Mem, c: nat) {
    && Kept(s, s', c)
    && (forall h :: 0 <= h < |s.role| ==>
          if Sub(s.role, h, c) then s'.role[h] == Unused
          else s'.role[h] == s.role[h] && s'.mem[h] == s.mem[h] && s'.refs[h] == s.refs[h])
  }

  /** A directory may be marked as dying once nothing vouches for its entry. */
  ghost predicate CanMark(s: Mem, g: nat) {
    && Inv(s) && g < |s.role| && IsDir(s.role[g])
    && (s.role[g].Table? ==> s.role[g].parent < |s.role| && s.role[s.role[g].parent].Dying?)
  }

  function MarkS(s: Mem, g: nat): Mem
    requires Sized(s) && g < |s.role|
  {
    Mem(s.mem, s.role[g := Dying(Level(s.role[g]))], s.refs, s.free, s.kernel)
  }

  lemma MarkKeeps(s: Mem, g: nat)
    requires CanMark(s, g)
    ensures Inv(MarkS(s, g))
  {
    var s' := MarkS(s, g);
    assert DirsOk(s') by {
      forall f, i | 0 <= f < |s'.role| && 0 <= i < 512 && IsDir(s'.role[f]) && !(s'.role[f].Root? && i == KERNEL_SLOT)
        ensures DirEntryOk(s', f, i)
      {
        assert DirEntryOk(s, f, i);
      }
    }
    assert ParentsOk(s') by {
      forall h | 0 <= h < |s'.role| && s'.role[h].Table? ensures ParentOk(s', h) { assert ParentOk(s, h); }
    }
    assert LeavesOk(s') by {
      forall t, i | 0 <= t < |s'.role| && 0 <= i < 512 && IsLeafTable(s'.role[t]) ensures LeafOk(s', t, i) {
        assert LeafOk(s, t, i);
      }
    }
    forall f: nat | f < |s.role| ensures Slots(s', f) == Slots(s, f) {
      forall t: nat, i: nat | t < |s.role| && i < 512 ensures MapsTo(s', t, i, f) <==> MapsTo(s, t, i, f) {}
      SlotsSame(s, s', f);
    }
  }

  lemma MarkPartial(s: Mem, g: nat)
    requires CanMark(s, g)
    ensures Partial(s, MarkS(s, g), g, 0) && Inv(MarkS(s, g))
  {
    MarkKeeps(s, g);
  }

  /** Levels grow along the parent links. */
  lemma UpLevels(s: Mem, h: nat)
    requires Inv(s) && h < |s.role| && s.role[h].Table?
    ensures 0 <= Up(s.role, h) < |s.role| && Level(s.role[Up(s.role, h)]) == s.role[h].level + 1
    ensures 1 <= s.role[h].level <= 3 && s.role[h].slot < 512
  {
    assert ParentOk(s, h);
  }

  /** The chain of parents of `h`, with its levels. */
  lemma Chain(s: Mem, h: nat)
    requires Inv(s) && h < |s.role|
    ensures Links(s, h, Up(s.role, h))
    ensures Up(s.role, h) != -1 ==> Links(s, Up(s.role, h), Up(s.role, Up(s.role, h)))
    ensures Up(s.role, Up(s.role, h)) != -1 ==>
      Links(s, Up(s.role, Up(s.role, h)), Up(s.role, Up(s.role, Up(s.role, h))))
    ensures Up(s.role, Up(s.role, Up(s.role, Up(s.role, h)))) == -1
  {
    if s.role[h].Table? {
      UpLevels(s, h);
      var a := Up(s.role, h);
      if s.role[a].Table? {
        UpLevels(s, a);
        var b := Up(s.role, a);
        if s.role[b].Table? {
          UpLevels(s, b);
        }
      }
    }
  }

  /** `a` is where the table `h` hangs, -1 when `h` is no table. */
  ghost predicate Links(s: Mem, h: int, a: int)
    requires Sized(s)
  {
    && 0 <= h < |s.role|
    && (a == -1 <==> !s.role[h].Table?)
    && (a != -1 ==> 0 <= a < |s.role| && Level(s.role[a]) == Level(s.role[h]) + 1 && Level(s.role[h]) >= 1
                    && s.role[h].slot < 512)
  }

  /** Releasing child `n` of `g` with its subtree is one more entry processed. */
  lemma PartialStep(s: Mem, s1: Mem, s2: Mem, g: nat, n: nat, c: nat)
    requires Inv(s) && Partial(s, s1, g, n) && TornDown(s1, s2, c) && n < 512
    requires c < |s.role| && s.role[c].Table? && s.role[c].parent == g && s.role[c].slot == n
    ensures Partial(s, s2, g, n + 1)
  {
    NotBelow(s, s1, g, n, c);
    hide Inv, Gone, Sub, Pte;
    forall h | 0 <= h < |s.role| && h != g
      ensures if Gone(s.role, h, g, n + 1) then s2.role[h] == Unused
              else s2.role[h] == s.role[h] && s2.mem[h] == s.mem[h] && s2.refs[h] == s.refs[h]
    {
      SubOrGone(s, s1, g, n, c, h);
    }
  }

  /** The dying table is not below its child. */
  lemma NotBelow(s: Mem, s1: Mem, g: nat, n: nat, c: nat)
    requires Inv(s) && Partial(s, s1, g, n) && c < |s.role| && s.role[c].Table? && s.role[c].parent == g
    ensures c != g && !Sub(s1.role, g, c) && |s1.role| == |s.role| && 0 <= g < |s.role|
  {
    Chain(s, c);
    Chain(s, g);
  }

  lemma SubOrGone(s: Mem, s1: Mem, g: nat, n: nat, c: nat, h: nat)
    requires Inv(s) && Partial(s, s1, g, n) && n < 512 && h < |s.role| && h != g
    requires c < |s.role| && s.role[c].Table? && s.role[c].parent == g && s.role[c].slot == n
    ensures Gone(s.role, h, g, n + 1) <==> Gone(s.role, h, g, n) || Sub(s1.role, h, c)
  {
    Chain(s, h);
    Chain(s, c);
    hide Inv, Pte;
    var a := Up(s.role, h);
    var b := Up(s.role, a);
    assert a != -1 && Gone(s.role, a, g, n) ==> Gone(s.role, h, g, n);
    assert b != -1 && Gone(s.role, b, g, n) ==> Gone(s.role, h, g, n);
    if Gone(s.role, h, g, n) {
    } else if h == c {
    } else {
      assert s1.role[h] == s.role[h];
      if a != -1 && a != g {
        assert s1.role[a] == s.role[a];
        if b != -1 && b != g {
          assert s1.role[b] == s.role[b];
        }
      }
    }
  }

  /** An entry without a table behind it needs nothing done. */
  lemma PartialSkip(s: Mem, s1: Mem, g: nat, n: nat)
    requires Inv(s) && Partial(s, s1, g, n) && n < 512 && IsDir(s.role[g])
    requires !s.mem[g][n].present || (s.role[g].Root? && n == KERNEL_SLOT)
    ensures Partial(s, s1, g, n + 1)
  {
    forall h | 0 <= h < |s.role| && h != g ensures Gone(s.role, h, g, n + 1) <==> Gone(s.role, h, g, n) {
      Chain(s, h);
      NoChild(s, g, n, h);
      NoChild(s, g, n, Up(s.role, h));
      NoChild(s, g, n, Up(s.role, Up(s.role, h)));
    }
  }

  lemma NoChild(s: Mem, g: nat, n: nat, h: int)
    requires Inv(s) && g < |s.role| && IsDir(s.role[g]) && n < 512
    requires !s.mem[g][n].present || (s.role[g].Root? && n == KERNEL_SLOT)
    ensures Up(s.role, h) == g ==> s.role[h].slot != n
  {
    if Up(s.role, h) == g {
      assert ParentOk(s, h);
    }
  }

  /** The entry about to be processed still points to its table, with everything below intact. */
  lemma NextChild(s: Mem, s1: Mem, g: nat, n: nat)
    requires Inv(s) && Partial(s, s1, g, n) && n < 512 && IsDir(s.role[g]) && !(s.role[g].Root? && n == KERNEL_SLOT)
    requires s1.mem[g][n].present
    ensures s1.mem[g][n].frame < |s.role| && s1.mem[g][n].frame != g
    ensures s.role[s1.mem[g][n].frame] == s1.role[s1.mem[g][n].frame] == ChildRole(s.role[g], g, n)
    ensures s.refs[s1.mem[g][n].frame] == s1.refs[s1.mem[g][n].frame] == 1
    ensures Level(s.role[g]) >= 2
  {
    assert DirEntryOk(s, g, n);
    var c := s1.mem[g][n].frame;
    Chain(s, c);
    assert ParentOk(s, c);
    assert Up(s.role, c) == g;
    if s.role[g].Table? { assert ParentOk(s, g); Chain(s, g); }
    assert !Gone(s.role, c, g, n);
  }

  /** The page tables below `g` map nothing. */
  ghost predicate LeavesEmpty(s: Mem, g: nat) {
    Sized(s) && forall t: nat :: t < |s.role| && IsLeafTable(s.role[t]) && Sub(s.role, t, g) ==> s.mem[t] == Zeros()
  }

  lemma ChildLeavesEmpty(s: Mem, s1: Mem, g: nat, n: nat, c: nat)
    requires Inv(s) && Partial(s, s1, g, n) && n < 512 && LeavesEmpty(s, g)
    requires c < |s.role| && s.role[c].Table? && s.role[c].parent == g && s.role[c].slot == n
    ensures LeavesEmpty(s1, c)
  {
    forall t: nat | t < |s1.role| && IsLeafTable(s1.role[t]) && Sub(s1.role, t, c) ensures s1.mem[t] == Zeros() {
      if t != g {
        SubOrGone(s, s1, g, n, c, t);
        assert Gone(s.role, t, g, n + 1);
        assert Sub(s.role, t, g);
      }
    }
  }

  /** After the last entry nothing hangs off `g` any more. */
  lemma NoChildrenLeft(s: Mem, s1: Mem, g: nat)
    requires Inv(s) && Partial(s, s1, g, 512)
    ensures CanRelease(s1, g)
  {
    forall h | 0 <= h < |s1.role| && s1.role[h].Table? ensures s1.role[h].parent != g {
      assert ParentOk(s1, h);
    }
  }

  lemma ReleaseFinishes(s: Mem, s1: Mem, g: nat)
    requires Inv(s) && Partial(s, s1, g, 512)
    ensures CanRelease(s1, g) && TornDown(s, ReleaseS(s1, g), g)
  {
    NoChildrenLeft(s, s1, g);
    ReleaseKeeps(s1, g);
    var s2 := ReleaseS(s1, g);
    forall q: nat, u: nat | IsRoot(s2, q) && u < USER_PAGES ensures Pte(s2.mem, q, u) == Pte(s.mem, q, u) {
      ReleasePath(s1, g, q, u);
    }
    forall h | 0 <= h < |s.role|
      ensures if Sub(s.role, h, g) then s2.role[h] == Unused
              else s2.role[h] == s.role[h] && s2.mem[h] == s.mem[h] && s2.refs[h] == s.refs[h]
    {
      Chain(s, h);
    }
  }

  /** The count of a dying table is not constrained. */
  lemma DyingCount(s: Mem, p: nat, n: int)
    requires Inv(s) && p < |s.role| && s.role[p].Dying?
    ensures Inv(Mem(s.mem, s.role, s.refs[p := n], s.free, s.kernel))
  {
    var s' := Mem(s.mem, s.role, s.refs[p := n], s.free, s.kernel);
    assert DirsOk(s') by {
      forall f, i | 0 <= f < |s'.role| && 0 <= i < 512 && IsDir(s'.role[f]) && !(s'.role[f].Root? && i == KERNEL_SLOT)
        ensures DirEntryOk(s', f, i)
      {
        assert DirEntryOk(s, f, i);
      }
    }
    assert ParentsOk(s') by {
      forall h | 0 <= h < |s'.role| && s'.role[h].Table? ensures ParentOk(s', h) { assert ParentOk(s, h); }
    }
    assert LeavesOk(s') by {
      forall t, i | 0 <= t < |s'.role| && 0 <= i < 512 && IsLeafTable(s'.role[t]) ensures LeafOk(s', t, i) {
        assert LeafOk(s, t, i);
      }
    }
    forall f: nat | f < |s.role| ensures Slots(s', f) == Slots(s, f) {
      forall t: nat, i: nat | t < |s.role| && i < 512 ensures MapsTo(s', t, i, f) <==> MapsTo(s, t, i, f) {}
      SlotsSame(s, s', f);
    }
  }

  /** delete_page on a table that nothing hangs off: released when this was its one reference. */
  method DeletePage(k: Kernel, p: nat)
    requires k.Valid() && p < |k.role| && k.role[p].Dying? && CanRelease(k.S(), p) && k.free != []
    modifies k
    ensures k.Valid()
    ensures var s := old(k.S());
      if s.refs[p] == 1 then k.S() == ReleaseS(s, p)
      else k.S() == Mem(s.mem, s.role, s.refs[p := s.refs[p] - 1], s.free, s.kernel)
  {
    ghost var s := k.S();
    DyingCount(s, p, s.refs[p] - 1);
    hide Inv, ListOk;
    k.refCount := k.refCount[p := k.refCount[p] - 1];
    assert k.S() == Mem(s.mem, s.role, s.refs[p := s.refs[p] - 1], s.free, s.kernel);
    if k.refCount[p] == 0 {
      k.PageRelease(p);
    }
  }

  /** An empty page table under a dying directory can be marked and released on the spot. */
  ghost predicate IsEmptyLeaf(s: Mem, t: nat) {
    && Inv(s) && t < |s.role| && IsLeafTable(s.role[t]) && s.mem[t] == Zeros()
    && s.role[t].parent < |s.role| && s.role[s.role[t].parent].Dying?
  }

  lemma MarkLeafKeeps(s: Mem, t: nat)
    requires IsEmptyLeaf(s, t)
    ensures Inv(MarkS(s, t))
  {
    var s' := MarkS(s, t);
    assert DirsOk(s') by {
      forall f, i | 0 <= f < |s'.role| && 0 <= i < 512 && IsDir(s'.role[f]) && !(s'.role[f].Root? && i == KERNEL_SLOT)
        ensures DirEntryOk(s', f, i)
      {
        assert DirEntryOk(s, f, i);
      }
    }
    assert ParentsOk(s') by {
      forall h | 0 <= h < |s'.role| && s'.role[h].Table? ensures ParentOk(s', h) { assert ParentOk(s, h); }
    }
    assert LeavesOk(s') by {
      forall a, i | 0 <= a < |s'.role| && 0 <= i < 512 && IsLeafTable(s'.role[a]) ensures LeafOk(s', a, i) {
        assert LeafOk(s, a, i);
      }
    }
    forall f: nat | f < |s.role| ensures Slots(s', f) == Slots(s, f) {
      forall a: nat, i: nat | a < |s.role| && i < 512 ensures MapsTo(s', a, i, f) <==> MapsTo(s, a, i, f) {}
      SlotsSame(s, s', f);
    }
  }

  lemma LeafTornDown(s: Mem, t: nat)
    requires IsEmptyLeaf(s, t)
    ensures s.refs[t] == 1 && CanRelease(MarkS(s, t), t) && TornDown(s, ReleaseS(MarkS(s, t), t), t)
  {
    MarkLeafKeeps(s, t);
    var s1 := MarkS(s, t);
    assert ParentOk(s, t);
    forall h | 0 <= h < |s.role| ensures s1.role[h].Table? ==> s1.role[h].parent != t {
      if s.role[h].Table? { UpLevels(s, h); }
    }
    ReleaseKeeps(s1, t);
    var s2 := ReleaseS(s1, t);
    forall q: nat, u: nat | IsRoot(s2, q) && u < USER_PAGES ensures Pte(s2.mem, q, u) == Pte(s.mem, q, u) {
      ReleasePath(s1, t, q, u);
    }
    forall h | 0 <= h < |s.role| ensures Sub(s.role, h, t) <==> h == t {
      Chain(s, h);
    }
  }

  /** Facts about a directory of level two or three under a dying parent. */
  ghost predicate CanTear(s: Mem, g: nat, level: nat) {
    CanMark(s, g) && s.role[g].Table? && s.role[g].level == level && LeavesEmpty(s, g)
  }

  lemma ChildIsEmptyLeaf(s: Mem, s1: Mem, g: nat, n: nat)
    requires CanTear(s, g, 2) && Partial(s, s1, g, n) && n < 512 && s1.mem[g][n].present
    ensures s1.mem[g][n].frame < |s.role| && IsEmptyLeaf(s1, s1.mem[g][n].frame)
    ensures s.role[s1.mem[g][n].frame] == Table(1, g, n)
  {
    NextChild(s, s1, g, n);
    var t := s1.mem[g][n].frame;
    ChildLeavesEmpty(s, s1, g, n, t);
    assert Sub(s1.role, t, t);
  }

  lemma ChildCanTear(s: Mem, s1: Mem, g: nat, n: nat, level: nat)
    requires CanMark(s, g) && LeavesEmpty(s, g) && Level(s.role[g]) == level + 1 && level >= 2
    requires Partial(s, s1, g, n) && n < 512 && s1.mem[g][n].present && !(s.role[g].Root? && n == KERNEL_SLOT)
    ensures s1.mem[g][n].frame < |s.role| && CanTear(s1, s1.mem[g][n].frame, level)
    ensures s.role[s1.mem[g][n].frame] == Table(level, g, n)
  {
    NextChild(s, s1, g, n);
    ChildLeavesEmpty(s, s1, g, n, s1.mem[g][n].frame);
  }

  /** What releasing the finished directory `g` needs. */
  lemma FinishTear(s: Mem, s1: Mem, g: nat)
    requires CanMark(s, g) && s.role[g].Table? && Partial(s, s1, g, 512)
    ensures CanRelease(s1, g) && s1.refs[g] == 1 && TornDown(s, ReleaseS(s1, g), g)
  {
    assert ParentOk(s, g);
    ReleaseFinishes(s, s1, g);
  }

  lemma PartialSize(s: Mem, s1: Mem, g: nat, n: nat)
    requires Partial(s, s1, g, n)
    ensures |s1.mem| == |s.mem| == |s1.role| == |s.role| && g < |s.role| && s1.role[g].Dying?
    ensures forall i :: n <= i < 512 ==> s1.mem[g][i] == s.mem[g][i]
  {
  }

  lemma TornFree(s: Mem, s': Mem, c: nat)
    requires TornDown(s, s', c)
    ensures s.free <= s'.free
  {
  }

  lemma EmptyLeafIs(s: Mem, t: nat)
    requires IsEmptyLeaf(s, t)
    ensures t < |s.role| && s.role[t].Table? && s.role[t].level == 1
  {
  }

  /** One page table. */
  method DeletePt(k: Kernel, t: nat)
    requires k.Valid() && IsEmptyLeaf(k.S(), t) && k.free != []
    modifies k
    ensures k.Valid() && TornDown(old(k.S()), k.S(), t)
  {
    hide Inv, ListOk, TornDown, CanRelease, ReleaseS, IsEmptyLeaf;
    ghost var s := k.S();
    EmptyLeafIs(s, t);
    LeafTornDown(s, t);
    MarkLeafKeeps(s, t);
    k.role := k.role[t := Dying(1)];
    assert k.S() == MarkS(s, t);
    DeletePage(k, t);
  }

  /** The innermost loop of delete_process: the page tables of one page directory, then the directory. */
  method DeletePd(k: Kernel, g: nat)
    requires k.Valid() && CanTear(k.S(), g, 2) && k.free != []
    modifies k
    ensures k.Valid() && TornDown(old(k.S()), k.S(), g)
  {
    ghost var s := k.S();
    MarkPartial(s, g);
    hide Inv, ListOk, Partial, TornDown, CanTear, CanMark, CanRelease, ReleaseS, IsEmptyLeaf;
    k.role := k.role[g := Dying(2)];
    assert k.S() == MarkS(s, g);
    var n := 0;
    while n < 512
      invariant n <= 512 && k.Valid() && Partial(s, k.S(), g, n) && s.free <= k.free
    {
      ghost var s1 := k.S();
      PartialSize(s, s1, g, n);
      if k.mem[g][n].present {
        var t := k.mem[g][n].frame;
        ChildIsEmptyLeaf(s, s1, g, n);
        DeletePt(k, t);
        PartialStep(s, s1, k.S(), g, n, t);
        TornFree(s1, k.S(), t);
      } else {
        PartialSkip(s, s1, g, n);
      }
      n := n + 1;
    }
    FinishTear(s, k.S(), g);
    PartialSize(s, k.S(), g, n);
    DeletePage(k, g);
  }

  /** The middle loop: the page directories of one page-directory-pointer table, then the table. */
  method DeletePdpt(k: Kernel, g: nat)
    requires k.Valid() && CanTear(k.S(), g, 3) && k.free != []
    modifies k
    ensures k.Valid() && TornDown(old(k.S()), k.S(), g)
  {
    ghost var s := k.S();
    MarkPartial(s, g);
    hide Inv, ListOk, Partial, TornDown, CanTear, CanMark, CanRelease, ReleaseS;
    k.role := k.role[g := Dying(3)];
    assert k.S() == MarkS(s, g);
    var n := 0;
    while n < 512
      invariant n <= 512 && k.Valid() && Partial(s, k.S(), g, n) && s.free <= k.free
    {
      ghost var s1 := k.S();
      PartialSize(s, s1, g, n);
      if k.mem[g][n].present {
        var t := k.mem[g][n].frame;
        ChildCanTear(s, s1, g, n, 2);
        DeletePd(k, t);
        PartialStep(s, s1, k.S(), g, n, t);
        TornFree(s1, k.S(), t);
      } else {
        PartialSkip(s, s1, g, n);
      }
      n := n + 1;
    }
    FinishTear(s, k.S(), g);
    PartialSize(s, k.S(), g, n);
    DeletePage(k, g);
  }

  // ---------- owners ----------

  /** No table is left under a half-deleted directory: the state between system calls. */
  ghost predicate Quiet(s: Mem) {
    Sized(s) && forall g :: 0 <= g < |s.role| && s.role[g].Table? && s.role[g].parent < |s.role| ==>
      !s.role[s.role[g].parent].Dying?
  }

  /** The process whose tree the page table `t` belongs to. */
  function OwnerOf(role: seq<Role>, t: nat): int {
    Up(role, Up(role, Up(role, t)))
  }

  /** The page number of slot `i` of page table `t`. */
  function PageOf(role: seq<Role>, t: nat, i: nat): nat
    requires t < |role| && role[t].Table? && 0 <= Up(role, t) < |role| && role[Up(role, t)].Table?
    requires 0 <= Up(role, Up(role, t)) < |role| && role[Up(role, Up(role, t))].Table?
  {
    ((role[Up(role, Up(role, t))].slot * 512 + role[Up(role, t)].slot) * 512 + role[t].slot) * 512 + i
  }

  lemma Indices(a: nat, b: nat, c: nat, d: nat)
    requires a < KERNEL_SLOT && b < 512 && c < 512 && d < 512
    ensures var v := ((a * 512 + b) * 512 + c) * 512 + d;
      v < USER_PAGES && I4(v) == a && I3(v) == b && I2(v) == c && I1(v) == d
  {
    var v := ((a * 512 + b) * 512 + c) * 512 + d;
    assert v / 512 == (a * 512 + b) * 512 + c;
    assert v / 512 / 512 == a * 512 + b;
  }

  /** Three levels up from a page table there is a directory, and the walk back down reaches the slot. */
  lemma WalkBack(s: Mem, t: nat, i: nat)
    requires Inv(s) && t < |s.role| && IsLeafTable(s.role[t]) && i < 512
    requires Up(s.role, t) != -1 && Up(s.role, Up(s.role, t)) != -1 && OwnerOf(s.role, t) != -1
    ensures 0 <= OwnerOf(s.role, t) < |s.role| && Level(s.role[OwnerOf(s.role, t)]) == 4
    ensures 0 <= Up(s.role, t) < |s.role| && s.role[Up(s.role, t)].Table?
    ensures 0 <= Up(s.role, Up(s.role, t)) < |s.role| && s.role[Up(s.role, Up(s.role, t))].Table?
    ensures var v := PageOf(s.role, t, i); v < USER_PAGES && I1(v) == i && Pt(s.mem, OwnerOf(s.role, t), v) == t
  {
    UpLevels(s, t);
    var pd := Up(s.role, t);
    UpLevels(s, pd);
    var pdpt := Up(s.role, pd);
    UpLevels(s, pdpt);
    assert ParentOk(s, t) && ParentOk(s, pd) && ParentOk(s, pdpt);
    Indices(s.role[pdpt].slot, s.role[pd].slot, s.role[t].slot, i);
  }

  /** In a quiet state every slot belongs to one page number of one process. */
  lemma SlotOwner(s: Mem, t: nat, i: nat) returns (q: nat, v: nat)
    requires Inv(s) && Quiet(s) && t < |s.role| && IsLeafTable(s.role[t]) && i < 512
    ensures IsRoot(s, q) && v < USER_PAGES && Pt(s.mem, q, v) == t && I1(v) == i && Pte(s.mem, q, v) == s.mem[t][i]
  {
    UpLevels(s, t);
    var pd := Up(s.role, t);
    UpLevels(s, pd);
    var pdpt := Up(s.role, pd);
    UpLevels(s, pdpt);
    WalkBack(s, t, i);
    q, v := OwnerOf(s.role, t), PageOf(s.role, t, i);
  }

  // ---------- delete_process ----------

  /** Every mapped page lies in some descriptor of the process. */
  ghost predicate Covered(s: Mem, r: nat, vmas: seq<Vma>) {
    forall v: nat :: v < USER_PAGES && Pte(s.mem, r, v).present ==> v in Pages(vmas)
  }

  lemma NothingLeft(s: Mem, s1: Mem, r: nat, vmas: seq<Vma>)
    requires Inv(s) && IsRoot(s, r) && Covered(s, r, vmas) && Cleared(s, s1, r, Pages(vmas)) && Inv(s1)
    ensures LeavesEmpty(s1, r)
  {
    forall t: nat | t < |s1.role| && IsLeafTable(s1.role[t]) && Sub(s1.role, t, r) ensures s1.mem[t] == Zeros() {
      LeafUnder(s1, t, r);
      forall i: nat | i < 512 ensures s1.mem[t][i] == ZERO {
        WalkBack(s1, t, i);
        var v := PageOf(s1.role, t, i);
        PathFacts(s, r, v);
        assert Pte(s1.mem, r, v) == s1.mem[t][i];
      }
    }
  }

  lemma LeafUnder(s: Mem, t: nat, r: nat)
    requires Inv(s) && IsRoot(s, r) && t < |s.role| && IsLeafTable(s.role[t]) && Sub(s.role, t, r)
    ensures Up(s.role, t) != -1 && Up(s.role, Up(s.role, t)) != -1 && OwnerOf(s.role, t) == r
  {
    Chain(s, t);
  }

  lemma DyingSlot(s: Mem, r: nat)
    requires Inv(s) && r < |s.role| && s.role[r] == Dying(4)
    ensures Inv(SetWord(s, r, KERNEL_SLOT, ZERO))
  {
    var s' := SetWord(s, r, KERNEL_SLOT, ZERO);
    assert DirsOk(s') by {
      forall f, i | 0 <= f < |s'.role| && 0 <= i < 512 && IsDir(s'.role[f]) && !(s'.role[f].Root? && i == KERNEL_SLOT)
        ensures DirEntryOk(s', f, i)
      {
        assert DirEntryOk(s, f, i);
      }
    }
    assert ParentsOk(s') by {
      forall h | 0 <= h < |s'.role| && s'.role[h].Table? ensures ParentOk(s', h) { assert ParentOk(s, h); }
    }
    assert LeavesOk(s') by {
      forall a, i | 0 <= a < |s'.role| && 0 <= i < 512 && IsLeafTable(s'.role[a]) ensures LeafOk(s', a, i) {
        assert LeafOk(s, a, i);
      }
    }
    forall f: nat | f < |s.role| ensures Slots(s', f) == Slots(s, f) {
      forall a: nat, i: nat | a < |s.role| && i < 512 ensures MapsTo(s', a, i, f) <==> MapsTo(s, a, i, f) {}
      SlotsSame(s, s', f);
    }
  }

  lemma DyingSlotPath(s: Mem, r: nat, q: nat, u: nat)
    requires Inv(s) && r < |s.role| && s.role[r] == Dying(4) && IsRoot(s, q) && u < USER_PAGES
    ensures Pte(SetWord(s, r, KERNEL_SLOT, ZERO).mem, q, u) == Pte(s.mem, q, u)
  {
    PathFacts(s, q, u);
    SamePath(s, SetWord(s, r, KERNEL_SLOT, ZERO).mem, q, u);
  }

  /** The kernel slot of a dying root is cleared without following it. */
  lemma KernelSlotCleared(s: Mem, s1: Mem, r: nat)
    requires Inv(s) && IsRoot(s, r) && Partial(s, s1, r, KERNEL_SLOT)
    ensures Partial(s, SetWord(s1, r, KERNEL_SLOT, ZERO), r, 512)
  {
    PartialSkip(s, s1, r, KERNEL_SLOT);
    DyingSlot(s1, r);
    hide Inv, Pte, Gone;
    var s2 := SetWord(s1, r, KERNEL_SLOT, ZERO);
    forall q: nat, u: nat | IsRoot(s2, q) && u < USER_PAGES ensures Pte(s2.mem, q, u) == Pte(s.mem, q, u) {
      DyingSlotPath(s1, r, q, u);
    }
  }

  /** delete_process on a process all of whose pages lie in `vmas`. */
  ghost predicate Deleted(s: Mem, s': Mem, r: nat) {
    && Inv(s) && Inv(s') && |s'.mem| == |s.mem| && s'.kernel == s.kernel && r < |s.role|
    // the root alone stays behind, its count one below zero
    && s'.role[r] == Dying(4) && s'.refs[r] == s.refs[r] - 1
    // every table of the process is free, every other table stays in use
    && (forall h :: 0 <= h < |s.role| && s.role[h].Table? ==>
          s'.role[h] == if Under(s.role, h, r) then Unused else s.role[h])
    && (forall h :: 0 <= h < |s.role| && h != r && !s.role[h].Table? && s.role[h] != Data ==> s'.role[h] == s.role[h])
    // no other process notices
    && (forall q: nat :: q != r ==> (IsRoot(s', q) <==> IsRoot(s, q)))
    && (forall q: nat, u: nat :: q != r && IsRoot(s, q) && u < USER_PAGES ==> Pte(s'.mem, q, u) == Pte(s.mem, q, u))
    && (forall g :: 0 <= g < |s.role| && s.role[g] == Reserved ==> s'.mem[g] == s.mem[g])
    // a data frame stays, with its contents and still referenced, or goes
    && (forall f :: 0 <= f < |s.role| && s.role[f] == Data ==>
          (s'.role[f] == Data && s'.mem[f] == s.mem[f] && (1 <= s.refs[f] ==> 1 <= s'.refs[f])) || s'.role[f] == Unused)
  }

  lemma DeletedFrom(s: Mem, s1: Mem, s2: Mem, s3: Mem, r: nat, done: set<nat>)
    requires Inv(s) && Inv(s1) && IsRoot(s, r) && Cleared(s, s1, r, done) && Partial(s1, s2, r, 512)
    requires s3 == Mem(s2.mem, s2.role, s2.refs[r := s2.refs[r] - 1], s2.free, s2.kernel) && Inv(s3)
    ensures Deleted(s, s3, r)
  {
    DeletedTables(s, s1, s2, s3, r, done);
    DeletedFrames(s, s1, s2, s3, r, done);
    DeletedKeys(s, s1, s2, s3, r, done);
    hide Inv, Pte, Under, Gone, FramesCleared, Cleared;
  }

  lemma DeletedTables(s: Mem, s1: Mem, s2: Mem, s3: Mem, r: nat, done: set<nat>)
    requires Inv(s) && Inv(s1) && IsRoot(s, r) && Cleared(s, s1, r, done) && Partial(s1, s2, r, 512)
    requires s3 == Mem(s2.mem, s2.role, s2.refs[r := s2.refs[r] - 1], s2.free, s2.kernel) && Inv(s3)
    ensures forall h :: 0 <= h < |s.role| && s.role[h].Table? ==>
      s3.role[h] == if Under(s.role, h, r) then Unused else s.role[h]
    ensures forall h :: 0 <= h < |s.role| && s1.role[h].Table? && !s.role[h].Table? ==> s3.role[h] == Unused
  {
    forall h | 0 <= h < |s.role| && s.role[h].Table?
      ensures s3.role[h] == if Under(s.role, h, r) then Unused else s.role[h]
    {
      TableKept(s, s1, r, h);
    }
    forall h | 0 <= h < |s.role| && s1.role[h].Table? && !s.role[h].Table? ensures s3.role[h] == Unused {
      assert Under(s1.role, h, r);
      GoneIffUnder(s1, h, r);
    }
  }

  lemma DeletedFrames(s: Mem, s1: Mem, s2: Mem, s3: Mem, r: nat, done: set<nat>)
    requires Inv(s) && Inv(s1) && IsRoot(s, r) && Cleared(s, s1, r, done) && Partial(s1, s2, r, 512)
    requires s3 == Mem(s2.mem, s2.role, s2.refs[r := s2.refs[r] - 1], s2.free, s2.kernel) && Inv(s3)
    ensures forall h :: 0 <= h < |s.role| && h != r && !s1.role[h].Table? ==>
      s3.role[h] == s1.role[h] && s3.mem[h] == s1.mem[h] && s3.refs[h] == s1.refs[h]
  {
    forall h | 0 <= h < |s.role| && !s1.role[h].Table? ensures !Gone(s1.role, h, r, 512) {}
  }

  lemma DeletedKeys(s: Mem, s1: Mem, s2: Mem, s3: Mem, r: nat, done: set<nat>)
    requires Inv(s) && Inv(s1) && IsRoot(s, r) && Cleared(s, s1, r, done) && Partial(s1, s2, r, 512)
    requires s3 == Mem(s2.mem, s2.role, s2.refs[r := s2.refs[r] - 1], s2.free, s2.kernel) && Inv(s3)
    ensures forall q: nat :: q != r ==> (IsRoot(s3, q) <==> IsRoot(s, q))
    ensures forall q: nat, u: nat :: q != r && IsRoot(s, q) && u < USER_PAGES ==> Pte(s3.mem, q, u) == Pte(s.mem, q, u)
  {
    forall q: nat, u: nat | q != r && IsRoot(s, q) && u < USER_PAGES ensures Pte(s3.mem, q, u) == Pte(s.mem, q, u) {
      assert IsRoot(s1, q) && IsRoot(s2, q);
      assert Pte(s1.mem, q, u) == Pte(s.mem, q, u);
    }
  }

  lemma GoneIffUnder(s: Mem, h: nat, r: nat)
    requires Inv(s) && h < |s.role|
    ensures Gone(s.role, h, r, 512) <==> Under(s.role, h, r)
  {
    Chain(s, h);
  }

  lemma TableKept(s: Mem, s1: Mem, r: nat, h: nat)
    requires Inv(s) && Inv(s1) && FramesCleared(s, s1, r) && h < |s.role| && s.role[h].Table?
    ensures s1.role[h] == s.role[h] && (Gone(s1.role, h, r, 512) <==> Under(s.role, h, r))
  {
    Chain(s, h);
    Chain(s1, h);
    GoneIffUnder(s1, h, r);
    var a := Up(s.role, h);
    if s.role[a].Table? {
      var b := Up(s.role, a);
      if s.role[b].Table? {
      }
    }
  }

  /** The slot of the kernel's tables is cleared without following it. */
  method ClearKernelSlot(k: Kernel, r: nat, ghost s: Mem)
    requires k.Valid() && Inv(s) && IsRoot(s, r) && Partial(s, k.S(), r, KERNEL_SLOT) && s.free <= k.free
    modifies k
    ensures k.Valid() && Partial(s, k.S(), r, KERNEL_SLOT + 1) && s.free <= k.free
  {
    hide Inv, ListOk, Partial;
    ghost var s1 := k.S();
    PartialSize(s, s1, r, KERNEL_SLOT);
    KernelSlotCleared(s, s1, r);
    DyingSlotPartial(s, s1, r);
    k.mem := k.mem[r := k.mem[r][KERNEL_SLOT := ZERO]];
    assert k.S() == SetWord(s1, r, KERNEL_SLOT, ZERO);
  }

  /** The table loops of delete_process, from the root. */
  method DeleteTables(k: Kernel, r: nat)
    requires k.Valid() && IsRoot(k.S(), r) && LeavesEmpty(k.S(), r) && k.free != []
    modifies k
    ensures k.Valid() && Partial(old(k.S()), k.S(), r, 512) && k.free != []
  {
    hide Inv, ListOk, Partial, TornDown, CanTear, CanMark, LeavesEmpty;
    ghost var s := k.S();
    RootCanMark(s, r);
    MarkPartial(s, r);
    k.role := k.role[r := Dying(4)];
    assert k.S() == MarkS(s, r);
    var n := 0;
    while n < 512
      invariant n <= 512 && k.Valid() && Partial(s, k.S(), r, n) && s.free <= k.free
    {
      ghost var s1 := k.S();
      PartialSize(s, s1, r, n);
      if n == KERNEL_SLOT {
        ClearKernelSlot(k, r, s);
      } else if k.mem[r][n].present {
        var t := k.mem[r][n].frame;
        RootCanMark(s, r);
        ChildCanTear(s, s1, r, n, 3);
        DeletePdpt(k, t);
        PartialStep(s, s1, k.S(), r, n, t);
        TornFree(s1, k.S(), t);
      } else {
        PartialSkip(s, s1, r, n);
      }
      n := n + 1;
    }
  }

  lemma DyingSlotPartial(s: Mem, s1: Mem, r: nat)
    requires IsRoot(s, r) && Partial(s, s1, r, KERNEL_SLOT)
    ensures r < |s1.mem| && Inv(SetWord(s1, r, KERNEL_SLOT, ZERO))
  {
    DyingSlot(s1, r);
  }

  lemma RootCanMark(s: Mem, r: nat)
    requires Inv(s) && IsRoot(s, r)
    ensures CanMark(s, r)
  {
  }

  /** delete_process: unmap the descriptors' pages, release the tables, and drop the root's count. */
  method DeleteProcess(k: Kernel, r: nat, vmas: seq<Vma>) returns (ok: bool)
    requires k.Valid() && IsRoot(k.S(), r) && VmasOk(vmas) && Covered(k.S(), r, vmas) && k.free != []
    modifies k
    ensures 3 * Span(vmas) < |old(k.free)| ==> ok
    ensures ok ==> k.Valid() && Deleted(old(k.S()), k.S(), r)
  {
    hide Inv, ListOk, Partial, Cleared, Deleted, LeavesEmpty, Covered, VmasOk, CanRelease, ReleaseS;
    ghost var s := k.S();
    ok := RemoveVmas(k, r, vmas);
    if !ok {
      return;
    }
    ghost var s1 := k.S();
    NothingLeft(s, s1, r, vmas);
    DeleteTables(k, r);
    ghost var s2 := k.S();
    PartialSize(s1, s2, r, 512);
    NoChildrenLeft(s1, s2, r);
    RootCount(s1, s2, r);
    DeletePage(k, r);
    DeletedFrom(s, s1, s2, k.S(), r, Pages(vmas));
  }

  lemma RootCount(s: Mem, s1: Mem, r: nat)
    requires Inv(s) && IsRoot(s, r) && Partial(s, s1, r, 512)
    ensures r < |s1.refs| && s1.refs[r] == 0 && s1.role[r] == Dying(4)
  {
  }

  /** Deleting a process leaves no table of it behind and keeps the quiet state quiet. */
  lemma DeletedQuiet(s: Mem, s': Mem, r: nat)
    requires Deleted(s, s', r) && IsRoot(s, r) && Quiet(s)
    ensures Quiet(s') && forall h :: 0 <= h < |s'.role| ==> !(s'.role[h].Table? && Under(s'.role, h, r))
  {
    forall h | 0 <= h < |s'.role| && s'.role[h].Table?
      ensures s'.role[h].parent < |s'.role| && !s'.role[s'.role[h].parent].Dying? && !Under(s'.role, h, r)
    {
      UpLevels(s', h);
      UpLevels(s, h);
      Chain(s, h);
      Chain(s', h);
    }
  }

  /** A mapped frame survives exactly when another process maps it too. */
  lemma SurvivesIffShared(s: Mem, s': Mem, r: nat, f: nat)
    requires Deleted(s, s', r) && IsRoot(s, r) && Quiet(s)
    requires f < |s.role| && s.role[f] == Data && 1 <= s.refs[f]
    ensures s'.role[f] == Data <==>
      exists q: nat, u: nat :: q != r && IsRoot(s, q) && u < USER_PAGES && Pte(s.mem, q, u).present &&
        Pte(s.mem, q, u).frame == f
  {
    DeletedQuiet(s, s', r);
    if s'.role[f] == Data {
      assert |Slots(s', f)| >= 1;
      var x :| x in Slots(s', f);
      SlotsIn(s', f, x.0, x.1);
      var q, u := SlotOwner(s', x.0, x.1);
      assert IsRoot(s, q) && Pte(s'.mem, q, u) == Pte(s.mem, q, u);
    }
    if q: nat, u: nat :|
      q != r && IsRoot(s, q) && u < USER_PAGES && Pte(s.mem, q, u).present && Pte(s.mem, q, u).frame == f
    {
      PathFacts(s', q, u);
    }
  }
}
