/** sys/page.c: the frame allocator and the page-table operations, on kernel state that they update. */
module KernelMemory {
  import opened Words
  import opened Memory
  import opened Updates

  /** Element `k` of a list spelled by the links. */
  ghost predicate LinkedAt(next: seq<int>, prev: seq<int>, q: seq<nat>, k: nat)
    requires |next| == |prev| && k < |q|
  {
    && q[k] < |next|
    && prev[q[k]] == (if k == 0 then -1 else q[k - 1])
    && next[q[k]] == (if k == |q| - 1 then -1 else q[k + 1])
  }

  ghost predicate ListOk(next: seq<int>, prev: seq<int>, q: seq<nat>) {
    |next| == |prev| && Distinct(q) && forall k :: 0 <= k < |q| ==> LinkedAt(next, prev, q, k)
  }

  lemma PopKeeps(next: seq<int>, prev: seq<int>, q: seq<nat>)
    requires ListOk(next, prev, q) && q != []
    ensures |prev| == |next| && q[|q| - 1] < |next| && prev[q[|q| - 1]] == if |q| == 1 then -1 else q[|q| - 2]
    ensures 2 <= |q| ==> q[|q| - 2] < |next|
    ensures 2 <= |q| ==> ListOk(next[q[|q| - 2] := -1], prev[q[|q| - 1] := -1], q[..|q| - 1])
  {
    var n := |q|;
    assert LinkedAt(next, prev, q, n - 1);
    if 2 <= n {
      assert LinkedAt(next, prev, q, n - 2);
      var next', prev', q' := next[q[n - 2] := -1], prev[q[n - 1] := -1], q[..n - 1];
      forall k | 0 <= k < n - 1 ensures LinkedAt(next', prev', q', k) {
        assert LinkedAt(next, prev, q, k);
      }
    }
  }

  lemma PushKeeps(next: seq<int>, prev: seq<int>, q: seq<nat>, p: nat)
    requires ListOk(next, prev, q) && q != [] && p < |next| && p !in q
    ensures q[|q| - 1] < |next|
    ensures ListOk(next[p := -1][q[|q| - 1] := p], prev[p := q[|q| - 1]], q + [p])
  {
    var n := |q|;
    assert LinkedAt(next, prev, q, n - 1);
    var next', prev', q' := next[p := -1][q[n - 1] := p], prev[p := q[n - 1]], q + [p];
    forall k | 0 <= k < n + 1 ensures LinkedAt(next', prev', q', k) {
      if k < n {
        assert LinkedAt(next, prev, q, k);
      }
    }
  }

  lemma UserIndex(v: nat)
    requires v < USER_PAGES
    ensures I4(v) < KERNEL_SLOT
  {
  }

  lemma AllocValid(s: Mem)
    requires Inv(s) && 0 < |s.free|
    ensures s.free[|s.free| - 1] < |s.mem| && Inv(AllocS(s))
  {
    AllocKeeps(s);
  }

  const NUM_PAGES: nat := 32766
  const PHYSBASE: nat := 0x20_0000
  const KHEAPEND: nat := 0xFFFF_FFFF_8060_0000

  /** The test of page_free_init, with its comparison of physical addresses against a kernel virtual one. */
  predicate IsReserved(i: nat) {
    var start := i * 4096;
    var end := start + 4095;
    || (0x9_FC00 <= start <= 0x10_0000) || (0x9_FC00 <= end <= 0x10_0000)
    || (PHYSBASE <= start <= KHEAPEND) || (PHYSBASE <= end <= KHEAPEND)
  }

  /** How many of the first `n` frames page_free_init leaves free. */
  function FreeBelow(n: nat): nat {
    if n <= 0x9F then n else if n <= 0x101 then 0x9F else if n <= 0x200 then n - 0x62 else 0x19E
  }

  /** Because of that comparison every frame from PHYSBASE up is reserved, however much memory there is. */
  lemma ReservedFrames(i: nat)
    requires i < NUM_PAGES
    ensures IsReserved(i) <==> !(i < 0x9F || 0x101 <= i < 0x200)
    ensures FreeBelow(i + 1) == FreeBelow(i) + if IsReserved(i) then 0 else 1
  {
  }

  class Kernel {
    var mem: seq<Page>
    // struct page: one sequence per field, -1 for NULL
    var next: seq<int>
    var prev: seq<int>
    var refCount: seq<int>
    var freeList: int
    var kernelEntry: Word
    ghost var role: seq<Role>
    ghost var free: seq<nat>

    ghost function S(): Mem
      reads this
    {
      Mem(mem, role, refCount, free, kernelEntry)
    }

    ghost predicate Linked()
      reads this
    {
      && |next| == |mem|
      && ListOk(next, prev, free)
      && freeList == (if free == [] then -1 else free[|free| - 1])
    }

    ghost predicate Valid()
      reads this
    {
      Sized(S()) && Inv(S()) && Linked()
    }

    /** page_free_init over zeroed page descriptors: 414 of the 32766 frames end up on the list. */
    constructor (memory: seq<Page>, kernelEntry: Word)
      requires |memory| == NUM_PAGES
      ensures Valid() && mem == memory && this.kernelEntry == kernelEntry
      ensures forall i :: 0 <= i < NUM_PAGES ==> role[i] == if IsReserved(i) then Reserved else Unused
      ensures |free| == 414
    {
      var next': seq<int>, prev', refs' := seq(NUM_PAGES, _ => -1), seq(NUM_PAGES, _ => -1), seq(NUM_PAGES, _ => 0);
      var head, i := -1, 0;
      ghost var q: seq<nat> := [];
      while i < NUM_PAGES
        invariant 0 <= i <= NUM_PAGES && |refs'| == |next'| == NUM_PAGES
        invariant ListOk(next', prev', q) && head == (if q == [] then -1 else q[|q| - 1]) && |q| == FreeBelow(i)
        invariant forall f :: f in q ==> f < i && !IsReserved(f)
        invariant forall f :: 0 <= f < i && !IsReserved(f) ==> f in q && refs'[f] == 0
        invariant forall f :: i <= f < NUM_PAGES ==> next'[f] == -1 && prev'[f] == -1 && refs'[f] == 0
      {
        ReservedFrames(i);
        if IsReserved(i) {
          refs' := refs'[i := 1];
        } else {
          if head == -1 {
            head := i;
            next' := next'[head := -1];
            assert LinkedAt(next', prev', [i], 0);
          } else {
            PushKeeps(next', prev', q, i);
            assert q[|q| - 1] in q;
            assert next'[i := -1] == next';
            next' := next'[head := i];
            prev' := prev'[i := head];
            head := i;
            refs' := refs'[i := 0];
          }
          q := q + [i];
        }
        i := i + 1;
      }
      mem, next, prev, refCount, freeList := memory, next', prev', refs', head;
      this.kernelEntry := kernelEntry;
      role := seq(NUM_PAGES, f requires 0 <= f => if IsReserved(f) then Reserved else Unused);
      free := q;
    }

    /** page_alloc. When it takes the last frame the source writes through a NULL list head: `ok` is false. */
    method PageAlloc() returns (ok: bool, p: nat)
      requires Valid()
      modifies this
      ensures ok <==> 2 <= |old(free)|
      ensures ok ==> Valid() && p == old(free)[|old(free)| - 1] && S() == AllocS(old(S()))
      ensures ok ==> p < |mem| == |old(mem)| && free == old(free)[..|old(free)| - 1] && refCount == old(refCount)
      ensures ok ==> forall i :: 0 <= i < 512 ==> mem[p][i] == Word(0, false, false, false, false, 0)
      ensures ok ==> forall f :: 0 <= f < |mem| && f != p ==> mem[f] == old(mem)[f]
    {
      hide Inv, ListOk;
      if freeList == -1 {
        return false, 0;
      }
      AllocValid(S());
      PopKeeps(next, prev, free);
      p := freeList;
      freeList := prev[p];
      prev := prev[p := -1];
      if freeList == -1 {
        return false, p;
      }
      next := next[freeList := -1];
      mem := mem[p := Zeros()];
      role := role[p := Data];
      free := free[..|free| - 1];
      ok := true;
    }

    /** page_release. */
    method PageRelease(p: nat)
      requires Valid() && CanRelease(S(), p) && free != []
      modifies this
      ensures Valid() && S() == ReleaseS(old(S()), p)
      ensures free == old(free) + [p] && refCount == old(refCount)[p := 0] && |mem| == |old(mem)|
      ensures forall i :: 0 <= i < 512 ==> mem[p][i] == Word(0, false, false, false, false, 0)
      ensures forall f :: 0 <= f < |mem| && f != p ==> mem[f] == old(mem)[f]
    {
      ReleaseKeeps(S(), p);
      assert p !in free;
      PushKeeps(next, prev, free, p);
      hide Inv, ListOk, CanRelease;
      mem := mem[p := Zeros()];
      refCount := refCount[p := 0];
      next := next[p := -1];
      prev := prev[p := freeList];
      next := next[freeList := p];
      freeList := p;
      role := role[p := Unused];
      free := free + [p];
    }

    /** What the three walk functions share: the table behind entry `i` of `f`, allocated when absent. */
    method Enter(f: nat, i: nat) returns (ok: bool, g: nat)
      requires Valid() && f < |role| && i < 512 && IsDir(role[f]) && !(role[f].Root? && i == KERNEL_SLOT)
      modifies this
      ensures ok <==> old(mem[f][i].present) || 2 <= |old(free)|
      ensures ok ==> Valid() && Entered(old(S()), S(), f, i) && g == mem[f][i].frame
      ensures old(mem[f][i].present) ==> S() == old(S())
    {
      hide Inv;
      ghost var s := S();
      if mem[f][i].present {
        EnterKeeps(s, f, i);
        return true, mem[f][i].frame;
      }
      ok, g := PageAlloc();
      if ok {
        EnterKeeps(s, f, i);
        refCount := refCount[g := refCount[g] + 1];
        mem := mem[f := mem[f][i := TableWord(g)]];
        role := role[g := ChildRole(role[f], f, i)];
        assert S() == EnterS(s, f, i);
      }
    }

    /** pdeWalk. */
    method PdeWalk(pde: nat, v: nat) returns (ok: bool, t: nat, i: nat)
      requires Valid() && pde < |role| && role[pde].Table? && role[pde].level == 2
      modifies this
      ensures ok <==> Down(old(mem), pde, I2(v)) != -1 || 2 <= |old(free)|
      ensures ok ==> Valid() && Grown(old(S()), S()) && NewUnder(old(S()), S(), pde)
      ensures ok ==> |free| == |old(free)| - if Down(old(mem), pde, I2(v)) == -1 then 1 else 0
      ensures ok ==> Down(mem, pde, I2(v)) == t && t < |role| && role[t] == Table(1, pde, I2(v)) && i == I1(v)
      ensures Down(old(mem), pde, I2(v)) != -1 ==> S() == old(S())
    {
      hide Inv, Grown, Linked, ListOk;
      ok, t := Enter(pde, I2(v));
      i := I1(v);
    }

    /** pdpeWalk. */
    method PdpeWalk(pdpe: nat, v: nat) returns (ok: bool, t: nat, i: nat)
      requires Valid() && pdpe < |role| && role[pdpe].Table? && role[pdpe].level == 3
      modifies this
      ensures var m := MissingBelow(old(mem), pdpe, v); ok <==> m == 0 || m < |old(free)|
      ensures ok ==> Valid() && Grown(old(S()), S()) && NewUnder(old(S()), S(), pdpe)
      ensures ok ==> |free| == |old(free)| - MissingBelow(old(mem), pdpe, v)
      ensures ok ==> 0 <= Down(mem, pdpe, I3(v)) < |role| && role[Down(mem, pdpe, I3(v))] == Table(2, pdpe, I3(v))
      ensures ok ==> Down(mem, Down(mem, pdpe, I3(v)), I2(v)) == t && t < |role| && i == I1(v)
      ensures ok ==> role[t] == Table(1, Down(mem, pdpe, I3(v)), I2(v))
      ensures MissingBelow(old(mem), pdpe, v) == 0 ==> S() == old(S())
    {
      hide Inv, Grown, Linked, ListOk;
      ghost var s := S();
      var pde;
      t, i := 0, 0;
      ok, pde := Enter(pdpe, I3(v));
      if ok {
        ghost var s1 := S();
        ok, t, i := PdeWalk(pde, v);
        if ok {
          TwoWalks(s, s1, S(), pdpe, I3(v), pde);
        }
      }
    }

    /** pml4Walk: the slot of page number `v`, with the tables on the way allocated. No mapping changes. */
    method Pml4Walk(root: nat, v: nat) returns (ok: bool, t: nat, i: nat)
      requires Valid() && IsRoot(S(), root) && v < USER_PAGES
      modifies this
      ensures ok <==> Missing(old(mem), root, v) == 0 || Missing(old(mem), root, v) < |old(free)|
      ensures ok ==> Valid() && Grown(old(S()), S()) && NewUnder(old(S()), S(), root)
      ensures ok ==> |free| == |old(free)| - Missing(old(mem), root, v)
      ensures ok ==> Pt(mem, root, v) == t && i == I1(v) && IsLeafSlot(S(), t, i)
      ensures Missing(old(mem), root, v) == 0 ==> S() == old(S())
    {
      ghost var s := S();
      var pdpe;
      t, i := 0, 0;
      hide Inv, Grown, Linked, NewUnder, ListOk;
      UserIndex(v);
      ok, pdpe := Enter(root, I4(v));
      if ok {
        ghost var s1 := S();
        ok, t, i := PdpeWalk(pdpe, v);
        if ok {
          TwoWalks(s, s1, S(), root, I4(v), pdpe);
        }
      }
    }
  
    /** page_insert. On an occupied entry the source prints a message and loops forever. */
    method PageInsert(root: nat, v: nat, p: nat, rw: bool, cow: bool) returns (ok: bool)
      requires Valid() && IsRoot(S(), root) && v < USER_PAGES && p < |role| && role[p] == Data
      requires !Pte(mem, root, v).present
      modifies this
      ensures ok <==> Missing(old(mem), root, v) == 0 || Missing(old(mem), root, v) < |old(free)|
      ensures ok ==> Valid() && OneKey(old(S()), S(), root, v, LeafWord(p, rw, cow))
      ensures ok ==> Pte(mem, root, v) == Word(p, true, rw, true, cow, 0)
      ensures ok ==> SameContents(old(S()), S()) && CountChanges(old(S()), S(), p, 1)
      ensures ok ==> NewUnder(old(S()), S(), root)
      ensures ok ==> free <= old(free) && |free| == |old(free)| - Missing(old(mem), root, v)
    {
      hide Inv, Grown, NewUnder, ListOk, OneKey, SameContents, CountChanges;
      ghost var s := S();
      var t, i;
      ok, t, i := Pml4Walk(root, v);
      if ok {
        ghost var s1 := S();
        InsertEffect(s, s1, root, v, LeafWord(p, rw, cow));
        GrownFree(s, s1);
        NewUnderSameRoles(s, s1, MapS(s1, t, i, LeafWord(p, rw, cow)), root);
        mem := mem[t := mem[t][i := LeafWord(p, rw, cow)]];
        refCount := refCount[p := refCount[p] + 1];
        assert S() == MapS(s1, t, i, LeafWord(p, rw, cow));
      }
    }

    /** page_remove. */
    method PageRemove(root: nat, v: nat) returns (ok: bool)
      requires Valid() && IsRoot(S(), root) && v < USER_PAGES && free != []
      modifies this
      ensures ok <==> Missing(old(mem), root, v) == 0 || Missing(old(mem), root, v) < |old(free)|
      ensures ok && old(Pte(mem, root, v)).present ==> Valid() && S() == RemoveS(old(S()), root, v)
      ensures ok && !old(Pte(mem, root, v)).present ==> Valid() && Grown(old(S()), S()) && NewUnder(old(S()), S(), root)
      ensures ok && !old(Pte(mem, root, v)).present ==> |free| == |old(free)| - Missing(old(mem), root, v)
    {
      hide Inv, NewUnder, ListOk, CanRelease, Pt, Missing, Grown;
      ghost var s := S();
      var t, i;
      ok, t, i := Pml4Walk(root, v);
      if ok {
        WalkedWord(s, S(), root, v);
        if mem[t][i] != ZERO {
          assert S() == s;
          RemoveParts(s, root, v);
          var f := mem[t][i].frame;
          refCount := refCount[f := refCount[f] - 1];
          mem := mem[t := mem[t][i := ZERO]];
          assert S() == DropS(s, t, i);
          if refCount[f] == 0 {
            PageRelease(f);
          }
        }
      }
    }
  }

  lemma GrownFree(s: Mem, s': Mem)
    requires Grown(s, s')
    ensures s'.free <= s.free && |s'.mem| == |s.mem|
  {
  }

  lemma NewUnderSameRoles(s: Mem, s1: Mem, s2: Mem, r: nat)
    requires NewUnder(s, s1, r) && Sized(s2) && |s2.mem| == |s1.mem| && s2.role == s1.role
    ensures NewUnder(s, s2, r)
  {
  }

  /** The word found by a walk is the entry, and it is either ZERO or present. */
  lemma WalkedWord(s: Mem, s': Mem, r: nat, v: nat)
    requires Grown(s, s') && IsRoot(s, r) && v < USER_PAGES && Pt(s'.mem, r, v) != -1
    ensures 0 <= Pt(s'.mem, r, v) < |s'.mem| && s'.mem[Pt(s'.mem, r, v)][I1(v)] == Pte(s.mem, r, v)
    ensures Pte(s.mem, r, v).present <==> Pte(s.mem, r, v) != ZERO
    ensures Pte(s.mem, r, v).present ==> Missing(s.mem, r, v) == 0
  {
    assert Pte(s'.mem, r, v) == Pte(s.mem, r, v);
    PathFacts(s', r, v);
    PathFacts(s, r, v);
  }

  /** The outcome of one level of a walk. */
  ghost predicate Entered(s: Mem, s': Mem, f: nat, i: nat) {
    && Sized(s) && Sized(s') && |s'.mem| == |s.mem| && f < |s.role| && i < 512
    && var g := s'.mem[f][i].frame;
    && Grown(s, s') && NewUnder(s, s', f)
    && s'.mem[f][i].present && g < |s.role|
    && IsDir(s.role[f]) && s'.role[f] == s.role[f] && Level(s.role[f]) >= 2 &&
      s'.role[g] == Table(Level(s.role[f]) - 1, f, i)
    && (if s.mem[f][i].present then s' == s else |s'.free| == |s.free| - 1 && s'.mem[g] == Zeros())
  }

  lemma NewUnderTransitive(s: Mem, s1: Mem, s2: Mem, f: nat, g: nat)
    requires Sized(s) && Sized(s1) && Sized(s2) && |s.mem| == |s1.mem| == |s2.mem|
    requires NewUnder(s, s1, f) && NewUnder(s1, s2, g) && g < |s.role|
    requires s2.role[g].Table? && s2.role[g].parent == f
    requires forall h :: 0 <= h < |s.role| && s1.role[h] != Unused ==> s2.role[h] == s1.role[h]
    requires forall h :: 0 <= h < |s.role| && s1.role[h] == Unused ==> s2.role[h] == Unused || Under(s2.role, h, g)
    requires Inv(s2)
    ensures NewUnder(s, s2, f)
  {
    forall h | 0 <= h < |s.role| && s2.role[h] != s.role[h]
      ensures s.role[h] == Unused && s2.role[h].Table? && Under(s2.role, h, f)
    {
      if s1.role[h] == Unused {
        assert ParentOk(s2, h);
        if s2.role[s2.role[h].parent].Table? { assert ParentOk(s2, s2.role[h].parent); }
      } else {
        assert Under(s1.role, h, f);
      }
    }
  }

  /** One level of a walk, and then the rest of it. */
  lemma TwoWalks(s: Mem, s1: Mem, s2: Mem, f: nat, i: nat, g: nat)
    requires Entered(s, s1, f, i) && g == s1.mem[f][i].frame && !(s1.role[f].Root? && i == KERNEL_SLOT)
    requires Grown(s1, s2) && NewUnder(s1, s2, g) && Inv(s2)
    ensures Grown(s, s2) && NewUnder(s, s2, f)
    ensures |s2.mem| == |s1.mem| == |s2.role| && s2.role[f] == s1.role[f] && s2.role[g] == s1.role[g]
    ensures Down(s2.mem, f, i) == g
  {
    GrownTransitive(s, s1, s2);
    GrownKeepsUse(s1, s2, f);
    GrownKeepsUse(s1, s2, g);
    GrownRoles(s1, s2);
    hide Grown;
    NewUnderTransitive(s, s1, s2, f, g);
  }

  lemma GrownRoles(s: Mem, s': Mem)
    requires Grown(s, s')
    ensures Sized(s) && Sized(s') && |s'.mem| == |s.mem|
    ensures forall h :: 0 <= h < |s.role| && s.role[h] != Unused ==> s'.role[h] == s.role[h]
  {
  }

  function MissingBelow(mem: seq<Page>, pdpe: nat, v: nat): nat {
    if Down(mem, pdpe, I3(v)) == -1 then 2
    else if Down(mem, Down(mem, pdpe, I3(v)), I2(v)) == -1 then 1
    else 0
  }
}
