/** Building the memory areas of a program: sys/elf.c, add_heap_vma and add_stack_vma of sys/process.c. */
module Elf {
  import opened Limits
  import opened Processes

  const SH_ALLOC: nat := 2

  /** The fields of a section header that matter here. */
  datatype Section = Section(addr: nat, size: nat, flags: nat, kind: nat, offset: nat)

  predicate Allocated(s: Section) { (s.flags / SH_ALLOC) % 2 == 1 }

  /** get_vma_flags. */
  function VmaFlags(shf: nat): nat {
    if shf == 6 then 5 else if shf == 3 then 3 else if shf == 2 then 1 else if shf == 7 then 7 else 2
  }

  predicate Contains(m: Vma, addr: nat) { m.start <= addr <= m.end }

  predicate SomeContains(vmas: seq<Vma>, addr: nat) { exists i :: 0 <= i < |vmas| && Contains(vmas[i], addr) }

  /** The first area that contains the address. */
  ghost predicate IsFirst(vmas: seq<Vma>, addr: nat, i: int) {
    0 <= i < |vmas| && Contains(vmas[i], addr) && forall j :: 0 <= j < i ==> !Contains(vmas[j], addr)
  }

  function Extended(m: Vma, s: Section): Vma {
    if s.addr + s.size > m.end then m.(end := AlignUp(s.addr + s.size)) else m
  }

  /** A section's area; only its place and its permissions matter. */
  function NewVma(s: Section): Vma { Vma(AlignDown(s.addr), AlignUp(s.addr + s.size), VmaFlags(s.flags)) }

  /** What one allocated section does to the areas. */
  ghost predicate Placed(vmas: seq<Vma>, s: Section, vmas': seq<Vma>) {
    if SomeContains(vmas, s.addr) then
      exists i :: IsFirst(vmas, s.addr, i) && vmas' == vmas[i := Extended(vmas[i], s)]
    else vmas' == vmas + [NewVma(s)]
  }

  // ---------- what placing keeps ----------

  predicate AreaOk(m: Vma) { m.start <= m.end && m.start % PAGE_SIZE == 0 && m.end % PAGE_SIZE == 0 }

  predicate AreasOk(vmas: seq<Vma>) { forall i :: 0 <= i < |vmas| ==> AreaOk(vmas[i]) }

  /** The section's bytes lie in one area. */
  predicate Covers(m: Vma, s: Section) { m.start <= s.addr && s.addr + s.size <= m.end }

  ghost predicate CoveredBy(vmas: seq<Vma>, s: Section) { exists i :: 0 <= i < |vmas| && Covers(vmas[i], s) }

  lemma Aligned(a: nat)
    ensures AlignDown(a) % PAGE_SIZE == 0 && AlignUp(a) % PAGE_SIZE == 0
    ensures AlignDown(a) <= a <= AlignUp(a)
    ensures a - AlignDown(a) < PAGE_SIZE && AlignUp(a) - a < PAGE_SIZE
  {
  }

  /** An aligned bound above an address is above its page's end, and one below it is below its page. */
  lemma AlignedBounds(a: nat, b: nat)
    requires b % PAGE_SIZE == 0
    ensures a <= b ==> AlignUp(a) <= b
    ensures b <= a ==> b <= AlignDown(a)
  {
    Aligned(a);
  }

  /** Placing a section covers it, uncovers nothing and keeps the areas page-aligned. */
  lemma PlaceCovers(vmas: seq<Vma>, s: Section, vmas': seq<Vma>)
    requires AreasOk(vmas) && Placed(vmas, s, vmas')
    ensures AreasOk(vmas') && CoveredBy(vmas', s)
    ensures forall t :: CoveredBy(vmas, t) ==> CoveredBy(vmas', t)
  {
    Aligned(s.addr);
    Aligned(s.addr + s.size);
    hide AlignUp, AlignDown;
    if SomeContains(vmas, s.addr) {
      var i :| IsFirst(vmas, s.addr, i) && vmas' == vmas[i := Extended(vmas[i], s)];
      assert Covers(vmas'[i], s);
      forall t | CoveredBy(vmas, t) ensures CoveredBy(vmas', t) {
        var j :| 0 <= j < |vmas| && Covers(vmas[j], t);
        assert Covers(vmas'[j], t);
      }
    } else {
      assert Covers(vmas'[|vmas|], s);
      forall t | CoveredBy(vmas, t) ensures CoveredBy(vmas', t) {
        var j :| 0 <= j < |vmas| && Covers(vmas[j], t);
        assert Covers(vmas'[j], t);
      }
    }
  }

  /** Where a section goes. The first area with its address between start and end, both included, grows to the
      section's end, rounded up to a page, when that lies above; the others stay. */
  lemma PlacedInFirst(vmas: seq<Vma>, s: Section, vmas': seq<Vma>, i: nat)
    requires Placed(vmas, s, vmas') && i < |vmas| && vmas[i].start <= s.addr <= vmas[i].end
    requires forall j :: 0 <= j < i ==> !(vmas[j].start <= s.addr <= vmas[j].end)
    ensures |vmas'| == |vmas| && vmas'[i] == vmas[i].(end := vmas'[i].end)
    ensures forall j :: 0 <= j < |vmas| && j != i ==> vmas'[j] == vmas[j]
    ensures s.addr + s.size <= vmas[i].end ==> vmas'[i].end == vmas[i].end
    ensures s.addr + s.size > vmas[i].end ==>
      vmas'[i].end % 4096 == 0 && s.addr + s.size <= vmas'[i].end < s.addr + s.size + 4096
  {
    assert Contains(vmas[i], s.addr);
    Aligned(s.addr + s.size);
    var k :| IsFirst(vmas, s.addr, k) && vmas' == vmas[k := Extended(vmas[k], s)];
    assert k == i;
    hide AlignUp;
  }

  /** Without such an area the section gets its own behind the others: the pages it touches, writable, executable
      and readable as the header says. */
  lemma PlacedAlone(vmas: seq<Vma>, s: Section, vmas': seq<Vma>)
    requires Placed(vmas, s, vmas') && forall j :: 0 <= j < |vmas| ==> !(vmas[j].start <= s.addr <= vmas[j].end)
    ensures |vmas'| == |vmas| + 1 && vmas'[..|vmas|] == vmas
    ensures var m := vmas'[|vmas|];
      && m.start % 4096 == 0 && m.start <= s.addr < m.start + 4096
      && m.end % 4096 == 0 && s.addr + s.size <= m.end < s.addr + s.size + 4096
      && (s.flags in {2, 3, 6, 7} ==> m.flags == 1 + s.flags % 2 * 2 + s.flags / 4 * 4)
  {
    Aligned(s.addr);
    Aligned(s.addr + s.size);
    hide AlignUp, AlignDown;
    assert vmas'[..|vmas|] == vmas;
  }

  /** An area of a loaded program is one that a section made. */
  predicate MadeBy(m: Vma, s: Section) {
    && s.flags / 2 % 2 == 1 && m.start % 4096 == 0 && m.start <= s.addr < m.start + 4096
    && (s.flags in {2, 3, 6, 7} ==> (m.flags / 2 % 2 == 1 <==> s.flags % 2 == 1))
  }

  /** Whatever the order of the headers, each area starts at the page of a section with the allocation flag, and is
      writable when that section's header says so. */
  lemma {:induction false} LoadMakes(states: seq<seq<Vma>>, sections: seq<Section>, n: nat, k: nat)
    requires IsLoad(states, sections) && n <= |sections| && states[0] == [] && k < |states[n]|
    ensures exists i :: 0 <= i < n && MadeBy(states[n][k], sections[i])
  {
    if n > 0 {
      var s, before, after := sections[n - 1], states[n - 1], states[n];
      assert LoadStep(states[n - 1], sections[n - 1], states[n - 1 + 1]);
      if Allocated(s) && !SomeContains(before, s.addr) {
        PlacedAlone(before, s, after);
        if k == |before| {
          assert MadeBy(after[k], s);
          return;
        }
      }
      LoadMakes(states, sections, n - 1, k);
      var i :| 0 <= i < n - 1 && MadeBy(before[k], sections[i]);
      hide Contains, AlignUp, AlignDown, VmaFlags;
      assert MadeBy(after[k], sections[i]);
    }
  }

  /** The areas after the first sections, one state per section. */
  ghost predicate IsLoad(states: seq<seq<Vma>>, sections: seq<Section>) {
    && |states| == |sections| + 1
    && forall i :: 0 <= i < |sections| ==> LoadStep(states[i], sections[i], states[i + 1])
  }

  ghost predicate LoadStep(vmas: seq<Vma>, s: Section, vmas': seq<Vma>) {
    if Allocated(s) then Placed(vmas, s, vmas') else vmas' == vmas
  }

  /** Whatever the order of the headers, every allocated section is covered and the areas are page-aligned. */
  lemma {:induction false} LoadCovers(states: seq<seq<Vma>>, sections: seq<Section>, n: nat)
    requires IsLoad(states, sections) && n <= |sections| && AreasOk(states[0])
    ensures AreasOk(states[n])
    ensures forall i :: 0 <= i < n && sections[i].flags / 2 % 2 == 1 ==> CoveredBy(states[n], sections[i])
  {
    if n > 0 {
      LoadCovers(states, sections, n - 1);
      var k := n - 1;
      assert LoadStep(states[k], sections[k], states[k + 1]);
      hide AreasOk, CoveredBy, Placed;
      if Allocated(sections[k]) {
        PlaceCovers(states[k], sections[k], states[n]);
      }
    }
  }

  // ---------- ascending headers ----------

  predicate Ascending(sections: seq<Section>) {
    forall i, j :: 0 <= i < j < |sections| && Allocated(sections[i]) && Allocated(sections[j]) ==>
      sections[i].addr <= sections[j].addr
  }

  /** Areas one above the other, all but the last below `addr`, and all starting at or below it. */
  predicate Stacked(vmas: seq<Vma>, addr: nat) {
    && AreasOk(vmas)
    && (forall i, j :: 0 <= i < j < |vmas| ==> vmas[i].end <= vmas[j].start)
    && (forall i :: 0 <= i < |vmas| ==> vmas[i].start <= addr)
    && (forall i :: 0 <= i < |vmas| - 1 ==> vmas[i].end < addr)
  }

  /** A section at or above the ones before keeps the areas apart. */
  lemma PlaceStacks(vmas: seq<Vma>, addr: nat, s: Section, vmas': seq<Vma>)
    requires Stacked(vmas, addr) && addr <= s.addr && Placed(vmas, s, vmas')
    ensures Stacked(vmas', s.addr)
  {
    if SomeContains(vmas, s.addr) {
      var i :| IsFirst(vmas, s.addr, i) && vmas' == vmas[i := Extended(vmas[i], s)];
      StackExtends(vmas, addr, s, i);
    } else {
      StackAppends(vmas, addr, s);
    }
  }

  lemma StackExtends(vmas: seq<Vma>, addr: nat, s: Section, i: nat)
    requires Stacked(vmas, addr) && addr <= s.addr && IsFirst(vmas, s.addr, i)
    ensures Stacked(vmas[i := Extended(vmas[i], s)], s.addr)
  {
    Aligned(s.addr + s.size);
    hide AlignUp, AlignDown;
    assert i == |vmas| - 1;
  }

  lemma StackAppends(vmas: seq<Vma>, addr: nat, s: Section)
    requires Stacked(vmas, addr) && addr <= s.addr && !SomeContains(vmas, s.addr)
    ensures Stacked(vmas + [NewVma(s)], s.addr)
  {
    Aligned(s.addr);
    Aligned(s.addr + s.size);
    forall i | 0 <= i < |vmas| ensures vmas[i].end < s.addr && vmas[i].end <= AlignDown(s.addr) {
      assert !Contains(vmas[i], s.addr);
      AlignedBounds(s.addr, vmas[i].end);
    }
    hide AlignUp, AlignDown, VmaFlags;
  }

  /** The highest address of the allocated ones among the first n sections. */
  function TopAddr(sections: seq<Section>, n: nat): nat
    requires n <= |sections|
  {
    if n == 0 then 0
    else if Allocated(sections[n - 1]) then sections[n - 1].addr
    else TopAddr(sections, n - 1)
  }

  lemma {:induction false} TopBelow(sections: seq<Section>, n: nat, k: nat)
    requires n <= k < |sections| && Ascending(sections) && Allocated(sections[k])
    ensures TopAddr(sections, n) <= sections[k].addr
  {
    if n > 0 && !Allocated(sections[n - 1]) {
      TopBelow(sections, n - 1, k);
    }
  }

  /** With headers in ascending order the areas lie one above the other, without overlap. */
  lemma {:induction false} LoadStacks(states: seq<seq<Vma>>, sections: seq<Section>, n: nat)
    requires IsLoad(states, sections) && n <= |sections| && states[0] == [] && Ascending(sections)
    ensures Stacked(states[n], TopAddr(sections, n))
  {
    if n > 0 {
      LoadStacks(states, sections, n - 1);
      var k := n - 1;
      assert LoadStep(states[k], sections[k], states[k + 1]);
      hide Stacked, Placed, Ascending;
      if Allocated(sections[k]) {
        TopBelow(sections, k, k);
        PlaceStacks(states[k], TopAddr(sections, k), sections[k], states[n]);
      }
    }
  }

  // ---------- headers in any order ----------

  /** No page is in both areas. */
  predicate Clear(m: Vma, n: Vma) { m.start >= m.end || n.start >= n.end || m.end <= n.start || n.end <= m.start }

  predicate AllClear(vmas: seq<Vma>) { forall i, j :: 0 <= i < j < |vmas| ==> Clear(vmas[i], vmas[j]) }

  /** An area is clear of all others than the one at index k. */
  predicate ClearBut(vmas: seq<Vma>, m: Vma, k: int) { forall j :: 0 <= j < |vmas| && j != k ==> Clear(vmas[j], m) }

  /** What can be checked before a section is placed: the area that it extends or makes is clear of the others. */
  ghost predicate PlacesClear(vmas: seq<Vma>, s: Section) {
    if SomeContains(vmas, s.addr) then forall i :: IsFirst(vmas, s.addr, i) ==> ClearBut(vmas, Extended(vmas[i], s), i)
    else ClearBut(vmas, NewVma(s), |vmas|)
  }

  lemma FirstUnique(vmas: seq<Vma>, addr: nat, i: int, j: int)
    requires IsFirst(vmas, addr, i) && IsFirst(vmas, addr, j)
    ensures i == j
  {
  }

  lemma AppendClearIff(vmas: seq<Vma>, m: Vma)
    requires AllClear(vmas)
    ensures AllClear(vmas + [m]) <==> ClearBut(vmas, m, |vmas|)
  {
    var vmas' := vmas + [m];
    if AllClear(vmas') {
      forall j | 0 <= j < |vmas| ensures Clear(vmas[j], m) {
        assert Clear(vmas'[j], vmas'[|vmas|]);
      }
    }
  }

  lemma UpdateClearIff(vmas: seq<Vma>, i: nat, m: Vma)
    requires AllClear(vmas) && i < |vmas|
    ensures AllClear(vmas[i := m]) <==> ClearBut(vmas, m, i)
  {
    var vmas' := vmas[i := m];
    if AllClear(vmas') {
      forall j | 0 <= j < |vmas| && j != i ensures Clear(vmas[j], m) {
        assert if j < i then Clear(vmas'[j], vmas'[i]) else Clear(vmas'[i], vmas'[j]);
      }
    }
  }

  /** Areas without overlap stay so exactly when the area that is extended or made is clear of the others. */
  lemma PlaceClearIff(vmas: seq<Vma>, s: Section, vmas': seq<Vma>)
    requires AllClear(vmas) && Placed(vmas, s, vmas')
    ensures AllClear(vmas') <==> PlacesClear(vmas, s)
  {
    hide AllClear, ClearBut, Extended, NewVma;
    if SomeContains(vmas, s.addr) {
      var i :| IsFirst(vmas, s.addr, i) && vmas' == vmas[i := Extended(vmas[i], s)];
      UpdateClearIff(vmas, i, Extended(vmas[i], s));
      forall j | IsFirst(vmas, s.addr, j) ensures j == i {
        FirstUnique(vmas, s.addr, i, j);
      }
    } else {
      AppendClearIff(vmas, NewVma(s));
    }
  }

  /** An overlap stays: areas only grow. */
  lemma OverlapStays(vmas: seq<Vma>, s: Section, vmas': seq<Vma>)
    requires !AllClear(vmas) && Placed(vmas, s, vmas')
    ensures !AllClear(vmas')
  {
    Aligned(s.addr + s.size);
    hide AlignUp, NewVma;
    var i, j :| 0 <= i < j < |vmas| && !Clear(vmas[i], vmas[j]);
    assert !Clear(vmas'[i], vmas'[j]);
  }

  /** For any order of the headers the areas are without overlap exactly when every section was placed clear. */
  lemma {:induction false} LoadClearIff(states: seq<seq<Vma>>, sections: seq<Section>, n: nat)
    requires IsLoad(states, sections) && n <= |sections| && states[0] == []
    ensures AllClear(states[n]) <==> forall k :: 0 <= k < n && Allocated(sections[k]) ==>
      PlacesClear(states[k], sections[k])
  {
    if n > 0 {
      LoadClearIff(states, sections, n - 1);
      var k := n - 1;
      assert LoadStep(states[k], sections[k], states[k + 1]);
      hide AllClear, Placed, PlacesClear;
      if Allocated(sections[k]) {
        if AllClear(states[k]) {
          PlaceClearIff(states[k], sections[k], states[n]);
        } else {
          OverlapStays(states[k], sections[k], states[n]);
        }
      }
    }
  }

  /** Two sections without a common byte, the higher one first: the second one's area takes in the first one's. */
  lemma OutOfOrderOverlaps()
    ensures var s := [Section(0x2100, 0x100, 3, 1, 0), Section(0x1f00, 0x180, 3, 1, 0)];
      var states: seq<seq<Vma>> := [[], [Vma(0x2000, 0x3000, 3)], [Vma(0x2000, 0x3000, 3), Vma(0x1000, 0x3000, 3)]];
      IsLoad(states, s) && s[1].addr + s[1].size <= s[0].addr && !AllClear(states[2])
  {
    var a, b := Section(0x2100, 0x100, 3, 1, 0), Section(0x1f00, 0x180, 3, 1, 0);
    var v, w := Vma(0x2000, 0x3000, 3), Vma(0x1000, 0x3000, 3);
    assert NewVma(a) == v && NewVma(b) == w;
    assert [] + [v] == [v] && [v] + [w] == [v, w];
    assert !SomeContains([], 0x2100) && !SomeContains([v], 0x1f00);
    assert Placed([], a, [v]) && Placed([v], b, [v, w]);
    assert !Clear([v, w][0], [v, w][1]);
  }

  /** Ascending headers always place clear. */
  lemma StackedClear(vmas: seq<Vma>, addr: nat)
    requires Stacked(vmas, addr)
    ensures AllClear(vmas)
  {
  }

  // ---------- the whole address space ----------

  /** A program in the lower half of the address space. */
  predicate Lower(vmas: seq<Vma>) { forall i :: 0 <= i < |vmas| ==> vmas[i].end <= 0x8000_0000_0000 }

  lemma PagesOfArea(m: Vma)
    requires AreaOk(m)
    ensures NumPages(m) == (m.end - m.start) / PAGE_SIZE
  {
  }

  /** In the lower half clear areas are those without a common page. */
  lemma LowerPages(m: Vma, n: Vma)
    requires AreaOk(m) && AreaOk(n) && m.end <= 0x8000_0000_0000 && n.end <= 0x8000_0000_0000
    ensures PagesOf(m) !! PagesOf(n) <==> Clear(m, n)
  {
    LowerRange(m);
    LowerRange(n);
    if !Clear(m, n) {
      var v := if m.start <= n.start then n.start / PAGE_SIZE else m.start / PAGE_SIZE;
      assert v in PagesOf(m) && v in PagesOf(n);
    }
  }

  lemma LowerRange(m: Vma)
    requires AreaOk(m) && m.end <= 0x8000_0000_0000
    ensures forall v :: v in PagesOf(m) <==> m.start / PAGE_SIZE <= v < m.end / PAGE_SIZE
  {
    PagesOfArea(m);
    assert PageNumber(m.start) == m.start / PAGE_SIZE || m.start == m.end;
    assert m.start / PAGE_SIZE + NumPages(m) == m.end / PAGE_SIZE;
  }

  lemma LowerOk(m: Vma)
    requires AreaOk(m) && m.end <= 0x8000_0000_0000
    ensures VmaOk(m) && PageNumber(m.start) + NumPages(m) <= 0x8_0000_0000
  {
    PagesOfArea(m);
    assert m.start / PAGE_SIZE + NumPages(m) == m.end / PAGE_SIZE;
  }

  lemma HeapPages(end: nat)
    requires UHEAPSTART <= end <= UHEAPLIMIT && end % PAGE_SIZE == 0
    ensures var heap, stack := Vma(UHEAPSTART, end, 3), Vma(USTACKTOP - PAGE_SIZE, USTACKTOP, 3);
      VmaOk(heap) && VmaOk(stack) && PagesOf(heap) !! PagesOf(stack)
      && PageNumber(heap.start) >= 0x8_0000_0000 && PageNumber(stack.start) >= 0x8_0000_0000
  {
    var heap, stack := Vma(UHEAPSTART, end, 3), Vma(USTACKTOP - PAGE_SIZE, USTACKTOP, 3);
    assert UHEAPSTART / PAGE_SIZE == 0xF_FFFF_F7F7_FDFC && USTACKTOP / PAGE_SIZE == 0xF_FFFF_F7F7_FFFE;
    assert (USTACKTOP - PAGE_SIZE) / PAGE_SIZE == 0xF_FFFF_F7F7_FFFD;
    PagesOfArea(heap);
    PagesOfArea(stack);
    assert PageNumber(heap.start) == 0xF_F7F7_FDFC && PageNumber(stack.start) == 0xF_F7F7_FFFD;
  }

  /** A program in the lower half, its heap and its stack are page-disjoint, so that fork never meets an
      occupied entry, exactly when the program's own areas are without overlap. */
  lemma BuiltVmasOkIff(vmas: seq<Vma>, end: nat)
    requires AreasOk(vmas) && Lower(vmas) && UHEAPSTART <= end <= UHEAPLIMIT && end % PAGE_SIZE == 0
    ensures VmasOk(vmas + [Vma(UHEAPSTART, end, 3), Vma(USTACKTOP - PAGE_SIZE, USTACKTOP, 3)]) <==> AllClear(vmas)
  {
    HeapPages(end);
    var heap, stack := Vma(UHEAPSTART, end, 3), Vma(USTACKTOP - PAGE_SIZE, USTACKTOP, 3);
    var all := vmas + [heap, stack];
    hide VmaOk, PagesOf, NumPages, PageNumber, Clear;
    forall k | 0 <= k < |all| ensures VmaOk(all[k]) {
      if k < |vmas| {
        LowerOk(vmas[k]);
      }
    }
    forall j, k | 0 <= j < k < |all| ensures PagesOf(all[j]) !! PagesOf(all[k]) <==>
      k >= |vmas| || Clear(vmas[j], vmas[k]) {
      if k < |vmas| {
        LowerPages(vmas[j], vmas[k]);
      } else if j < |vmas| {
        LowerOk(vmas[j]);
        HalvesDisjoint(all[j], all[k]);
      }
    }
    if VmasOk(all) {
      forall j, k | 0 <= j < k < |vmas| ensures Clear(vmas[j], vmas[k]) {
        assert PagesOf(all[j]) !! PagesOf(all[k]);
      }
    }
  }

  /** The same from the headers: fork's condition holds exactly when every section was placed clear, and always
      when the headers ascend. */
  lemma LoadedVmasOkIff(states: seq<seq<Vma>>, sections: seq<Section>, end: nat)
    requires IsLoad(states, sections) && states[0] == [] && Lower(states[|sections|])
    requires UHEAPSTART <= end <= UHEAPLIMIT && end % PAGE_SIZE == 0
    ensures VmasOk(states[|sections|] + [Vma(UHEAPSTART, end, 3), Vma(USTACKTOP - PAGE_SIZE, USTACKTOP, 3)]) <==>
      forall k :: 0 <= k < |sections| && Allocated(sections[k]) ==> PlacesClear(states[k], sections[k])
    ensures Ascending(sections) ==>
      VmasOk(states[|sections|] + [Vma(UHEAPSTART, end, 3), Vma(USTACKTOP - PAGE_SIZE, USTACKTOP, 3)])
  {
    hide VmasOk, AllClear, PlacesClear, Stacked, Lower;
    LoadCovers(states, sections, |sections|);
    LoadClearIff(states, sections, |sections|);
    BuiltVmasOkIff(states[|sections|], end);
    if Ascending(sections) {
      LoadStacks(states, sections, |sections|);
      StackedClear(states[|sections|], TopAddr(sections, |sections|));
    }
  }

  lemma HalvesDisjoint(m: Vma, n: Vma)
    requires PageNumber(m.start) + NumPages(m) <= 0x8_0000_0000 <= PageNumber(n.start)
    ensures PagesOf(m) !! PagesOf(n)
  {
  }

  // ---------- the code ----------

  class AddressSpace {
    /** The process's list of areas, first_vma first. */
    var vmas: seq<Vma>

    constructor ()
      ensures vmas == []
    {
      vmas := [];
    }

    /** check_vma. */
    method CheckVma(addr: nat, size: nat) returns (found: bool)
      modifies this
      ensures found == SomeContains(old(vmas), addr)
      ensures found ==> Placed(old(vmas), Section(addr, size, 0, 0, 0), vmas)
      ensures !found ==> vmas == old(vmas)
    {
      var i := 0;
      while i < |vmas|
        invariant 0 <= i <= |vmas| && vmas == old(vmas) && forall j :: 0 <= j < i ==> !Contains(vmas[j], addr)
      {
        var m := vmas[i];
        if addr >= m.start && addr <= m.end {
          assert Contains(vmas[i], addr) && IsFirst(vmas, addr, i);
          if addr + size > m.end {
            vmas := vmas[i := m.(end := AlignUp(addr + size))];
          }
          assert vmas == old(vmas)[i := Extended(m, Section(addr, size, 0, 0, 0))];
          return true;
        }
        i := i + 1;
      }
      return false;
    }

    /** insert_vma. After a check_vma that found nothing its branch for the middle of the list is not taken. */
    method InsertVma(addr: nat, size: nat, flags: nat)
      requires !SomeContains(vmas, addr)
      modifies this
      ensures vmas == old(vmas) + [NewVma(Section(addr, size, flags, 0, 0))]
    {
      var start, end := AlignDown(addr), AlignUp(addr + size);
      var m := Vma(start, end, VmaFlags(flags));
      if vmas == [] {
        vmas := [m];
        return;
      }
      var i := 0;
      while i + 1 < |vmas|
        invariant 0 <= i < |vmas| && vmas == old(vmas)
      {
        if addr >= vmas[i].start && addr <= vmas[i].end {
          assert Contains(vmas[i], addr);
          assert false;
        }
        i := i + 1;
      }
      vmas := vmas[..i + 1] + [m];
    }

    /** getELF, on a file's section headers. */
    method GetElf(sections: seq<Section>) returns (ghost states: seq<seq<Vma>>)
      modifies this
      ensures IsLoad(states, sections) && states[0] == old(vmas) && states[|sections|] == vmas
      ensures AreasOk(old(vmas)) ==>
        AreasOk(vmas) && forall i :: 0 <= i < |sections| && sections[i].flags / 2 % 2 == 1 ==>
          exists k :: 0 <= k < |vmas|
            && vmas[k].start <= sections[i].addr && sections[i].addr + sections[i].size <= vmas[k].end
      ensures old(vmas) == [] && Ascending(sections) ==> Stacked(vmas, TopAddr(sections, |sections|))
      ensures old(vmas) == [] ==> (AllClear(vmas) <==>
        forall k :: 0 <= k < |sections| && Allocated(sections[k]) ==> PlacesClear(states[k], sections[k]))
    {
      states := [vmas];
      var i := 0;
      while i < |sections|
        invariant 0 <= i <= |sections| && |states| == i + 1 && states[0] == old(vmas) && states[i] == vmas
        invariant forall k :: 0 <= k < i ==> LoadStep(states[k], sections[k], states[k + 1])
      {
        var s := sections[i];
        if Allocated(s) {
          var found := CheckVma(s.addr, s.size);
          if !found {
            InsertVma(s.addr, s.size, s.flags);
            assert NewVma(s) == NewVma(Section(s.addr, s.size, s.flags, 0, 0));
          } else {
            FlagsIrrelevant(states[i], s, vmas);
          }
        }
        assert LoadStep(states[i], s, vmas);
        states := states + [vmas];
        i := i + 1;
      }
      if AreasOk(old(vmas)) {
        LoadCovers(states, sections, |sections|);
        forall i | 0 <= i < |sections| && sections[i].flags / 2 % 2 == 1
          ensures exists k :: 0 <= k < |vmas| && Covers(vmas[k], sections[i])
        {
          assert CoveredBy(vmas, sections[i]);
        }
      }
      if old(vmas) == [] {
        LoadClearIff(states, sections, |sections|);
        if Ascending(sections) {
          LoadStacks(states, sections, |sections|);
        }
      }
    }
  }

  /** Extending an area keeps its flags. */
  lemma FlagsIrrelevant(vmas: seq<Vma>, s: Section, vmas': seq<Vma>)
    requires SomeContains(vmas, s.addr) && Placed(vmas, Section(s.addr, s.size, 0, 0, 0), vmas')
    ensures Placed(vmas, s, vmas')
  {
    var i :| IsFirst(vmas, s.addr, i) && vmas' == vmas[i := Extended(vmas[i], Section(s.addr, s.size, 0, 0, 0))];
    assert vmas' == vmas[i := Extended(vmas[i], s)];
  }
}
