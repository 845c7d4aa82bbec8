/** copyELF of sys/isr.c: the bytes it writes for an area, and what they leave in a process's pages. */
module Loading {
  import opened Limits
  import opened Bytes
  import opened PageBytes
  import opened Memory
  import opened Updates
  import opened Processes
  import opened Elf

  /** An executable: its section headers and its bytes. */
  datatype Program = Program(sections: seq<Section>, file: seq<byte>)

  const NOBITS: nat := 8

  /** The sections copied for an area: those that start in it or at its end. */
  predicate Selected(m: Vma, s: Section) { Allocated(s) && m.start <= s.addr <= m.end }

  /** The file has the bytes that a section claims. */
  predicate InFile(file: seq<byte>, s: Section) { s.kind == NOBITS || s.offset + s.size <= |file| }

  predicate AllInFile(p: Program) {
    forall i :: 0 <= i < |p.sections| && p.sections[i].flags / 2 % 2 == 1 ==> InFile(p.file, p.sections[i])
  }

  predicate Inside(s: Section, a: nat) { s.addr <= a < s.addr + s.size }

  /** The byte a section puts at an address. */
  function SectionByte(file: seq<byte>, s: Section, a: nat): byte {
    if s.kind != NOBITS && Inside(s, a) && s.offset + (a - s.addr) < |file| then file[s.offset + (a - s.addr)] else 0
  }

  datatype Write = Write(addr: nat, value: byte)

  /** The first n bytes of a section, as memset or memcpy stores them. */
  function SectionWrites(file: seq<byte>, s: Section, n: nat): (ws: seq<Write>)
    ensures |ws| == n
  {
    if n == 0 then []
    else SectionWrites(file, s, n - 1) + [Write(s.addr + n - 1, SectionByte(file, s, s.addr + n - 1))]
  }

  /** All stores of copyELF for an area, in order. */
  function Writes(m: Vma, file: seq<byte>, sections: seq<Section>): seq<Write> {
    if sections == [] then []
    else
      var s := sections[|sections| - 1];
      Writes(m, file, sections[..|sections| - 1]) + if Selected(m, s) then SectionWrites(file, s, s.size) else []
  }

  // ---------- on a process's pages ----------

  function ByteStored(view: map<nat, Page>, x: Write): map<nat, Page> {
    var v := PageNumber(x.addr);
    if v in view then view[v := WithPageByte(view[v], x.addr % PAGE_SIZE, x.value)] else view
  }

  function Loaded(view: map<nat, Page>, ws: seq<Write>): map<nat, Page> {
    if ws == [] then view else ByteStored(Loaded(view, ws[..|ws| - 1]), ws[|ws| - 1])
  }

  /** The byte a process reads at an address. */
  function ByteAt(view: map<nat, Page>, a: nat): byte
    requires PageNumber(a) in view
  {
    PageByte(view[PageNumber(a)], a % PAGE_SIZE)
  }

  /** Two addresses select the same byte. */
  predicate SamePlace(a: nat, b: nat) { PageNumber(a) == PageNumber(b) && a % PAGE_SIZE == b % PAGE_SIZE }

  /** What the last of some stores to an address leaves there. */
  function LastByte(ws: seq<Write>, a: nat, before: byte): byte {
    if ws == [] then before
    else
      var x := ws[|ws| - 1];
      if SamePlace(x.addr, a) then x.value else LastByte(ws[..|ws| - 1], a, before)
  }

  /** Every address reads as the last store to it, or as before. */
  lemma {:induction false} LoadedByte(view: map<nat, Page>, ws: seq<Write>, a: nat)
    requires PageNumber(a) in view
    ensures Loaded(view, ws).Keys == view.Keys
    ensures ByteAt(Loaded(view, ws), a) == LastByte(ws, a, ByteAt(view, a))
  {
    if ws != [] {
      var rest, x := ws[..|ws| - 1], ws[|ws| - 1];
      LoadedByte(view, rest, a);
      hide PageByte, WithPageByte, PageNumber;
      var before := Loaded(view, rest);
      if PageNumber(x.addr) in before {
        WithPageByteAt(before[PageNumber(x.addr)], x.addr % PAGE_SIZE, x.value, a % PAGE_SIZE);
      }
    }
  }

  lemma {:induction false} LoadedKeys(view: map<nat, Page>, ws: seq<Write>)
    ensures Loaded(view, ws).Keys == view.Keys
  {
    if ws != [] {
      LoadedKeys(view, ws[..|ws| - 1]);
    }
  }

  /** Pages that no store addresses are unchanged. */
  lemma {:induction false} LoadedElsewhere(view: map<nat, Page>, ws: seq<Write>, v: nat)
    requires v in view && forall j :: 0 <= j < |ws| ==> PageNumber(ws[j].addr) != v
    ensures v in Loaded(view, ws) && Loaded(view, ws)[v] == view[v]
  {
    if ws != [] {
      LoadedElsewhere(view, ws[..|ws| - 1], v);
    }
  }

  lemma {:induction false} LastByteJoin(a: seq<Write>, b: seq<Write>, x: nat, before: byte)
    ensures LastByte(a + b, x, before) == LastByte(b, x, LastByte(a, x, before))
  {
    if b == [] {
      assert a + b == a;
    } else {
      var b', last := b[..|b| - 1], b[|b| - 1];
      LastByteJoin(a, b', x, before);
      hide SamePlace;
      assert (a + b)[..|a + b| - 1] == a + b';
    }
  }

  const HALF: nat := 0x8000_0000_0000

  /** The addresses that the hardware translates: section 3.3.7.1 of the Intel SDM, volume 1. */
  predicate Canonical(addr: nat) { addr < HALF || TWO64 - HALF <= addr < TWO64 }

  /** The number of a page in its half: the low half first. */
  lemma PageNumberIs(addr: nat)
    requires Canonical(addr)
    ensures PageNumber(addr) == if addr < HALF then addr / PAGE_SIZE else addr / PAGE_SIZE - 0xF_FFF0_0000_0000
  {
  }

  /** Different canonical addresses are different places. */
  lemma PlacesDiffer(a: nat, b: nat)
    requires Canonical(a) && Canonical(b) && SamePlace(a, b)
    ensures a == b
  {
    PageNumberIs(a);
    PageNumberIs(b);
    PageBelow(a);
    PageBelow(b);
    hide PageNumber, Canonical;
    assert a / PAGE_SIZE == b / PAGE_SIZE;
  }

  lemma PageBelow(a: nat)
    requires Canonical(a)
    ensures a < HALF <==> a / PAGE_SIZE < 0x8_0000_0000
    ensures a >= HALF ==> a / PAGE_SIZE - 0xF_FFF0_0000_0000 >= 0x8_0000_0000
  {
  }

  /** The page number of an address of an area. */
  lemma PlaceInArea(m: Vma, a: nat)
    requires VmaOk(m) && m.start <= a < m.end
    ensures PageNumber(a) == PageNumber(m.start) + (a / PAGE_SIZE - m.start / PAGE_SIZE)
    ensures PageNumber(a) in PagesOf(m)
  {
    var i := a / PAGE_SIZE - m.start / PAGE_SIZE;
    PageIndex(m, a);
    PageAddress(m, i);
    assert (m.start + i * PAGE_SIZE) / PAGE_SIZE == a / PAGE_SIZE;
  }

  lemma PageIndex(m: Vma, a: nat)
    requires m.start <= a < m.end
    ensures 0 <= a / PAGE_SIZE - m.start / PAGE_SIZE < NumPages(m)
  {
    var up := AlignUp(m.end);
    assert up % PAGE_SIZE == 0 && a < up;
    assert a / PAGE_SIZE < up / PAGE_SIZE;
    assert AlignDown(m.start) / PAGE_SIZE == m.start / PAGE_SIZE && AlignDown(m.start) % PAGE_SIZE == 0;
    assert (up - AlignDown(m.start)) / PAGE_SIZE == up / PAGE_SIZE - m.start / PAGE_SIZE;
  }

  // ---------- sections inside their area ----------

  /** The bytes of every section that is copied for the area lie in it. */
  predicate SectionsInside(m: Vma, sections: seq<Section>) {
    forall i :: 0 <= i < |sections| && Selected(m, sections[i]) && sections[i].size > 0 ==>
      sections[i].addr + sections[i].size <= m.end
  }

  /** In areas without overlap that cover their sections, an area's sections lie in it when none but empty ones
      starts at its end. */
  lemma SectionsStayInside(vmas: seq<Vma>, sections: seq<Section>, k: nat)
    requires AllClear(vmas) && AreasOk(vmas) && k < |vmas|
    requires forall i :: 0 <= i < |sections| && Allocated(sections[i]) ==> CoveredBy(vmas, sections[i])
    requires forall i :: 0 <= i < |sections| && Allocated(sections[i]) && sections[i].size > 0 ==>
      sections[i].addr != vmas[k].end
    ensures SectionsInside(vmas[k], sections)
  {
    forall i | 0 <= i < |sections| && Selected(vmas[k], sections[i]) && sections[i].size > 0
      ensures sections[i].addr + sections[i].size <= vmas[k].end
    {
      var j :| 0 <= j < |vmas| && Covers(vmas[j], sections[i]);
      assert if j < k then Clear(vmas[j], vmas[k]) else j == k || Clear(vmas[k], vmas[j]);
    }
  }

  /** All stores go to addresses of the area. */
  lemma {:induction false} WritesInside(m: Vma, file: seq<byte>, sections: seq<Section>, j: nat)
    requires SectionsInside(m, sections) && j < |Writes(m, file, sections)|
    ensures m.start <= Writes(m, file, sections)[j].addr < m.end
  {
    var n := |sections| - 1;
    var s, front := sections[n], Writes(m, file, sections[..n]);
    if j < |front| {
      WritesInside(m, file, sections[..n], j);
    } else {
      SectionWriteAt(file, s, s.size, j - |front|);
    }
  }

  lemma {:induction false} SectionWriteAt(file: seq<byte>, s: Section, n: nat, j: nat)
    requires j < n
    ensures SectionWrites(file, s, n)[j] == Write(s.addr + j, SectionByte(file, s, s.addr + j))
  {
    if j < n - 1 {
      SectionWriteAt(file, s, n - 1, j);
    }
  }

  /** All bytes of the sections that are copied for the area have canonical addresses. */
  ghost predicate SectionsCanonical(m: Vma, sections: seq<Section>) {
    forall i :: 0 <= i < |sections| && sections[i].flags / 2 % 2 == 1 && m.start <= sections[i].addr <= m.end ==>
      CanonicalBytes(sections[i])
  }

  ghost predicate CanonicalBytes(s: Section) { forall a: nat :: Inside(s, a) ==> Canonical(a) }

  lemma {:induction false} SectionLast(file: seq<byte>, s: Section, n: nat, a: nat, before: byte)
    requires CanonicalBytes(s) && Canonical(a) && n <= s.size
    ensures LastByte(SectionWrites(file, s, n), a, before) ==
      if s.addr <= a < s.addr + n then SectionByte(file, s, a) else before
  {
    if n > 0 {
      SectionLast(file, s, n - 1, a, before);
      var ws := SectionWrites(file, s, n);
      assert ws[..n - 1] == SectionWrites(file, s, n - 1);
      hide SamePlace, SectionByte, Canonical;
      if SamePlace(s.addr + n - 1, a) {
        assert Inside(s, s.addr + n - 1);
        PlacesDiffer(s.addr + n - 1, a);
      }
      SamePlaceSelf(a);
    }
  }

  lemma SamePlaceSelf(a: nat)
    ensures SamePlace(a, a)
  {
  }

  /** No section from index k on that is copied for the area contains the address. */
  predicate NoneFrom(m: Vma, sections: seq<Section>, k: nat, a: nat) {
    forall j :: k <= j < |sections| ==> !(Selected(m, sections[j]) && Inside(sections[j], a))
  }

  lemma LastOfSections(m: Vma, file: seq<byte>, sections: seq<Section>, a: nat, before: byte)
    requires sections != [] && SectionsCanonical(m, sections) && Canonical(a)
    ensures var n := |sections| - 1;
      LastByte(Writes(m, file, sections), a, before) ==
        (if Selected(m, sections[n]) && Inside(sections[n], a) then SectionByte(file, sections[n], a)
         else LastByte(Writes(m, file, sections[..n]), a, before))
  {
    var n := |sections| - 1;
    var s, front := sections[n], Writes(m, file, sections[..n]);
    hide LastByte, SectionByte, Canonical, CanonicalBytes, Writes;
    WritesLast(m, file, sections);
    if Selected(m, s) {
      LastByteJoin(front, SectionWrites(file, s, s.size), a, before);
      if s.size == 0 {
        NothingLast(a, LastByte(front, a, before));
      } else {
        SectionLast(file, s, s.size, a, LastByte(front, a, before));
      }
    } else {
      assert front + [] == front;
    }
  }

  lemma WritesLast(m: Vma, file: seq<byte>, sections: seq<Section>)
    requires sections != []
    ensures var n := |sections| - 1; var s := sections[n];
      Writes(m, file, sections) ==
        Writes(m, file, sections[..n]) + if Selected(m, s) then SectionWrites(file, s, s.size) else []
  {
  }

  lemma NothingLast(a: nat, before: byte)
    ensures LastByte([], a, before) == before
  {
  }

  /** Section `i` is the last one copied for the area that contains the address. */
  predicate IsLast(m: Vma, sections: seq<Section>, i: nat, a: nat)
    requires i < |sections|
  {
    Selected(m, sections[i]) && Inside(sections[i], a) && NoneFrom(m, sections, i + 1, a)
  }

  /** An address holds the byte of the last section that contains it. */
  lemma {:induction false} LastWriter(m: Vma, file: seq<byte>, sections: seq<Section>, i: nat, a: nat, before: byte)
    requires SectionsCanonical(m, sections) && Canonical(a)
    requires i < |sections| && IsLast(m, sections, i, a)
    ensures LastByte(Writes(m, file, sections), a, before) == SectionByte(file, sections[i], a)
  {
    hide LastByte, Writes, Canonical, CanonicalBytes, SectionByte, Inside, Selected;
    LastOfSections(m, file, sections, a, before);
    var n := |sections| - 1;
    if i < n {
      NoneFromLast(m, sections, i + 1, a);
      RestCanonical(m, sections);
      LastWriter(m, file, sections[..n], i, a, before);
    }
  }

  /** An address in no section holds what it held before. */
  lemma {:induction false} NoWriter(m: Vma, file: seq<byte>, sections: seq<Section>, a: nat, before: byte)
    requires SectionsCanonical(m, sections) && Canonical(a) && NoneFrom(m, sections, 0, a)
    ensures LastByte(Writes(m, file, sections), a, before) == before
  {
    if sections != [] {
      hide LastByte, Writes, Canonical, CanonicalBytes, SectionByte, Inside, Selected;
      LastOfSections(m, file, sections, a, before);
      NoneFromLast(m, sections, 0, a);
      RestCanonical(m, sections);
      NoWriter(m, file, sections[..|sections| - 1], a, before);
    }
  }

  lemma RestCanonical(m: Vma, sections: seq<Section>)
    requires SectionsCanonical(m, sections) && sections != []
    ensures SectionsCanonical(m, sections[..|sections| - 1])
  {
  }

  lemma NoneFromLast(m: Vma, sections: seq<Section>, k: nat, a: nat)
    requires k < |sections|
    ensures var n := |sections| - 1;
      NoneFrom(m, sections, k, a) <==>
        NoneFrom(m, sections[..n], k, a) && !(Selected(m, sections[n]) && Inside(sections[n], a))
  {
    var n := |sections| - 1;
    assert forall j :: k <= j < n ==> sections[..n][j] == sections[j];
  }

  // ---------- on memory ----------

  /** One byte stored through process r's entry for the address, whatever its RW flag: the kernel stores. */
  function StoreByteS(s: Mem, r: nat, x: Write): Mem {
    var w, o := Pte(s.mem, r, PageNumber(x.addr)), x.addr % PAGE_SIZE;
    if w.present &&
      w.frame < |s.mem| then StoreS(s, w.frame, o / 8, WithByte(s.mem[w.frame][o / 8], o % 8, x.value)) else s
  }

  function StoreAllS(s: Mem, r: nat, ws: seq<Write>): Mem {
    if ws == [] then s else StoreByteS(StoreAllS(s, r, ws[..|ws| - 1]), r, ws[|ws| - 1])
  }

  lemma StoreAllNext(s: Mem, r: nat, ws: seq<Write>, x: Write)
    ensures StoreAllS(s, r, ws + [x]) == StoreByteS(StoreAllS(s, r, ws), r, x)
  {
    assert (ws + [x])[..|ws|] == ws;
  }
}
