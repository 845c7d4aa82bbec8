/** A fault on a page that is not present: findVMA and the handler in sys/isr.c. */
module PageFaults {
  import opened Limits
  import opened Words
  import opened Bytes
  import opened PageBytes
  import opened Memory
  import opened Updates
  import opened KernelMemory
  import opened Processes
  import opened Faults
  import opened Teardown
  import opened Elf
  import opened Loading
  import opened Refinement

  /** The condition that lets an area reach below its start: it holds for the stack. */
  predicate StackCondition(m: Vma, addr: nat) {
    m.start > USTACKLIMIT && m.start - USTACKLIMIT >= PAGE_SIZE && addr >= m.start - 8
  }

  /** The area is one that findVMA returns for this access; its end counts as inside. */
  predicate Matches(m: Vma, addr: nat, write: bool) {
    (m.start <= addr <= m.end || StackCondition(m, addr)) && (write ==> Writable(m))
  }

  ghost predicate FirstMatch(vmas: seq<Vma>, addr: nat, write: bool, i: int) {
    0 <= i < |vmas| && Matches(vmas[i], addr, write) && forall j :: 0 <= j < i ==> !Matches(vmas[j], addr, write)
  }

  /** An access that findVMA does not find this area for: outside it, its end included, and not from 8 bytes below
      its start when it starts a page or more above the stack's limit; or a write without bit 1 of its flags. */
  predicate Misses(m: Vma, addr: nat, write: bool) {
    || (write && m.flags / 2 % 2 == 0)
    || ((addr < m.start || m.end < addr) && (m.start < USTACKLIMIT + 4096 || addr + 8 < m.start))
  }

  /** findVMA: the first area that matches, -1 when none does. */
  method FindVma(vmas: seq<Vma>, addr: nat, write: bool) returns (i: int)
    ensures i == -1 ==> forall j :: 0 <= j < |vmas| ==> !Matches(vmas[j], addr, write)
    ensures i != -1 ==> FirstMatch(vmas, addr, write, i)
    ensures i == -1 || 0 <= i < |vmas|
    ensures forall j :: 0 <= j < |vmas| && (i == -1 || j < i) && (write ==> vmas[j].flags / 2 % 2 == 1) ==>
      (addr < vmas[j].start || vmas[j].end < addr) && (vmas[j].start < USTACKLIMIT + 4096 || addr + 8 < vmas[j].start)
    ensures i != -1 ==> (vmas[i].start <= addr <= vmas[i].end ||
      (vmas[i].start >= USTACKLIMIT + 4096 && vmas[i].start <= addr + 8))
    ensures i != -1 && write ==> vmas[i].flags / 2 % 2 == 1
  {
    i := 0;
    while i < |vmas|
      invariant 0 <= i <= |vmas| && forall j :: 0 <= j < i ==> !Matches(vmas[j], addr, write)
    {
      var m := vmas[i];
      var stackCond := m.start > USTACKLIMIT;
      stackCond := stackCond && m.start - USTACKLIMIT >= PAGE_SIZE;
      stackCond := stackCond && addr >= m.start - 8;
      if (addr >= m.start && addr <= m.end) || stackCond {
        if write && Writable(m) {
          return;
        }
        if !write {
          return;
        }
      }
      i := i + 1;
    }
    i := -1;
  }

  // ---------- copyELF ----------

  /** One byte stored by the kernel; false when the store itself faults. */
  method StoreByte(k: Kernel, r: nat, a: nat, value: byte) returns (ok: bool)
    requires k.Valid() && IsRoot(k.S(), r)
    modifies k
    ensures k.Valid() && SameTables(old(k.S()), k.S()) && ok == old(Reachable(k.S(), r, a))
    ensures ok ==> k.S() == StoreByteS(old(k.S()), r, Write(a, value))
  {
    hide Inv, ListOk, Pte, SameMappings, SameRoots, PageNumber, WithByte;
    var v, o := PageNumber(a), a % PAGE_SIZE;
    ok := v < USER_PAGES && Pte(k.mem, r, v).present;
    TablesSelf(k.S());
    if ok {
      var f := Pte(k.mem, r, v).frame;
      ghost var s := k.S();
      PresentFrame(s, r, v);
      var word := WithByte(k.mem[f][o / 8], o % 8, value);
      StoreMappings(s, r, v, o / 8, word);
      k.mem := k.mem[f := k.mem[f][o / 8 := word]];
      assert k.S() == StoreS(s, f, o / 8, word);
    }
  }

  lemma PresentFrame(s: Mem, r: nat, v: nat)
    requires Inv(s) && IsRoot(s, r) && v < USER_PAGES && Pte(s.mem, r, v).present
    ensures Pte(s.mem, r, v).frame < |s.mem|
  {
    PathFacts(s, r, v);
  }

  /** memset for a section without file bytes, memcpy for the others. */
  method StoreSection(k: Kernel, r: nat, file: seq<byte>, s: Section) returns (ok: bool)
    requires k.Valid() && IsRoot(k.S(), r) && InFile(file, s)
    modifies k
    ensures k.Valid() && SameTables(old(k.S()), k.S())
    ensures ok ==> k.S() == StoreAllS(old(k.S()), r, SectionWrites(file, s, s.size))
    ensures ok == forall x :: x in SectionWrites(file, s, s.size) ==> old(Reachable(k.S(), r, x.addr))
  {
    hide Inv, ListOk, Pte, SameTables, Reachable, StoreByteS, StoreAllS, SectionByte, SectionWrites, InFile;
    ghost var s0 := k.S();
    var j := 0;
    TablesSelf(s0);
    NoBytes(s0, r, file, s);
    while j < s.size
      invariant 0 <= j <= s.size && k.Valid() && IsRoot(k.S(), r) && SameTables(s0, k.S())
      invariant k.S() == StoreAllS(s0, r, SectionWrites(file, s, j))
      invariant forall x :: x in SectionWrites(file, s, j) ==> Reachable(s0, r, x.addr)
    {
      FileByte(file, s, j);
      var value := if s.kind == NOBITS then 0 else file[s.offset + j];
      ghost var s1 := k.S();
      ok := StoreByte(k, r, s.addr + j, value);
      SameReach(s0, s1, r, s.addr + j);
      TablesJoin(s0, s1, k.S());
      if !ok {
        NotAll(file, s, j, s.size);
        return;
      }
      StoreAllNext(s0, r, SectionWrites(file, s, j), Write(s.addr + j, value));
      RootStays(s1, k.S(), r);
      j := j + 1;
    }
    ok := true;
  }

  lemma NoBytes(s0: Mem, r: nat, file: seq<byte>, s: Section)
    ensures SectionWrites(file, s, 0) == [] && StoreAllS(s0, r, []) == s0
  {
  }

  lemma TablesSelf(s: Mem)
    requires Inv(s)
    ensures SameTables(s, s)
  {
  }

  lemma RootStays(s: Mem, s': Mem, r: nat)
    requires SameTables(s, s') && IsRoot(s, r)
    ensures IsRoot(s', r)
  {
  }

  lemma SameReach(s: Mem, s': Mem, r: nat, a: nat)
    requires SameTables(s, s') && IsRoot(s, r)
    ensures Reachable(s', r, a) <==> Reachable(s, r, a)
  {
    hide Pte, PageNumber;
  }

  lemma FileByte(file: seq<byte>, s: Section, j: nat)
    requires InFile(file, s) && j < s.size
    ensures s.kind != NOBITS ==> s.offset + j < |file|
    ensures SectionByte(file, s, s.addr + j) == if s.kind == NOBITS then 0 else file[s.offset + j]
    ensures SectionWrites(file, s, j + 1) ==
      SectionWrites(file, s, j) + [Write(s.addr + j, SectionByte(file, s, s.addr + j))]
  {
  }

  lemma NotAll(file: seq<byte>, s: Section, j: nat, n: nat)
    requires j < n
    ensures Write(s.addr + j, SectionByte(file, s, s.addr + j)) in SectionWrites(file, s, n)
  {
    SectionWriteAt(file, s, n, j);
  }

  /** copyELF on the area; false when one of its stores faults. */
  method CopyElf(k: Kernel, r: nat, m: Vma, program: Program) returns (ok: bool)
    requires k.Valid() && IsRoot(k.S(), r) && AllInFile(program)
    modifies k
    ensures ok ==> k.Valid() && k.S() == StoreAllS(old(k.S()), r, Writes(m, program.file, program.sections))
    ensures ok == forall x :: x in Writes(m, program.file, program.sections) ==> old(Reachable(k.S(), r, x.addr))
  {
    hide Inv, ListOk, Pte, SameTables, Reachable, StoreAllS, SectionWrites, Writes, InFile;
    ghost var s0 := k.S();
    var i := 0;
    TablesSelf(s0);
    NoWrites(s0, r, m, program.file);
    assert program.sections[..0] == [];
    while i < |program.sections|
      invariant 0 <= i <= |program.sections| && k.Valid() && IsRoot(k.S(), r) && SameTables(s0, k.S())
      invariant k.S() == StoreAllS(s0, r, Writes(m, program.file, program.sections[..i]))
      invariant forall x :: x in Writes(m, program.file, program.sections[..i]) ==> Reachable(s0, r, x.addr)
    {
      var s := program.sections[i];
      SectionsNext(m, program, i);
      if Allocated(s) {
        if s.addr >= m.start && s.addr <= m.end {
          ghost var s1 := k.S();
          ok := StoreSection(k, r, program.file, s);
          forall a: nat ensures Reachable(s1, r, a) <==> Reachable(s0, r, a) {
            SameReach(s0, s1, r, a);
          }
          if !ok {
            StillMissing(m, program, i);
            return;
          }
          TablesJoin(s0, s1, k.S());
          RootStays(s1, k.S(), r);
          StoreAllJoin(s0, r, Writes(m, program.file, program.sections[..i]), SectionWrites(program.file, s, s.size));
        }
      }
      i := i + 1;
    }
    assert program.sections[..i] == program.sections;
    ok := true;
  }

  lemma NoWrites(s: Mem, r: nat, m: Vma, file: seq<byte>)
    ensures Writes(m, file, []) == [] && StoreAllS(s, r, []) == s
  {
  }

  lemma SectionsNext(m: Vma, program: Program, i: nat)
    requires i < |program.sections|
    ensures var s, before := program.sections[i], Writes(m, program.file, program.sections[..i]);
      Writes(m, program.file, program.sections[..i + 1]) ==
        (if Selected(m, s) then before + SectionWrites(program.file, s, s.size) else before)
  {
    assert program.sections[..i + 1][..i] == program.sections[..i];
    var before := Writes(m, program.file, program.sections[..i]);
    assert before + [] == before;
  }

  lemma {:induction false} StoreAllJoin(s: Mem, r: nat, a: seq<Write>, b: seq<Write>)
    ensures StoreAllS(s, r, a + b) == StoreAllS(StoreAllS(s, r, a), r, b)
  {
    if b == [] {
      assert a + b == a;
    } else {
      var n := |b| - 1;
      StoreAllJoin(s, r, a, b[..n]);
      hide StoreByteS;
      assert (a + b)[..|a + b| - 1] == a + b[..n];
    }
  }

  /** The stores for a section are among those for all. */
  lemma {:induction false} SectionAmong(m: Vma, file: seq<byte>, sections: seq<Section>, i: nat)
    requires i < |sections| && Selected(m, sections[i])
    ensures forall x :: x in SectionWrites(file, sections[i], sections[i].size) ==> x in Writes(m, file, sections)
  {
    hide SectionWrites;
    var n := |sections| - 1;
    if i < n {
      SectionAmong(m, file, sections[..n], i);
    }
  }

  lemma StillMissing(m: Vma, program: Program, i: nat)
    requires i < |program.sections| && Selected(m, program.sections[i])
    ensures var s := program.sections[i];
      forall x :: x in SectionWrites(program.file, s, s.size) ==> x in Writes(m, program.file, program.sections)
  {
    SectionAmong(m, program.file, program.sections, i);
  }

  // ---------- the handler ----------

  /** Nested: a store of copyELF faults in its turn, inside the kernel. */
  datatype FaultResult = Killed | Handled(vma: nat) | Nested(vma: nat) | OutOfFrames

  /** The handler's branch for a page that is not present. */
  method NotPresentFault(k: Kernel, r: nat, vmas: seq<Vma>, program: Program, addr: nat, write: bool)
      returns (result: FaultResult)
    requires k.Valid() && IsRoot(k.S(), r) && (forall i :: 0 <= i < |vmas| ==> VmaOk(vmas[i])) && AllInFile(program)
    modifies k
    ensures result == Killed <==> forall j :: 0 <= j < |vmas| ==> Misses(vmas[j], addr, write)
    ensures result == Killed ==> k.Valid() && k.S() == old(k.S())
    ensures result.Handled? ==>
      FirstMatch(vmas, addr, write, result.vma) && old(AllReach(k.S(), r, vmas[result.vma], program))
    ensures result.Handled? ==> k.Valid() && AreaLoaded(old(k.S()), k.S(), r, vmas[result.vma], program)
    ensures result.Nested? ==>
      FirstMatch(vmas, addr, write, result.vma) && !old(AllReach(k.S(), r, vmas[result.vma], program))
    ensures result == OutOfFrames ==>
      exists j :: FirstMatch(vmas, addr, write, j) && |old(k.free)| <= 4 * NumPages(vmas[j])
  {
    hide Inv, ListOk, Filled, VmaOk, NumPages, Matches, Pte, PagesOf, Writes, StoreAllS, Reachable;
    var i := FindVma(vmas, addr, write);
    if i == -1 {
      return Killed;
    }
    assert !Misses(vmas[i], addr, write);
    assert VmaOk(vmas[i]);
    ghost var s := k.S();
    var ok := AllocatePages(k, r, vmas[i]);
    if !ok {
      return OutOfFrames;
    }
    ghost var s1 := k.S();
    FilledRoot(s, s1, r, PagesOf(vmas[i]), Writable(vmas[i]));
    FilledReach(s, s1, r, vmas[i], program);
    ok := CopyElf(k, r, vmas[i], program);
    if ok {
      assert LoadedVia(s, s1, k.S(), r, vmas[i], program);
    }
    result := if ok then Handled(i) else Nested(i);
  }

  /** What allocatePages makes reachable. */
  lemma FilledReach(s: Mem, s1: Mem, r: nat, m: Vma, program: Program)
    requires Inv(s) && VmaOk(m) && IsRoot(s, r) && Filled(s, s1, r, PagesOf(m), Writable(m))
    ensures AllReach(s, r, m, program) <==>
      forall x :: x in Writes(m, program.file, program.sections) ==> Reachable(s1, r, x.addr)
  {
    hide Inv, Filled, VmaOk, PagesOf, Writes, Pte, Reachable, PageNumber;
    forall a: nat ensures Reachable(s1, r, a) <==> PageNumber(a) in PagesOf(m) || Reachable(s, r, a) {
      FilledReachAt(s, s1, r, m, a);
    }
  }

  lemma FilledReachAt(s: Mem, s1: Mem, r: nat, m: Vma, a: nat)
    requires VmaOk(m) && IsRoot(s, r) && Filled(s, s1, r, PagesOf(m), Writable(m))
    ensures Reachable(s1, r, a) <==> PageNumber(a) in PagesOf(m) || Reachable(s, r, a)
  {
    var v := PageNumber(a);
    if v < USER_PAGES {
      FilledAt(s, s1, r, PagesOf(m), Writable(m), r, v);
    }
    hide Pte;
  }

  // ---------- what the process finds ----------

  /** After the fault every page of the area and every page mapped before is mapped: an entry that was there as it
      was, a new one with the area's permission. */
  lemma HandledPages(s: Mem, s': Mem, r: nat, m: Vma, program: Program, v: nat)
    requires Inv(s) && Quiet(s) && Once(s) && VmaOk(m) && IsRoot(s, r)
    requires AreaLoaded(s, s', r, m, program) && AllReach(s, r, m, program)
    requires v in PagesOf(m) || (v < USER_PAGES && Pte(s.mem, r, v).present)
    ensures v < USER_PAGES && Pte(s'.mem, r, v).present
    ensures Pte(s.mem, r, v).present ==> Pte(s'.mem, r, v) == Pte(s.mem, r, v)
    ensures !Pte(s.mem, r, v).present ==> Pte(s'.mem, r, v).rw == (m.flags / 2 % 2 == 1)
  {
    hide Inv, Quiet, Once, View, Pte, Filled, PagesOf, Writes, StoreAllS, Loaded, SameTables;
    var s1: Mem :| LoadedVia(s, s1, s', r, m, program);
    HandledViews(s, s1, s', r, m, program);
    FilledEntry(s, s1, r, m, v);
    FilledAt(s, s1, r, PagesOf(m), Writable(m), r, v);
    TablesEntry(s1, s', r, v);
  }

  lemma TablesEntry(s: Mem, s': Mem, r: nat, v: nat)
    requires SameTables(s, s') && IsRoot(s, r) && v < USER_PAGES
    ensures Pte(s'.mem, r, v) == Pte(s.mem, r, v)
  {
    hide Pte;
  }

  lemma FilledEntry(s: Mem, s1: Mem, r: nat, m: Vma, v: nat)
    requires VmaOk(m) && IsRoot(s, r) && Filled(s, s1, r, PagesOf(m), Writable(m))
    requires v in PagesOf(m) || (v < USER_PAGES && Pte(s.mem, r, v).present)
    ensures v < USER_PAGES && Pte(s1.mem, r, v).present
    ensures !Pte(s.mem, r, v).present ==> Pte(s1.mem, r, v).rw == Writable(m)
  {
    FilledAt(s, s1, r, PagesOf(m), Writable(m), r, v);
    hide Pte;
  }

  /** The process's memory after the fault: zeroed new pages, with the sections stored into them in order. */
  lemma HandledViews(s: Mem, s1: Mem, s': Mem, r: nat, m: Vma, program: Program)
    requires Inv(s) && Quiet(s) && Once(s) && VmaOk(m) && IsRoot(s, r)
    requires LoadedVia(s, s1, s', r, m, program) && AllReach(s, r, m, program)
    ensures IsRoot(s1, r) && SameTables(s1, s') && Inv(s')
    ensures View(s', r) == Loaded(ZeroFilled(View(s, r), PagesOf(m)), Writes(m, program.file, program.sections))
  {
    hide Inv, Quiet, Once, View, Pte, Filled, PagesOf, Writes, StoreAllS, Loaded, Reachable, PageNumber, VmaOk,
      SameTables;
    FilledQuiet(s, s1, r, m);
    FilledOnce(s, s1, r, PagesOf(m), Writable(m));
    FilledViews(s, s1, r, m);
    FilledReach(s, s1, r, m, program);
    var ws := Writes(m, program.file, program.sections);
    AllMapped(s1, r, ws);
    CopyEffects(s1, r, ws);
  }

  lemma FilledQuiet(s: Mem, s1: Mem, r: nat, m: Vma)
    requires Inv(s) && Inv(s1) && Quiet(s) && IsRoot(s, r) && Filled(s, s1, r, PagesOf(m), Writable(m))
    ensures Quiet(s1) && IsRoot(s1, r)
  {
    RolesQuiet(s, s1);
  }

  /** The bytes after a completed fault, by the last section that was copied to an address. */
  lemma BytesLeft(s: Mem, s': Mem, r: nat, m: Vma, program: Program, a: nat)
    requires Inv(s) && Quiet(s) && Once(s) && VmaOk(m) && IsRoot(s, r)
    requires AreaLoaded(s, s', r, m, program) && AllReach(s, r, m, program)
    requires SectionsCanonical(m, program.sections) && Canonical(a)
    requires PageNumber(a) in PagesOf(m) || PageNumber(a) in View(s, r)
    ensures PageNumber(a) in View(s', r)
    ensures forall i :: 0 <= i < |program.sections| && IsLast(m, program.sections, i, a) ==>
      ByteAt(View(s', r), a) == SectionByte(program.file, program.sections[i], a)
    ensures NoneFrom(m, program.sections, 0, a) ==>
      ByteAt(View(s', r), a) == if PageNumber(a) in View(s, r) then ByteAt(View(s, r), a) else 0
  {
    hide Inv, Quiet, Once, View, PagesOf, Writes, StoreAllS, Loaded, PageNumber, VmaOk, PageByte, LastByte, Inside,
      SectionByte, Selected, NoneFrom, Canonical, AllReach, SectionsCanonical;
    var s1: Mem :| LoadedVia(s, s1, s', r, m, program);
    HandledViews(s, s1, s', r, m, program);
    var filled := ZeroFilled(View(s, r), PagesOf(m));
    ZeroPage(a % PAGE_SIZE);
    assert PageNumber(a) in filled;
    assert ByteAt(filled, a) == if PageNumber(a) in View(s, r) then ByteAt(View(s, r), a) else 0;
    LoadedByte(filled, Writes(m, program.file, program.sections), a);
    var before := ByteAt(filled, a);
    forall i | 0 <= i < |program.sections| && IsLast(m, program.sections, i, a)
      ensures ByteAt(View(s', r), a) == SectionByte(program.file, program.sections[i], a)
    {
      LastWriter(m, program.file, program.sections, i, a, before);
    }
    if NoneFrom(m, program.sections, 0, a) {
      NoWriter(m, program.file, program.sections, a, before);
    }
  }

  /** Every mapped address reads as the byte of the last section that contains it, of those with the allocation flag
      that start in the area or at its end: as the file has it, or zero for sections of type 8. Addresses in no such
      section read as before, or zero on new pages. */
  lemma HandledBytes(s: Mem, s': Mem, r: nat, m: Vma, program: Program, a: nat)
    requires Inv(s) && Quiet(s) && Once(s) && VmaOk(m) && IsRoot(s, r)
    requires AreaLoaded(s, s', r, m, program) && AllReach(s, r, m, program)
    requires SectionsCanonical(m, program.sections) && AllInFile(program) && Canonical(a)
    requires PageNumber(a) in PagesOf(m) || PageNumber(a) in View(s, r)
    ensures PageNumber(a) in View(s', r)
    ensures var ss := program.sections;
      forall i :: 0 <= i < |ss| && LastCopied(m, ss, i, a) ==>
        (ss[i].kind == 8 || ss[i].offset + (a - ss[i].addr) < |program.file|)
        && ByteAt(View(s', r), a) == if ss[i].kind == 8 then 0 else program.file[ss[i].offset + (a - ss[i].addr)]
    ensures NotAfter(m, program.sections, 0, a) ==>
      ByteAt(View(s', r), a) == if PageNumber(a) in View(s, r) then ByteAt(View(s, r), a) else 0
  {
    hide Inv, Quiet, Once, View, PagesOf, Writes, PageNumber, VmaOk, PageByte, AreaLoaded, AllReach, Canonical,
      SectionsCanonical;
    BytesLeft(s, s', r, m, program, a);
    var ss := program.sections;
    forall i | 0 <= i < |ss| && LastCopied(m, ss, i, a)
      ensures IsLast(m, ss, i, a) && InFile(program.file, ss[i]) {}
  }

  /** Section i has the allocation flag, starts in the area or at its end and contains the address, and no later one
      does. */
  predicate LastCopied(m: Vma, ss: seq<Section>, i: nat, a: nat)
    requires i < |ss|
  {
    && ss[i].flags / 2 % 2 == 1 && m.start <= ss[i].addr <= m.end && ss[i].addr <= a < ss[i].addr + ss[i].size
    && NotAfter(m, ss, i + 1, a)
  }

  /** From index k on no section with the allocation flag that starts in the area or at its end contains the address. */
  predicate NotAfter(m: Vma, ss: seq<Section>, k: nat, a: nat) {
    forall j :: k <= j < |ss| && ss[j].flags / 2 % 2 == 1 && m.start <= ss[j].addr <= m.end ==>
      !(ss[j].addr <= a < ss[j].addr + ss[j].size)
  }

  /** When the sections that start in the area end in it, no store of the copy faults. */
  lemma InsideReaches(s: Mem, r: nat, m: Vma, program: Program)
    requires VmaOk(m) && SectionsInside(m, program.sections)
    ensures AllReach(s, r, m, program)
  {
    hide VmaOk, PagesOf, Writes, PageNumber, Reachable;
    var ws := Writes(m, program.file, program.sections);
    forall x | x in ws ensures PageNumber(x.addr) in PagesOf(m) {
      var j :| 0 <= j < |ws| && ws[j] == x;
      WritesInside(m, program.file, program.sections, j);
      PlaceInArea(m, x.addr);
    }
  }

  /** A zeroed page reads as zeros. */
  lemma ZeroPage(o: nat)
    requires o < 4096
    ensures PageByte(Zeros(), o) == 0
  {
    assert Number(ZERO) == 0;
    ZeroBytes(8, o % 8);
  }

  lemma {:induction false} ZeroBytes(n: nat, k: nat)
    requires k < n
    ensures WordBytes(0, n)[k] == 0
  {
    if k > 0 {
      ZeroBytes(n - 1, k - 1);
    }
  }

  /** The bytes of every section with the allocation flag that starts in the area or at its end are among the stores,
      so that a copy that completes finds their pages. */
  lemma SectionReached(s: Mem, r: nat, m: Vma, program: Program, i: nat, a: nat)
    requires i < |program.sections| && program.sections[i].flags / 2 % 2 == 1
    requires m.start <= program.sections[i].addr <= m.end
    requires program.sections[i].addr <= a < program.sections[i].addr + program.sections[i].size
    requires AllReach(s, r, m, program)
    ensures PageNumber(a) in PagesOf(m) || Reachable(s, r, a)
  {
    hide PagesOf, Writes, PageNumber, Reachable;
    var x := program.sections[i];
    StillMissing(m, program, i);
    NotAll(program.file, x, a - x.addr, x.size);
  }

  /** A completed fault over the kernel's state, in one statement about the headers: every byte of every section with
      the allocation flag that starts in the area or at its end lies on a mapped page, new ones writable exactly when
      bit 1 of the area's flags is set, and reads as the file has it, or zero for type 8, unless a later such section
      contains it. */
  lemma FaultLoads(s: Mem, s': Mem, r: nat, m: Vma, program: Program, i: nat, a: nat)
    requires Inv(s) && Quiet(s) && Once(s) && VmaOk(m) && IsRoot(s, r)
    requires AreaLoaded(s, s', r, m, program) && AllReach(s, r, m, program)
    requires SectionsCanonical(m, program.sections) && AllInFile(program)
    requires i < |program.sections| && program.sections[i].flags / 2 % 2 == 1
    requires m.start <= program.sections[i].addr <= m.end
    requires program.sections[i].addr <= a < program.sections[i].addr + program.sections[i].size
    requires var ss := program.sections;
      forall j :: i < j < |ss| && ss[j].flags / 2 % 2 == 1 && m.start <= ss[j].addr <= m.end ==>
        !(ss[j].addr <= a < ss[j].addr + ss[j].size)
    ensures PageNumber(a) < USER_PAGES && Pte(s'.mem, r, PageNumber(a)).present && PageNumber(a) in View(s', r)
    ensures !Pte(s.mem, r, PageNumber(a)).present ==>
      Pte(s'.mem, r, PageNumber(a)).rw == (m.flags / 2 % 2 == 1)
    ensures var x := program.sections[i];
      (x.kind == 8 || x.offset + (a - x.addr) < |program.file|)
      && ByteAt(View(s', r), a) == if x.kind == 8 then 0 else program.file[x.offset + (a - x.addr)]
  {
    hide Inv, Quiet, Once, View, PagesOf, Writes, PageNumber, VmaOk, PageByte, Pte, AreaLoaded, AllReach, Canonical;
    SectionReached(s, r, m, program, i, a);
    assert CanonicalBytes(program.sections[i]);
    assert Inside(program.sections[i], a);
    assert NotAfter(m, program.sections, i + 1, a);
    HandledPages(s, s', r, m, program, PageNumber(a));
    if Reachable(s, r, a) {
      ReachMapped(s, r, a);
      ViewAt(s, r, PageNumber(a));
    }
    HandledBytes(s, s', r, m, program, a);
  }

  /** What the header says about writing, from the section header to the page tables: for an area that a section made
      with one of the usual flags, a new page is writable exactly when the section is (bit 0 of its flags). */
  lemma HeaderDecidesWrite(s: Mem, s': Mem, r: nat, m: Vma, program: Program, v: nat, x: Section)
    requires Inv(s) && Quiet(s) && Once(s) && VmaOk(m) && IsRoot(s, r)
    requires AreaLoaded(s, s', r, m, program) && AllReach(s, r, m, program)
    requires v in PagesOf(m) && !Pte(s.mem, r, v).present && x.flags in {2, 3, 6, 7} && m.flags == NewVma(x).flags
    ensures Pte(s'.mem, r, v).present && Pte(s'.mem, r, v).user && (Pte(s'.mem, r, v).rw <==> x.flags % 2 == 1)
    ensures UserMayAccess(s'.mem, r, v, false) && (UserMayAccess(s'.mem, r, v, true) <==> x.flags % 2 == 1)
  {
    hide Inv, Quiet, Once, Pte, PagesOf, VmaOk, AreaLoaded, AllReach, Canonical, UserMayAccess;
    HandledPages(s, s', r, m, program, v);
    AreaInv(s, s', r, m, program);
    LeafDecides(s', r, v, false);
    LeafDecides(s', r, v, true);
    PathFacts(s', r, v);
  }

  lemma AreaInv(s: Mem, s': Mem, r: nat, m: Vma, program: Program)
    requires Inv(s) && Quiet(s) && Once(s) && VmaOk(m) && IsRoot(s, r)
    requires AreaLoaded(s, s', r, m, program) && AllReach(s, r, m, program)
    ensures Inv(s') && IsRoot(s', r)
  {
    hide Inv, Quiet, Once, View, Pte, Filled, PagesOf, Writes, StoreAllS, Loaded, AllReach, VmaOk;
    var s1: Mem :| LoadedVia(s, s1, s', r, m, program);
    HandledViews(s, s1, s', r, m, program);
  }

  /** The same for fork: the child maps the frames of the parent's pages in such an area without RW, and
      copy-on-write exactly when the section is writable. */
  lemma HeaderDecidesCow(s: Mem, s': Mem, parent: nat, child: nat, vmas: seq<Vma>, j: nat, v: nat, x: Section)
    requires VmasOk(vmas) && ForkStep(s, s', parent, child, vmas) && j < |vmas| && v in PagesOf(vmas[j])
    requires Pte(s.mem, parent, v).present && x.flags in {2, 3, 6, 7} && vmas[j].flags == NewVma(x).flags
    ensures Pte(s'.mem, child, v).present && Pte(s'.mem, child, v).frame == Pte(s.mem, parent, v).frame
    ensures !Pte(s'.mem, child, v).rw && (Pte(s'.mem, child, v).cow <==> x.flags % 2 == 1)
    ensures x.flags % 2 == 1 ==> !Pte(s'.mem, parent, v).rw && Pte(s'.mem, parent, v).cow
    ensures x.flags % 2 == 0 ==> Pte(s'.mem, parent, v) == Pte(s.mem, parent, v)
  {
    hide Pte, PagesOf, VmasOk, ForkStep;
    ForkedArea(s, s', parent, child, vmas, j, v);
  }

  /** A page-aligned area in one half of the address space. */
  predicate AreaInHalf(m: Vma) {
    && m.start % PAGE_SIZE == 0 && m.end % PAGE_SIZE == 0 && m.start <= m.end
    && (m.end <= HALF || (TWO64 - HALF <= m.start && m.end <= TWO64))
  }

  lemma PagesFrom(m: Vma)
    requires AreaInHalf(m)
    ensures NumPages(m) == m.end / PAGE_SIZE - m.start / PAGE_SIZE
  {
  }

  lemma Between(a: nat, b: nat)
    requires b % PAGE_SIZE == 0
    ensures b / PAGE_SIZE <= a / PAGE_SIZE <==> b <= a
  {
  }

  /** An address's page is one of an area's pages exactly when the address is at or above its start and below its
      end. */
  lemma InsideIff(m: Vma, addr: nat)
    requires AreaInHalf(m) && Canonical(addr)
    ensures PageNumber(addr) in PagesOf(m) <==> m.start <= addr < m.end
  {
    PagesFrom(m);
    Between(addr, m.start);
    Between(addr, m.end);
    PageNumberIs(addr);
    if m.start < m.end {
      PageNumberIs(m.start);
    }
    hide PageNumber, NumPages;
  }

  /** After the handler the faulting page is mapped exactly when the address lies below the end of the area
      that was found, and not below its start. */
  lemma ResolvedIff(s: Mem, s': Mem, r: nat, m: Vma, addr: nat)
    requires IsRoot(s, r) && AreaInHalf(m) && Canonical(addr) && PageNumber(addr) < USER_PAGES
    requires !Pte(s.mem, r, PageNumber(addr)).present && Filled(s, s', r, PagesOf(m), Writable(m))
    ensures Pte(s'.mem, r, PageNumber(addr)).present <==> m.start <= addr < m.end
    ensures Pte(s'.mem, r, PageNumber(addr)).present ==> Pte(s'.mem, r, PageNumber(addr)).rw == Writable(m)
  {
    hide Pte, Canonical, AreaInHalf, PagesOf, PageNumber, SameContents, TablesStay, SameRoots;
    InsideIff(m, addr);
  }

  /** The same after the whole handler, with its section copy. */
  lemma HandledIff(s: Mem, s': Mem, r: nat, m: Vma, program: Program, addr: nat)
    requires Inv(s) && Quiet(s) && Once(s) && VmaOk(m) && IsRoot(s, r)
    requires AreaLoaded(s, s', r, m, program) && AllReach(s, r, m, program)
    requires AreaInHalf(m) && Canonical(addr) && PageNumber(addr) < USER_PAGES
    requires !Pte(s.mem, r, PageNumber(addr)).present
    ensures Pte(s'.mem, r, PageNumber(addr)).present <==> m.start <= addr < m.end
    ensures Pte(s'.mem, r, PageNumber(addr)).present ==> Pte(s'.mem, r, PageNumber(addr)).rw == Writable(m)
  {
    hide Inv, Quiet, Once, View, Pte, Filled, PagesOf, Writes, StoreAllS, Loaded, PageNumber, VmaOk, SameTables,
      AreaInHalf, Canonical, AllReach;
    var s1: Mem :| LoadedVia(s, s1, s', r, m, program);
    HandledViews(s, s1, s', r, m, program);
    TablesEntry(s1, s', r, PageNumber(addr));
    ResolvedIff(s, s1, r, m, addr);
  }

  /** A permitted access inside an area finds that area, unless the address is the end of an earlier
      permitted one or an earlier one is the stack. */
  lemma FoundIff(vmas: seq<Vma>, addr: nat, write: bool, i: nat)
    requires VmasOk(vmas) && (forall k :: 0 <= k < |vmas| ==> AreaInHalf(vmas[k])) && Canonical(addr)
    requires i < |vmas| && vmas[i].start <= addr < vmas[i].end && (write ==> Writable(vmas[i]))
    ensures FirstMatch(vmas, addr, write, i) <==>
      forall j :: 0 <= j < i && (write ==> vmas[j].flags / 2 % 2 == 1) ==>
        addr != vmas[j].end && (vmas[j].start < USTACKLIMIT + 4096 || addr + 8 < vmas[j].start)
  {
    hide PagesOf, VmaOk, Canonical, AreaInHalf, PageNumber;
    InsideIff(vmas[i], addr);
    forall j | 0 <= j < i ensures !(vmas[j].start <= addr < vmas[j].end) {
      InsideIff(vmas[j], addr);
    }
    forall j | 0 <= j < i && (write ==> Writable(vmas[j]))
      ensures Matches(vmas[j], addr, write) <==>
        vmas[j].start <= addr == vmas[j].end || StackCondition(vmas[j], addr) {}
    forall j | 0 <= j < i ensures addr == vmas[j].end ==> vmas[j].start <= addr {
      assert VmaOk(vmas[j]);
      StartBelowEnd(vmas[j]);
    }
  }

  lemma StartBelowEnd(m: Vma)
    requires VmaOk(m)
    ensures m.start <= m.end
  {
  }

  /** A fault at the first address of an area that directly follows another is handed to the other one,
      whose pages do not include it. */
  lemma AdjoiningAreas(a: Vma, b: Vma)
    requires AreaInHalf(a) && AreaInHalf(b) && Canonical(b.start) && a.end == b.start < b.end && Writable(a)
    ensures FirstMatch([a, b], b.start, true, 0)
    ensures PageNumber(b.start) !in PagesOf(a) && PageNumber(b.start) in PagesOf(b)
  {
    hide PagesOf, PageNumber, Canonical;
    InsideIff(a, b.start);
    InsideIff(b, b.start);
  }

  /** The stack does not grow: a write in the eight bytes below its page is handed to the stack's area, whose pages
      do not include it, and a write further below finds no area. */
  lemma StackDoesNotGrow(addr: nat)
    requires 0xFFFF_FF7F_7FFF_C000 <= addr < 0xFFFF_FF7F_7FFF_D000
    ensures var stack := Vma(0xFFFF_FF7F_7FFF_D000, 0xFFFF_FF7F_7FFF_E000, 3);
      (FirstMatch([stack], addr, true, 0) <==> addr >= 0xFFFF_FF7F_7FFF_CFF8) && PageNumber(addr) !in PagesOf(stack)
  {
    hide PagesOf, PageNumber;
    InsideIff(Vma(0xFFFF_FF7F_7FFF_D000, 0xFFFF_FF7F_7FFF_E000, 3), addr);
  }
}
