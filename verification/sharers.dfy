/** Where copy_on_write_handler stops isolating processes (sys/isr.c:211). */
module Sharers {
  import opened Words
  import opened Memory
  import opened Updates
  import opened Processes
  import opened Faults
  import opened Teardown
  import opened Counting
  import opened Loading
  import opened Refinement

  /** A store through the entry of `(r, v)` shows up on that page of that process and nowhere else. */
  ghost predicate StoresStayPrivate(s: Mem, r: nat, v: nat) {
    forall i: nat, word: Word :: i < 512 && v in View(s, r) && Pte(s.mem, r, v).frame < |s.mem| ==>
      var s' := StoreS(s, Pte(s.mem, r, v).frame, i, word);
      && View(s', r) == Stored(View(s, r), v, i, word)
      && forall q: nat :: IsRoot(s, q) && q != r ==> View(s', q) == View(s, q)
  }

  /** After a write fault on a copy-on-write page the page is writable, and stores to it stay
      private exactly when at most two entries mapped the frame. */
  lemma WriteFaultIsolatesIff(w: World, w': World, r: nat, v: nat)
    requires WorldOk(w) && Step(w, w', AWriteFault(r, v)) && Pte(w.s.mem, r, v).cow
    ensures Pte(w'.s.mem, r, v).present && Pte(w'.s.mem, r, v).rw
    ensures Pte(w.s.mem, r, v).frame < |w.s.refs|
    ensures StoresStayPrivate(w'.s, r, v) <==> w.s.refs[Pte(w.s.mem, r, v).frame] <= 2
  {
    hide Inv, Quiet, Disciplined;
    SoleMapper(w.s, r, v);
    var f := Pte(w.s.mem, r, v).frame;
    assert IsRoot(w.s, r);
    if w.s.refs[f] <= 2 {
      WriteFaultRefines(w, w', AWriteFault(r, v));
      CowWritable(w.s, w'.s, r, v);
      WritableAlone(w'.s, r, v);
      WritableMapped(w'.s, r, v);
      PrivateStores(w'.s, r, v);
    } else {
      OtherSharer(w, w', r, v);
    }
  }

  lemma CowWritable(s: Mem, s': Mem, r: nat, v: nat)
    requires IsRoot(s, r) && v < USER_PAGES && CowStep(s, s', r, v) && Pte(s.mem, r, v).present && Pte(s.mem, r, v).cow
    ensures IsWritable(s', r, v)
  {
  }

  lemma PrivateStores(s: Mem, r: nat, v: nat)
    requires Inv(s) && IsMapped(s, r, v) && OwnAlone(s, r, v) && OthersAlone(s, r, v)
    ensures StoresStayPrivate(s, r, v)
  {
    hide Inv, IsMapped, Pte, OwnAlone, OthersAlone, View, SameMappings;
    forall i: nat, word: Word | i < 512 && v in View(s, r) && Pte(s.mem, r, v).frame < |s.mem|
      ensures var s' := StoreS(s, Pte(s.mem, r, v).frame, i, word);
        && View(s', r) == Stored(View(s, r), v, i, word)
        && forall q: nat :: IsRoot(s, q) && q != r ==> View(s', q) == View(s, q)
    {
      var s' := StoreS(s, Pte(s.mem, r, v).frame, i, word);
      StoreKeepsMappings(s, r, v, i, word);
      StoreOwnView(s, s', r, v, i, word);
      forall q: nat | IsRoot(s, q) && q != r ensures View(s', q) == View(s, q) {
        StoreOtherView(s, s', r, v, i, word, q);
      }
    }
  }

  lemma WritableMapped(s: Mem, r: nat, v: nat)
    requires Inv(s) && IsWritable(s, r, v)
    ensures IsMapped(s, r, v)
  {
    PathFacts(s, r, v);
  }

  lemma StoreKeepsMappings(s: Mem, r: nat, v: nat, i: nat, word: Word)
    requires Inv(s) && IsMapped(s, r, v) && i < 512
    ensures Pte(s.mem, r, v).frame < |s.mem| && SameMappings(s, StoreS(s, Pte(s.mem, r, v).frame, i, word))
  {
    StoreMappings(s, r, v, i, word);
  }

  /** With a third sharer the frame is unlocked in place, and a store reaches another page. */
  lemma OtherSharer(w: World, w': World, r: nat, v: nat)
    requires WorldOk(w) && Step(w, w', AWriteFault(r, v)) && Pte(w.s.mem, r, v).cow
    requires Pte(w.s.mem, r, v).frame < |w.s.refs| && w.s.refs[Pte(w.s.mem, r, v).frame] > 2
    ensures IsWritable(w'.s, r, v) && !StoresStayPrivate(w'.s, r, v)
  {
    assert IsRoot(w.s, r);
    hide Inv, Quiet, Private, Disciplined, Pte, StoresStayPrivate, IsWritable, CowStep, MapsPage;
    var f := Pte(w.s.mem, r, v).frame;
    SoleMapper(w.s, r, v);
    var p: nat, u: nat :| MapsPage(w.s, p, u, f) && (p, u) != (r, v);
    Unlocked(w.s, w'.s, r, v, p, u);
    WritableMapped(w'.s, r, v);
    LeakWitness(w'.s, r, v, p, u);
  }

  lemma Unlocked(s: Mem, s': Mem, r: nat, v: nat, p: nat, u: nat)
    requires IsRoot(s, r) && v < USER_PAGES && CowStep(s, s', r, v) && Pte(s.mem, r, v).present && Pte(s.mem, r, v).cow
    requires Pte(s.mem, r, v).frame < |s.refs| && s.refs[Pte(s.mem, r, v).frame] > 2
    requires MapsPage(s, p, u, Pte(s.mem, r, v).frame) && (p, u) != (r, v)
    ensures Inv(s') && IsWritable(s', r, v) && MapsPage(s', p, u, Pte(s'.mem, r, v).frame)
  {
    hide Inv, SameContents;
  }

  /** A store through an entry whose frame is mapped at another place reaches that place. */
  lemma LeakWitness(s: Mem, r: nat, v: nat, p: nat, u: nat)
    requires Inv(s) && IsMapped(s, r, v) && MapsPage(s, p, u, Pte(s.mem, r, v).frame) && (p, u) != (r, v)
    ensures !StoresStayPrivate(s, r, v)
  {
    hide Inv, Pte, View, SameMappings;
    var f := Pte(s.mem, r, v).frame;
    var word := s.mem[f][0].(rest := if s.mem[f][0].rest == 0 then 1 else 0);
    StoreKeepsMappings(s, r, v, 0, word);
    var s2 := StoreS(s, f, 0, word);
    SharedSee(s, s2, r, v, p, u, word);
    ViewAt(s, r, v);
    ViewAt(s, p, u);
    if p == r {
      assert Stored(View(s, r), v, 0, word)[u] == View(s, r)[u];
    }
  }

  lemma SharedSee(s: Mem, s2: Mem, r: nat, v: nat, p: nat, u: nat, word: Word)
    requires IsMapped(s, r, v) && MapsPage(s, p, u, Pte(s.mem, r, v).frame)
    requires s2 == StoreS(s, Pte(s.mem, r, v).frame, 0, word) && SameMappings(s, s2)
    ensures u in View(s2, p) && View(s2, p)[u][0] == word
  {
    hide Pte, View;
    assert Pte(s2.mem, p, u) == Pte(s.mem, p, u);
    ViewAt(s2, p, u);
  }

  /** Stores through an entry stay private exactly when its frame is counted once. */
  lemma PrivateIff(s: Mem, r: nat, v: nat)
    requires Inv(s) && Quiet(s) && IsMapped(s, r, v)
    ensures Pte(s.mem, r, v).frame < |s.refs|
    ensures StoresStayPrivate(s, r, v) <==> s.refs[Pte(s.mem, r, v).frame] == 1
  {
    SoleMapper(s, r, v);
    hide Inv, Quiet, Pte, StoresStayPrivate, MapsPage;
    var f := Pte(s.mem, r, v).frame;
    if s.refs[f] == 1 {
      PrivateStores(s, r, v);
    } else {
      var p: nat, u: nat :| MapsPage(s, p, u, f) && (p, u) != (r, v);
      LeakWitness(s, r, v, p, u);
    }
  }

  // ---------- stores of the kernel ----------

  /** Each store of some stays private, whatever it stores. */
  ghost predicate AllStayPrivate(s: Mem, r: nat, ws: seq<Write>) {
    forall j :: 0 <= j < |ws| ==> StoresStayPrivate(s, r, PageNumber(ws[j].addr))
  }

  /** The kernel's stores in a process's mapped pages stay private exactly when no frame they go to is mapped
      anywhere else: the kernel does not fault on a copy-on-write page. */
  lemma KernelStoresPrivateIff(s: Mem, r: nat, ws: seq<Write>)
    requires Inv(s) && Quiet(s) && TargetsMapped(s, r, ws)
    ensures AllStayPrivate(s, r, ws) <==> TargetsAlone(s, r, ws)
  {
    hide Inv, Quiet, PageNumber, Pte, StoresStayPrivate, TargetAlone, IsMapped;
    forall j | 0 <= j < |ws|
      ensures StoresStayPrivate(s, r, PageNumber(ws[j].addr)) <==> TargetAlone(s, r, PageNumber(ws[j].addr))
    {
      TargetPrivateIff(s, r, PageNumber(ws[j].addr));
    }
  }

  lemma TargetPrivateIff(s: Mem, r: nat, v: nat)
    requires Inv(s) && Quiet(s) && IsMapped(s, r, v)
    ensures StoresStayPrivate(s, r, v) <==> TargetAlone(s, r, v)
  {
    hide Inv, Quiet, Pte, StoresStayPrivate;
    PrivateIff(s, r, v);
  }

  /** The stores of copyELF, after allocatePages, stay private exactly when no frame that was mapped at their
      pages before the fault is mapped anywhere else. */
  lemma CopyPrivateIff(s: Mem, s1: Mem, r: nat, m: Vma, program: Program)
    requires Inv(s) && Inv(s1) && Quiet(s1) && VmaOk(m) && IsRoot(s, r) && IsRoot(s1, r)
    requires Filled(s, s1, r, PagesOf(m), Writable(m)) && AllReach(s, r, m, program)
    ensures var ws := Writes(m, program.file, program.sections);
      AllStayPrivate(s1, r, ws) <==> TargetsAlone(s, r, ws)
  {
    hide Inv, Quiet, Filled, PagesOf, VmaOk, Pte, AllReach, Writes, TargetsAlone, TargetsMapped, AllStayPrivate;
    FilledTargets(s, s1, r, m, program);
    KernelStoresPrivateIff(s1, r, Writes(m, program.file, program.sections));
  }

  /** A fault on an area, none of whose pages is mapped yet, is within the boundary when the stores outside the
      area, if there are any, go to writable pages. */
  lemma FirstFaultStoresAlone(w: World, r: nat, k: nat, program: Program)
    requires WorldOk(w) && r in w.vmas && k < |w.vmas[r]|
    requires forall v: nat :: v in PagesOf(w.vmas[r][k]) ==> !Pte(w.s.mem, r, v).present
    requires forall x :: x in Writes(w.vmas[r][k], program.file, program.sections) ==>
      PageNumber(x.addr) in PagesOf(w.vmas[r][k]) || IsWritable(w.s, r, PageNumber(x.addr))
    ensures StoresAlone(w, AFault(r, k, program)) && AllReach(w.s, r, w.vmas[r][k], program)
  {
    var m := w.vmas[r][k];
    var ws := Writes(m, program.file, program.sections);
    hide Inv, Quiet, Private, Once, Disciplined, PagesOf, PageNumber, Pte, Writes;
    forall j | 0 <= j < |ws| ensures TargetAlone(w.s, r, PageNumber(ws[j].addr)) {
      assert ws[j] in ws;
      if IsWritable(w.s, r, PageNumber(ws[j].addr)) {
        WritableTarget(w.s, r, PageNumber(ws[j].addr));
      }
    }
  }

  lemma WritableTarget(s: Mem, r: nat, v: nat)
    requires Inv(s) && Quiet(s) && Private(s) && IsWritable(s, r, v)
    ensures TargetAlone(s, r, v)
  {
    WritableMapped(s, r, v);
    WritableAlone(s, r, v);
    hide Inv, Quiet, Private, Pte, StoresStayPrivate, OwnAlone, OthersAlone;
    PrivateStores(s, r, v);
    PrivateIff(s, r, v);
  }

  /** A later fault that is handed to the area again, as at its end, rewrites what a forked sibling shares: the
      copy is not private, and the sibling reads the file's bytes on every page of the copy it shares. */
  lemma RefaultAfterFork(w: World, w1: World, w2: World, r: nat, c: nat, k: nat, program: Program, j: nat)
    requires WorldOk(w) && Step(w, w1, AFork(r, c)) && k < |w.vmas[r]| && Step(w1, w2, AFault(r, k, program))
    requires var ws := Writes(w.vmas[r][k], program.file, program.sections);
      j < |ws| && IsMapped(w.s, r, PageNumber(ws[j].addr))
    ensures !StoresAlone(w1, AFault(r, k, program))
    ensures var m := w.vmas[r][k]; var ws := Writes(m, program.file, program.sections); var v := PageNumber(ws[j].addr);
      && v in View(w2.s, c) && v in View(w2.s, r) && View(w2.s, c)[v] == View(w2.s, r)[v]
      && View(w2.s, r) == Loaded(ZeroFilled(View(w1.s, r), PagesOf(m)), ws)
  {
    hide Inv, Quiet, Private, Once, Disciplined, Pte, View, Filled, PagesOf, VmaOk, Loaded, StoreAllS, Writes,
      PageNumber;
    ForkRefines(w, w1, AFork(r, c));
    var v := PageNumber(Writes(w.vmas[r][k], program.file, program.sections)[j].addr);
    ForkShares(w.s, w1.s, r, c, w.vmas[r], v);
    SharedCount(w1.s, r, c, v);
    assert !TargetAlone(w1.s, r, v);
    SiblingReads(w1, w2, r, c, k, program, v);
  }

  /** Whoever shares a page with the process reads the same there after the copy. */
  lemma SiblingReads(w: World, w': World, r: nat, c: nat, k: nat, program: Program, v: nat)
    requires r in w.vmas && k < |w.vmas[r]| && WorldOk(w) && Step(w, w', AFault(r, k, program))
    requires IsMapped(w.s, r, v) && MapsPage(w.s, c, v, Pte(w.s.mem, r, v).frame)
    ensures v in View(w'.s, c) && v in View(w'.s, r) && View(w'.s, c)[v] == View(w'.s, r)[v]
    ensures var m := w.vmas[r][k]; var ws := Writes(m, program.file, program.sections);
      View(w'.s, r) == Loaded(ZeroFilled(View(w.s, r), PagesOf(m)), ws)
  {
    hide Inv, Quiet, Private, Once, Disciplined, Pte, View, Filled, PagesOf, VmaOk, Loaded, StoreAllS, Writes,
      PageNumber, AllReach, TargetsMapped, TargetsAlone;
    var m := w.vmas[r][k];
    var ws := Writes(m, program.file, program.sections);
    var s1: Mem :| LoadedVia(w.s, s1, w'.s, r, m, program);
    FilledFacts(w.s, s1, r, w.vmas[r], k);
    FillRefines(w, s1, r, k);
    FilledKeeps(w.s, s1, r, c, m, v);
    FilledTargets(w.s, s1, r, m, program);
    FilledMapped(w.s, s1, r, m, v);
    CopyEffects(s1, r, ws);
    SharedViews(s1, w'.s, r, c, v);
  }

  /** A system call that stores in the memory of a forked child, before the child has written there itself, leaves
      the boundary: the parent reads the stored bytes on every page they share. */
  lemma KernelStoreAfterFork(w: World, w1: World, w2: World, r: nat, c: nat, bytes: seq<Write>, j: nat)
    requires WorldOk(w) && Step(w, w1, AFork(r, c)) && Step(w1, w2, AKernelStore(c, bytes)) && j < |bytes|
    ensures !StoresAlone(w1, AKernelStore(c, bytes))
    ensures var v := PageNumber(bytes[j].addr);
      v in View(w2.s, r) && v in View(w2.s, c) && View(w2.s, r)[v] == View(w2.s, c)[v]
    ensures View(w2.s, c) == Loaded(View(w1.s, c), bytes)
  {
    hide Inv, Quiet, Private, Once, Disciplined, Pte, View, Loaded, StoreAllS, PageNumber;
    ForkRefines(w, w1, AFork(r, c));
    var v := PageNumber(bytes[j].addr);
    KernelStored(w1, w2, c, bytes);
    ChildShares(w.s, w1.s, r, c, w.vmas[r], v);
    SharedCount(w1.s, c, r, v);
    assert !TargetAlone(w1.s, c, v);
    hide Step, WorldOk;
    SharedViews(w1.s, w2.s, c, r, v);
  }

  /** The process reads the bytes, whoever else does. */
  lemma KernelStored(w: World, w': World, r: nat, bytes: seq<Write>)
    requires WorldOk(w) && Step(w, w', AKernelStore(r, bytes))
    ensures SameTables(w.s, w'.s) && View(w'.s, r) == Loaded(View(w.s, r), bytes)
    ensures TargetsMapped(w.s, r, bytes)
  {
    hide Inv, Quiet, Private, Once, Disciplined, Pte, View, Loaded, StoreAllS, PageNumber, TargetsMapped, SameTables,
      Reachable;
    assert IsRoot(w.s, r);
    AllMapped(w.s, r, bytes);
    CopyEffects(w.s, r, bytes);
  }

  /** What a new child has mapped its parent maps in the same frame. */
  lemma ChildShares(s: Mem, s': Mem, r: nat, c: nat, vmas: seq<Vma>, v: nat)
    requires Inv(s) && ForkStep(s, s', r, c, vmas) && Disciplined(s, r, vmas) && Inv(s') && IsRoot(s', c)
    requires v < USER_PAGES && Pte(s'.mem, c, v).present
    ensures c != r && IsMapped(s', c, v) && MapsPage(s', r, v, Pte(s'.mem, c, v).frame)
  {
    PathFacts(s', c, v);
    hide Pte, Pages, WritablePages;
  }

  lemma FilledMapped(s: Mem, s1: Mem, r: nat, m: Vma, v: nat)
    requires Inv(s1) && Filled(s, s1, r, PagesOf(m), Writable(m)) && IsMapped(s, r, v) && IsRoot(s1, r)
    ensures IsMapped(s1, r, v)
  {
    FilledAt(s, s1, r, PagesOf(m), Writable(m), r, v);
    PathFacts(s1, r, v);
    hide Pte;
  }

  /** After a fork the two processes map the same frame at every covered page. */
  lemma ForkShares(s: Mem, s': Mem, r: nat, c: nat, vmas: seq<Vma>, v: nat)
    requires Inv(s) && ForkStep(s, s', r, c, vmas) && Disciplined(s, r, vmas) && IsMapped(s, r, v)
    ensures c != r && IsMapped(s', r, v) && MapsPage(s', c, v, Pte(s'.mem, r, v).frame)
  {
    assert v in Pages(vmas);
    hide Pte, Pages, WritablePages;
  }

  lemma SharedCount(s: Mem, r: nat, c: nat, v: nat)
    requires Inv(s) && Quiet(s) && IsMapped(s, r, v) && MapsPage(s, c, v, Pte(s.mem, r, v).frame) && c != r
    ensures Pte(s.mem, r, v).frame < |s.refs| && s.refs[Pte(s.mem, r, v).frame] != 1
  {
    SoleMapper(s, r, v);
  }

  lemma FilledKeeps(s: Mem, s1: Mem, r: nat, c: nat, m: Vma, v: nat)
    requires Inv(s) && Inv(s1) && Filled(s, s1, r, PagesOf(m), Writable(m)) && IsRoot(s, r)
    requires IsMapped(s, r, v) && MapsPage(s, c, v, Pte(s.mem, r, v).frame)
    ensures IsRoot(s1, r) && MapsPage(s1, c, v, Pte(s1.mem, r, v).frame)
  {
    FilledAt(s, s1, r, PagesOf(m), Writable(m), r, v);
    FilledAt(s, s1, r, PagesOf(m), Writable(m), c, v);
    hide Pte;
  }

  /** Two pages in one frame read the same. */
  lemma SharedViews(s1: Mem, s2: Mem, r: nat, c: nat, v: nat)
    requires SameTables(s1, s2) && IsMapped(s1, r, v) && MapsPage(s1, c, v, Pte(s1.mem, r, v).frame)
    ensures v in View(s2, c) && v in View(s2, r) && View(s2, c)[v] == View(s2, r)[v]
  {
    hide Pte, View;
    assert Pte(s2.mem, r, v) == Pte(s1.mem, r, v) && Pte(s2.mem, c, v) == Pte(s1.mem, c, v);
    ViewAt(s2, r, v);
    ViewAt(s2, c, v);
  }

  // ---------- three sharers ----------

  /** Forking twice shares a private page three ways. */
  lemma TwoForksShareThreeWays(w: World, w1: World, w2: World, r: nat, a: nat, b: nat, v: nat)
    requires WorldOk(w) && Step(w, w1, AFork(r, a)) && Step(w1, w2, AFork(r, b))
    requires IsWritable(w.s, r, v)
    ensures WorldOk(w2) && Pte(w2.s.mem, r, v).present && Pte(w2.s.mem, r, v).cow
    ensures Pte(w2.s.mem, r, v).frame < |w2.s.refs| && w2.s.refs[Pte(w2.s.mem, r, v).frame] == 3
  {
    assert v < USER_PAGES && Pte(w.s.mem, r, v).present && Pte(w.s.mem, r, v).rw;
    hide Inv, Quiet, Private, Disciplined, MapsPage, Pte, Step;
    ForkMarks(w, w1, r, a, v);
    ForkRefines(w, w1, AFork(r, a));
    ForkMarks(w1, w2, r, b, v);
    ForkSharers(w, w1, w2, r, a, b, v);
    ForkRefines(w1, w2, AFork(r, b));
    FrameOfEntry(w2.s, r, v);
    ThreeMappers(w2.s, Pte(w.s.mem, r, v).frame, r, a, b, v);
  }

  lemma ThreeMappers(s: Mem, f: nat, r: nat, a: nat, b: nat, v: nat)
    requires Inv(s) && Quiet(s) && f < |s.role| == |s.refs| && s.role[f] == Data && a != r && b != r && b != a
    requires forall q: nat, u: nat :: MapsPage(s, q, u, f) <==> u == v && (q == r || q == a || q == b)
    ensures s.refs[f] == 3
  {
    hide Inv, Quiet, Pte;
    CountIsMappings(s, f);
    assert MapsPage(s, r, v, f) && MapsPage(s, a, v, f) && MapsPage(s, b, v, f);
    assert Mappers(s, f) == {(r, v), (a, v), (b, v)};
  }

  lemma FrameOfEntry(s: Mem, r: nat, v: nat)
    requires Inv(s) && IsRoot(s, r) && v < USER_PAGES && Pte(s.mem, r, v).present
    ensures Pte(s.mem, r, v).frame < |s.role| == |s.refs| && s.role[Pte(s.mem, r, v).frame] == Data
  {
    PathFacts(s, r, v);
  }

  /** A fork leaves the parent's private or shared page copy-on-write in the same frame. */
  lemma ForkMarks(w: World, w': World, r: nat, c: nat, v: nat)
    requires WorldOk(w) && Step(w, w', AFork(r, c)) && v < USER_PAGES && Pte(w.s.mem, r, v).present
    requires Pte(w.s.mem, r, v).rw || Pte(w.s.mem, r, v).cow
    ensures IsRoot(w.s, r) && IsRoot(w'.s, r) && IsRoot(w'.s, c) && c != r
    ensures Pte(w'.s.mem, r, v) == CowMark(Pte(w.s.mem, r, v))
    ensures Pte(w'.s.mem, r, v).frame == Pte(w.s.mem, r, v).frame
  {
    hide Inv, Quiet, Private;
    assert Disciplined(w.s, r, w.vmas[r]);
    assert v in WritablePages(w.vmas[r]);
    assert IsRoot(w.s, r);
  }

  lemma NewChild(w: World, w': World, r: nat, c: nat)
    requires WorldOk(w) && Step(w, w', AFork(r, c))
    ensures WorldOk(w') && c != r && !IsRoot(w.s, c) && IsRoot(w'.s, c)
  {
    hide Inv, Quiet, Private, Once, Disciplined, Pte, View;
    ForkRefines(w, w', AFork(r, c));
    assert IsRoot(w.s, r);
  }

  lemma SoleWritable(w: World, r: nat, v: nat)
    requires WorldOk(w) && IsWritable(w.s, r, v)
    ensures forall q: nat, u: nat :: MapsPage(w.s, q, u, Pte(w.s.mem, r, v).frame) <==> q == r && u == v
  {
    hide Inv, Quiet, Disciplined, Pte;
  }

  lemma ForkSharers(w: World, w1: World, w2: World, r: nat, a: nat, b: nat, v: nat)
    requires WorldOk(w) && Step(w, w1, AFork(r, a)) && Step(w1, w2, AFork(r, b)) && IsWritable(w.s, r, v)
    ensures a != r && b != r && b != a
    ensures forall q: nat, u: nat ::
      MapsPage(w2.s, q, u, Pte(w.s.mem, r, v).frame) <==> u == v && (q == r || q == a || q == b)
  {
    hide Inv, Quiet, Private, Disciplined, MapsPage, Pte, WorldOk, Step, IsRoot, IsWritable;
    var f := Pte(w.s.mem, r, v).frame;
    NewChild(w, w1, r, a);
    NewChild(w1, w2, r, b);
    SoleWritable(w, r, v);
    forall q: nat, u: nat ensures MapsPage(w2.s, q, u, f) <==> u == v && (q == r || q == a || q == b) {
      ForkMapper(w, w1, r, a, q, u, f);
      ForkMapper(w, w1, r, a, r, u, f);
      ForkMapper(w1, w2, r, b, q, u, f);
    }
  }

  /** Who maps a frame after a fork: who did before, and the child where the parent did. */
  lemma ForkMapper(w: World, w': World, r: nat, c: nat, q: nat, u: nat, f: nat)
    requires WorldOk(w) && Step(w, w', AFork(r, c))
    ensures MapsPage(w'.s, q, u, f) <==> if q == c then MapsPage(w.s, r, u, f) else MapsPage(w.s, q, u, f)
  {
    if u < USER_PAGES && IsRoot(w'.s, q) {
      assert IsRoot(w.s, r);
      var done, wr := Pages(w.vmas[r]), WritablePages(w.vmas[r]);
      assert q == c ==> Pte(w'.s.mem, c, u) == if u in done then ChildWord(Pte(w.s.mem, r, u), u in wr) else ZERO;
    }
  }
}
