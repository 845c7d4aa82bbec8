/** Copy-on-write against copying: runs of the memory system and what the processes read in them. */
module Refinement {
  import opened Words
  import opened Memory
  import opened Updates
  import opened Processes
  import opened Faults
  import opened Teardown
  import opened Counting
  import opened PageBytes
  import opened Loading

  // ---------- what the processes see ----------

  /** A process's memory: its mapped pages and their words. */
  ghost function View(s: Mem, r: nat): map<nat, Page> {
    map v: nat | v < USER_PAGES && Pte(s.mem, r, v).present && Pte(s.mem, r, v).frame < |s.mem|
      :: s.mem[Pte(s.mem, r, v).frame]
  }

  type Views = map<nat, map<nat, Page>>

  /** The kernel: its memory, and the descriptors of each live process. */
  datatype World = World(s: Mem, vmas: map<nat, seq<Vma>>)

  ghost function ViewsOf(w: World): Views {
    map r | r in w.vmas :: View(w.s, r)
  }

  // ---------- the invariant ----------

  ghost predicate IsWritable(s: Mem, q: nat, v: nat) {
    IsRoot(s, q) && v < USER_PAGES && Pte(s.mem, q, v).present && Pte(s.mem, q, v).rw
  }

  /** A writable entry is the only one that maps its frame. */
  ghost predicate Private(s: Mem) {
    forall q: nat, v: nat, p: nat, u: nat :: IsWritable(s, q, v) && MapsPage(s, p, u, Pte(s.mem, q, v).frame) ==>
      p == q && u == v
  }

  /** No process maps a frame at two pages. */
  ghost predicate Once(s: Mem) {
    forall q: nat, v: nat, u: nat, f: nat :: MapsPage(s, q, v, f) && MapsPage(s, q, u, f) ==> u == v
  }

  /** Pages of writable descriptors are writable or copy-on-write, the others neither. */
  ghost predicate Disciplined(s: Mem, r: nat, vmas: seq<Vma>) {
    && VmasOk(vmas) && Covered(s, r, vmas)
    && forall v: nat :: v < USER_PAGES && Pte(s.mem, r, v).present ==>
         if v in WritablePages(vmas) then Pte(s.mem, r, v).rw != Pte(s.mem, r, v).cow
         else !Pte(s.mem, r, v).rw && !Pte(s.mem, r, v).cow
  }

  ghost predicate WorldOk(w: World) {
    && Inv(w.s) && Quiet(w.s) && Private(w.s) && Once(w.s)
    && (forall r: nat :: IsRoot(w.s, r) <==> r in w.vmas)
    && (forall r: nat :: r in w.vmas ==> Disciplined(w.s, r, w.vmas[r]))
  }

  // ---------- steps ----------

  datatype Action =
    | AStart(r: nat, areas: seq<Vma>)
    | AFork(parent: nat, child: nat)
    | AStore(r: nat, v: nat, i: nat, word: Word)
    | AWriteFault(r: nat, v: nat)
    | AFault(r: nat, k: nat, program: Program)
    | AKernelStore(r: nat, bytes: seq<Write>)
    | AGrow(r: nat, k: nat, end: nat)
    | AExit(r: nat)

  /** The handler of a fault on a page that is not present: allocatePages, then copyELF. */
  ghost predicate AreaLoaded(s: Mem, s': Mem, r: nat, m: Vma, program: Program) {
    exists s1: Mem :: LoadedVia(s, s1, s', r, m, program)
  }

  ghost predicate LoadedVia(s: Mem, s1: Mem, s': Mem, r: nat, m: Vma, program: Program) {
    && Inv(s1) && Filled(s, s1, r, PagesOf(m), Writable(m))
    && s' == StoreAllS(s1, r, Writes(m, program.file, program.sections))
  }

  /** A user address that is mapped for process r. */
  ghost predicate Reachable(s: Mem, r: nat, a: nat) {
    PageNumber(a) < USER_PAGES && Pte(s.mem, r, PageNumber(a)).present
  }

  /** Every store of copyELF finds its page: in the area, or mapped before. */
  ghost predicate AllReach(s: Mem, r: nat, m: Vma, program: Program) {
    forall x :: x in Writes(m, program.file, program.sections) ==>
      PageNumber(x.addr) in PagesOf(m) || Reachable(s, r, x.addr)
  }

  /** What each action does to the kernel: the relations that the methods of Processes, Faults,
      PageFaults and Teardown establish, a store the hardware performs, SYS_brk moving the end of a descriptor,
      and the bytes that a system call or the keyboard handler stores in a process's mapped pages. A fault is one
      that the handler completes; a kernel store that meets a fault is two, with the fault between them. */
  ghost predicate Step(w: World, w': World, a: Action) {
    match a
    case AStart(r, areas) =>
      && 2 <= |w.s.free| && r == w.s.free[|w.s.free| - 1] && Sized(w.s) && w'.s == RootS(w.s)
      && VmasOk(areas) && w'.vmas == w.vmas[r := areas]
    case AFork(p, c) =>
      p in w.vmas && ForkStep(w.s, w'.s, p, c, w.vmas[p]) && w'.vmas == w.vmas[c := w.vmas[p]]
    case AStore(r, v, i, word) =>
      && r in w.vmas && v < USER_PAGES && i < 512 && Pte(w.s.mem, r, v).present && Pte(w.s.mem, r, v).rw
      && Pte(w.s.mem, r, v).frame < |w.s.mem|
      && w'.s == StoreS(w.s, Pte(w.s.mem, r, v).frame, i, word) && w'.vmas == w.vmas
    case AWriteFault(r, v) =>
      r in w.vmas && v < USER_PAGES && Pte(w.s.mem, r, v).present && CowStep(w.s, w'.s, r, v) && w'.vmas == w.vmas
    case AFault(r, k, program) =>
      && r in w.vmas && k < |w.vmas[r]| && AllReach(w.s, r, w.vmas[r][k], program)
      && AreaLoaded(w.s, w'.s, r, w.vmas[r][k], program) && w'.vmas == w.vmas
    case AKernelStore(r, bytes) =>
      && r in w.vmas && (forall x :: x in bytes ==> Reachable(w.s, r, x.addr))
      && w'.s == StoreAllS(w.s, r, bytes) && w'.vmas == w.vmas
    case AGrow(r, k, end) =>
      && r in w.vmas && k < |w.vmas[r]| && w.vmas[r][k].end <= end && w'.s == w.s
      && var vmas := w.vmas[r][k := w.vmas[r][k].(end := end)];
      VmasOk(vmas) && w'.vmas == w.vmas[r := vmas]
    case AExit(r) =>
      r in w.vmas && Deleted(w.s, w'.s, r) && w'.vmas == w.vmas - {r}
  }

  /** The boundary of the source: copy_on_write_handler copies only for exactly two sharers. */
  ghost predicate AtMostTwoSharers(w: World, a: Action) {
    a.AWriteFault? && Pte(w.s.mem, a.r, a.v).cow && Pte(w.s.mem, a.r, a.v).frame < |w.s.refs| ==>
      w.s.refs[Pte(w.s.mem, a.r, a.v).frame] <= 2
  }

  /** The boundary of copyELF and of the system calls that store in the caller's memory: they go through entries
      that may be shared, so each frame that is mapped already at their targets must be mapped nowhere else. */
  ghost predicate StoresAlone(w: World, a: Action) {
    && (a.AFault? && a.r in w.vmas && a.k < |w.vmas[a.r]| ==>
          TargetsAlone(w.s, a.r, Writes(w.vmas[a.r][a.k], a.program.file, a.program.sections)))
    && (a.AKernelStore? ==> TargetsAlone(w.s, a.r, a.bytes))
  }

  ghost predicate TargetsAlone(s: Mem, r: nat, ws: seq<Write>) {
    forall j :: 0 <= j < |ws| ==> TargetAlone(s, r, PageNumber(ws[j].addr))
  }

  ghost predicate TargetAlone(s: Mem, r: nat, v: nat) {
    v < USER_PAGES && Pte(s.mem, r, v).present ==>
      Pte(s.mem, r, v).frame < |s.refs| && s.refs[Pte(s.mem, r, v).frame] == 1
  }

  function Stored(view: map<nat, Page>, v: nat, i: nat, word: Word): map<nat, Page>
    requires v in view && i < 512
  {
    var page: Page := view[v][i := word];
    view[v := page]
  }

  function ZeroFilled(view: map<nat, Page>, pages: set<nat>): map<nat, Page> {
    view + map v: nat | v in pages && v !in view :: Zeros()
  }

  /** The same action in a system where fork copies every page and nothing is shared. */
  function Ideal(m: Views, a: Action, vmas: map<nat, seq<Vma>>): Views {
    match a
    case AStart(r, _) => m[r := map[]]
    case AFork(p, c) => if p in m then m[c := m[p]] else m
    case AStore(r, v, i, word) =>
      if r in m && v in m[r] && i < 512 then m[r := Stored(m[r], v, i, word)] else m
    case AWriteFault(_, _) => m
    case AFault(r, k, program) =>
      if r in m && r in vmas && k < |vmas[r]| then
        var area := vmas[r][k];
        m[r := Loaded(ZeroFilled(m[r], PagesOf(area)), Writes(area, program.file, program.sections))]
      else m
    case AKernelStore(r, bytes) => if r in m then m[r := Loaded(m[r], bytes)] else m
    case AGrow(_, _, _) => m
    case AExit(r) => m - {r}
  }

  // ---------- each step ----------

  lemma RolesQuiet(s: Mem, s': Mem)
    requires Inv(s) && Inv(s') && Quiet(s) && TablesStay(s, s')
    ensures Quiet(s')
  {
    forall g | 0 <= g < |s'.role| && s'.role[g].Table? && s'.role[g].parent < |s'.role|
      ensures !s'.role[s'.role[g].parent].Dying?
    {
      if s'.role[g] == s.role[g] { UpLevels(s, g); }
    }
  }

  lemma ViewSame(s: Mem, s': Mem, q: nat)
    requires Inv(s) && IsRoot(s, q) && |s'.mem| == |s.mem|
    requires forall u: nat :: u < USER_PAGES ==> Pte(s'.mem, q, u) == Pte(s.mem, q, u)
    requires forall u: nat :: u < USER_PAGES && Pte(s.mem, q, u).present && Pte(s.mem, q, u).frame < |s.mem| ==>
      s'.mem[Pte(s.mem, q, u).frame] == s.mem[Pte(s.mem, q, u).frame]
    ensures View(s', q) == View(s, q)
  {
  }

  lemma ForkPrivate(s: Mem, s': Mem, p: nat, c: nat, vmas: seq<Vma>)
    requires Inv(s) && Private(s) && ForkStep(s, s', p, c, vmas) && Disciplined(s, p, vmas)
    ensures Private(s')
  {
    forall q: nat, v: nat, q2: nat, u: nat | IsWritable(s', q, v) && MapsPage(s', q2, u, Pte(s'.mem, q, v).frame)
      ensures q2 == q && u == v
    {
      var f := Pte(s'.mem, q, v).frame;
      assert q != c;
      assert q != p;
      assert Pte(s'.mem, q, v) == Pte(s.mem, q, v) && IsWritable(s, q, v);
      assert MapsPage(s, if q2 == c then p else q2, u, f);
    }
  }

  lemma ForkOnce(s: Mem, s': Mem, p: nat, c: nat, vmas: seq<Vma>)
    requires Inv(s) && Once(s) && ForkStep(s, s', p, c, vmas)
    ensures Once(s')
  {
    hide Inv, Pte, SameContents, TablesStay;
    forall q: nat, v: nat, u: nat, f: nat | MapsPage(s', q, v, f) && MapsPage(s', q, u, f) ensures u == v {
      var q0 := if q == c then p else q;
      assert MapsPage(s, q0, v, f) && MapsPage(s, q0, u, f);
    }
  }

  lemma ForkDisciplined(s: Mem, s': Mem, p: nat, c: nat, vmas: seq<Vma>)
    requires Inv(s) && ForkStep(s, s', p, c, vmas) && Disciplined(s, p, vmas)
    ensures Disciplined(s', p, vmas) && Disciplined(s', c, vmas)
  {
    WritableSubset(vmas);
    forall u: nat | u < USER_PAGES
      ensures Pte(s'.mem, p, u) == if u in WritablePages(vmas) then CowMark(Pte(s.mem, p, u)) else Pte(s.mem, p, u)
    {}
  }

  lemma OtherDisciplined(s: Mem, s': Mem, q: nat, vmas: seq<Vma>)
    requires Disciplined(s, q, vmas) && forall u: nat :: u < USER_PAGES ==> Pte(s'.mem, q, u) == Pte(s.mem, q, u)
    ensures Disciplined(s', q, vmas)
  {
  }

  lemma ForkViews(s: Mem, s': Mem, p: nat, c: nat, vmas: seq<Vma>)
    requires Inv(s) && ForkStep(s, s', p, c, vmas) && Disciplined(s, p, vmas)
    ensures View(s', c) == View(s, p)
    ensures forall q: nat :: IsRoot(s, q) ==> View(s', q) == View(s, q)
  {
    forall q: nat | IsRoot(s, q) || q == c ensures View(s', q) == View(s, if q == c then p else q) {
      ForkView(s, s', p, c, vmas, q);
    }
  }

  lemma ForkView(s: Mem, s': Mem, p: nat, c: nat, vmas: seq<Vma>, q: nat)
    requires Inv(s) && ForkStep(s, s', p, c, vmas) && Disciplined(s, p, vmas) && (IsRoot(s, q) || q == c)
    ensures View(s', q) == View(s, if q == c then p else q)
  {
    hide Inv, ForkStep, Disciplined, View, IsRoot;
    var a, b := View(s', q), View(s, if q == c then p else q);
    forall u: nat ensures u in a <==> u in b
      ensures u in a ==> a[u] == b[u]
    {
      ForkPage(s, s', p, c, vmas, q, u);
    }
    assert a == b;
  }

  lemma ForkPage(s: Mem, s': Mem, p: nat, c: nat, vmas: seq<Vma>, q: nat, u: nat)
    requires Inv(s) && ForkStep(s, s', p, c, vmas) && Disciplined(s, p, vmas) && (IsRoot(s, q) || q == c)
    ensures var a, b := View(s', q), View(s, if q == c then p else q); (u in a <==> u in b) && (u in a ==> a[u] == b[u])
  {
    var q0 := if q == c then p else q;
    if u < USER_PAGES {
      PathFacts(s, q0, u);
    }
    hide Inv, Pte, View, VmasOk, TablesStay;
    ViewAt(s', q, u);
    ViewAt(s, q0, u);
  }

  lemma ForkRefines(w: World, w': World, a: Action)
    requires WorldOk(w) && a.AFork? && Step(w, w', a)
    ensures WorldOk(w') && ViewsOf(w') == Ideal(ViewsOf(w), a, w.vmas)
  {
    hide Inv, Quiet, Private, Once, Disciplined, View, Pte;
    var p, c := a.parent, a.child;
    RolesQuiet(w.s, w'.s);
    ForkOnce(w.s, w'.s, p, c, w.vmas[p]);
    ForkPrivate(w.s, w'.s, p, c, w.vmas[p]);
    ForkDisciplined(w.s, w'.s, p, c, w.vmas[p]);
    ForkViews(w.s, w'.s, p, c, w.vmas[p]);
    forall q: nat | q in w'.vmas ensures Disciplined(w'.s, q, w'.vmas[q]) {
      if q != p && q != c {
        OtherDisciplined(w.s, w'.s, q, w.vmas[q]);
      }
    }
  }

  // ---------- a process from nothing ----------

  /** Before the first process: a kernel whose frames are all free or its own. */
  lemma BootOk(s: Mem)
    requires Inv(s) && forall f :: 0 <= f < |s.role| ==> s.role[f] == Unused || s.role[f] == Reserved
    ensures WorldOk(World(s, map[]))
  {
    assert forall r: nat :: !IsRoot(s, r);
  }

  lemma StartStays(s: Mem)
    requires Inv(s) && Quiet(s) && 0 < |s.free|
    ensures Inv(RootS(s)) && Quiet(RootS(s))
  {
    RootKeeps(s);
    var s' := RootS(s);
    forall g | 0 <= g < |s'.role| && s'.role[g].Table? && s'.role[g].parent < |s'.role|
      ensures !s'.role[s'.role[g].parent].Dying?
    {
      assert s'.role[g] == s.role[g];
    }
  }

  lemma StartPrivate(s: Mem, r: nat)
    requires Inv(s) && Private(s) && 0 < |s.free| && r == s.free[|s.free| - 1]
    ensures Private(RootS(s))
  {
    RootKeeps(s);
    hide Inv, Pte, RootS, SameContents;
    var s' := RootS(s);
    forall q: nat, v: nat, p: nat, u: nat | IsWritable(s', q, v) && MapsPage(s', p, u, Pte(s'.mem, q, v).frame)
      ensures p == q && u == v
    {
      assert q != r && p != r;
      assert IsWritable(s, q, v) && MapsPage(s, p, u, Pte(s.mem, q, v).frame);
    }
  }

  lemma StartOnce(s: Mem, r: nat)
    requires Inv(s) && Once(s) && 0 < |s.free| && r == s.free[|s.free| - 1]
    ensures Once(RootS(s))
  {
    RootKeeps(s);
    hide Inv, Pte, RootS, SameContents;
    var s' := RootS(s);
    forall q: nat, v: nat, u: nat, f: nat | MapsPage(s', q, v, f) && MapsPage(s', q, u, f) ensures u == v {
      assert MapsPage(s, q, v, f) && MapsPage(s, q, u, f);
    }
  }

  lemma StartViews(s: Mem, r: nat)
    requires Inv(s) && 0 < |s.free| && r == s.free[|s.free| - 1]
    ensures forall q: nat :: IsRoot(s, q) ==> View(RootS(s), q) == View(s, q)
    ensures View(RootS(s), r) == map[]
  {
    RootKeeps(s);
    forall q: nat | IsRoot(s, q) ensures View(RootS(s), q) == View(s, q) {
      forall u: nat | u < USER_PAGES && Pte(s.mem, q, u).present
        ensures Pte(s.mem, q, u).frame < |s.mem| &&
          RootS(s).mem[Pte(s.mem, q, u).frame] == s.mem[Pte(s.mem, q, u).frame]
      {
        PathFacts(s, q, u);
      }
      ViewSame(s, RootS(s), q);
    }
  }

  lemma StartDisciplined(s: Mem, r: nat, areas: seq<Vma>)
    requires Inv(s) && VmasOk(areas) && 0 < |s.free| && r == s.free[|s.free| - 1]
    ensures Disciplined(RootS(s), r, areas)
  {
    RootKeeps(s);
  }

  lemma StartRefines(w: World, w': World, a: Action)
    requires WorldOk(w) && a.AStart? && Step(w, w', a)
    ensures WorldOk(w') && ViewsOf(w') == Ideal(ViewsOf(w), a, w.vmas)
  {
    hide Inv, Quiet, Private, Once, Disciplined, View, Pte, RootS, VmasOk;
    RootKeeps(w.s);
    StartStays(w.s);
    StartPrivate(w.s, a.r);
    StartOnce(w.s, a.r);
    StartViews(w.s, a.r);
    StartDisciplined(w.s, a.r, a.areas);
    forall q: nat | q in w'.vmas ensures Disciplined(w'.s, q, w'.vmas[q]) {
      if q != a.r {
        OtherDisciplined(w.s, w'.s, q, w.vmas[q]);
      }
    }
  }

  // ---------- stores ----------

  lemma StoreMappings(s: Mem, r: nat, v: nat, i: nat, word: Word)
    requires Inv(s) && IsRoot(s, r) && v < USER_PAGES && Pte(s.mem, r, v).present && i < 512
    ensures Pte(s.mem, r, v).frame < |s.mem|
    ensures var s' := StoreS(s, Pte(s.mem, r, v).frame, i, word);
      Inv(s') && s'.role == s.role && SameRoots(s, s') && SameMappings(s, s')
  {
    PathFacts(s, r, v);
    var f := Pte(s.mem, r, v).frame;
    DataContents(s, f, s.mem[f][i := word]);
  }

  /** A present entry of process r. */
  ghost predicate IsMapped(s: Mem, r: nat, v: nat) {
    IsRoot(s, r) && v < USER_PAGES && Pte(s.mem, r, v).present && Pte(s.mem, r, v).frame < |s.mem|
  }

  /** No other page of this process, or of another one, is in the frame. */
  ghost predicate OwnAlone(s: Mem, r: nat, v: nat) {
    forall u: nat :: MapsPage(s, r, u, Pte(s.mem, r, v).frame) ==> u == v
  }

  ghost predicate OthersAlone(s: Mem, r: nat, v: nat) {
    forall q: nat, u: nat :: MapsPage(s, q, u, Pte(s.mem, r, v).frame) ==> q == r
  }

  lemma WritableAlone(s: Mem, r: nat, v: nat)
    requires Private(s) && IsWritable(s, r, v)
    ensures OwnAlone(s, r, v) && OthersAlone(s, r, v)
  {
  }

  lemma OnceAlone(s: Mem, r: nat, v: nat)
    requires Once(s) && IsMapped(s, r, v)
    ensures OwnAlone(s, r, v)
  {
    assert MapsPage(s, r, v, Pte(s.mem, r, v).frame);
  }

  lemma StoreOtherView(s: Mem, s': Mem, r: nat, v: nat, i: nat, word: Word, q: nat)
    requires IsMapped(s, r, v) && OthersAlone(s, r, v) && i < 512
    requires s' == StoreS(s, Pte(s.mem, r, v).frame, i, word) && SameMappings(s, s') && IsRoot(s, q) && q != r
    ensures View(s', q) == View(s, q)
  {
    hide Pte, View, SameMappings, OthersAlone;
    var a, b := View(s', q), View(s, q);
    forall u: nat ensures u in a <==> u in b
      ensures u in a ==> a[u] == b[u]
    {
      StoreOtherPage(s, s', r, v, i, word, q, u);
    }
    assert a == b;
  }

  lemma StoreOtherPage(s: Mem, s': Mem, r: nat, v: nat, i: nat, word: Word, q: nat, u: nat)
    requires IsMapped(s, r, v) && OthersAlone(s, r, v) && i < 512
    requires s' == StoreS(s, Pte(s.mem, r, v).frame, i, word) && SameMappings(s, s') && IsRoot(s, q) && q != r
    ensures u in View(s', q) <==> u in View(s, q)
    ensures u in View(s, q) ==> View(s', q)[u] == View(s, q)[u]
  {
    hide Pte, View;
    ViewAt(s, q, u);
    ViewAt(s', q, u);
    if u in View(s, q) {
      assert Pte(s.mem, q, u).frame == Pte(s.mem, r, v).frame ==> MapsPage(s, q, u, Pte(s.mem, r, v).frame);
    }
    assert u < USER_PAGES ==> Pte(s'.mem, q, u) == Pte(s.mem, q, u);
  }

  lemma StoreOwnView(s: Mem, s': Mem, r: nat, v: nat, i: nat, word: Word)
    requires IsMapped(s, r, v) && OwnAlone(s, r, v) && i < 512
    requires s' == StoreS(s, Pte(s.mem, r, v).frame, i, word) && SameMappings(s, s')
    ensures v in View(s, r) && View(s', r) == Stored(View(s, r), v, i, word)
  {
    hide OwnAlone, Pte, View, SameMappings;
    ViewAt(s, r, v);
    var a, b := View(s', r), Stored(View(s, r), v, i, word);
    forall u: nat ensures u in a <==> u in b
      ensures u in a ==> a[u] == b[u]
    {
      StorePage(s, s', r, v, i, word, u);
    }
    assert a == b;
  }

  lemma StorePage(s: Mem, s': Mem, r: nat, v: nat, i: nat, word: Word, u: nat)
    requires IsMapped(s, r, v) && OwnAlone(s, r, v) && i < 512
    requires s' == StoreS(s, Pte(s.mem, r, v).frame, i, word) && SameMappings(s, s') && v in View(s, r)
    ensures var a, b := View(s', r), Stored(View(s, r), v, i, word);
      (u in a <==> u in b) && (u in a ==> a[u] == b[u])
  {
    hide Pte, View;
    ViewAt(s, r, v);
    ViewAt(s, r, u);
    ViewAt(s', r, u);
    assert u < USER_PAGES ==> Pte(s'.mem, r, u) == Pte(s.mem, r, u);
    if u != v && u in View(s', r) {
      assert Pte(s.mem, r, u).frame == Pte(s.mem, r, v).frame ==> MapsPage(s, r, u, Pte(s.mem, r, v).frame);
    }
  }

  lemma ViewAt(s: Mem, r: nat, u: nat)
    ensures u in View(s, r) <==> u < USER_PAGES && Pte(s.mem, r, u).present && Pte(s.mem, r, u).frame < |s.mem|
    ensures u in View(s, r) ==> View(s, r)[u] == s.mem[Pte(s.mem, r, u).frame]
  {
  }

  lemma MappingsOk(w: World, s': Mem)
    requires WorldOk(w) && Inv(s') && s'.role == w.s.role && SameRoots(w.s, s') && SameMappings(w.s, s')
    ensures WorldOk(World(s', w.vmas))
  {
    forall r: nat | r in w.vmas ensures Disciplined(s', r, w.vmas[r]) {
      forall u: nat | u < USER_PAGES ensures Pte(s'.mem, r, u) == Pte(w.s.mem, r, u) {}
      OtherDisciplined(w.s, s', r, w.vmas[r]);
    }
    forall q: nat, v: nat, p: nat, u: nat | IsWritable(s', q, v) && MapsPage(s', p, u, Pte(s'.mem, q, v).frame)
      ensures p == q && u == v
    {
      assert IsWritable(w.s, q, v);
      assert MapsPage(w.s, p, u, Pte(w.s.mem, q, v).frame);
    }
    forall q: nat, v: nat, u: nat, f: nat | MapsPage(s', q, v, f) && MapsPage(s', q, u, f) ensures u == v {
      assert MapsPage(w.s, q, v, f) && MapsPage(w.s, q, u, f);
    }
  }

  lemma StoreRefines(w: World, w': World, a: Action)
    requires WorldOk(w) && a.AStore? && Step(w, w', a)
    ensures WorldOk(w') && ViewsOf(w') == Ideal(ViewsOf(w), a, w.vmas)
  {
    hide Inv, Quiet, Private, Once, Disciplined, View, Pte, OwnAlone, OthersAlone;
    assert IsRoot(w.s, a.r);
    assert IsWritable(w.s, a.r, a.v);
    WritableAlone(w.s, a.r, a.v);
    StoreMappings(w.s, a.r, a.v, a.i, a.word);
    MappingsOk(w, w'.s);
    StoreOwnView(w.s, w'.s, a.r, a.v, a.i, a.word);
    forall q: nat | q in w.vmas && q != a.r ensures View(w'.s, q) == View(w.s, q) {
      StoreOtherView(w.s, w'.s, a.r, a.v, a.i, a.word, q);
    }
  }

  // ---------- write faults ----------

  /** Giving one entry `(r, v)` a new word, which is writable and maps its frame alone. */
  lemma UnlockedOk(w: World, s': Mem, r: nat, v: nat, word: Word)
    requires WorldOk(w) && r in w.vmas && v < USER_PAGES && Pte(w.s.mem, r, v).present && Pte(w.s.mem, r, v).cow
    requires Inv(s') && TablesStay(w.s, s') && OneKey(w.s, s', r, v, word)
    requires word.present && word.rw && !word.cow
    requires forall p: nat, u: nat :: (p, u) != (r, v) ==> !MapsPage(w.s, p, u, word.frame)
    ensures WorldOk(World(s', w.vmas))
  {
    RolesQuiet(w.s, s');
    var s := w.s;
    forall q: nat | q in w.vmas ensures Disciplined(s', q, w.vmas[q]) {
      forall u: nat | u < USER_PAGES ensures Pte(s'.mem, q, u) == if q == r && u == v then word else Pte(s.mem, q, u) {}
      if q != r {
        OtherDisciplined(s, s', q, w.vmas[q]);
      }
    }
    forall q: nat, x: nat, p: nat, u: nat | IsWritable(s', q, x) && MapsPage(s', p, u, Pte(s'.mem, q, x).frame)
      ensures p == q && u == x
    {
      if (q, x) == (r, v) {
        assert (p, u) != (r, v) ==> MapsPage(s, p, u, word.frame);
      } else {
        assert IsWritable(s, q, x);
        assert (p, u) != (r, v) ==> MapsPage(s, p, u, Pte(s.mem, q, x).frame);
        assert MapsPage(s, q, x, Pte(s.mem, q, x).frame);
      }
    }
    UnlockedOnce(s, s', r, v, word);
  }

  lemma UnlockedOnce(s: Mem, s': Mem, r: nat, v: nat, word: Word)
    requires Once(s) && OneKey(s, s', r, v, word) && v < USER_PAGES
    requires forall p: nat, u: nat :: (p, u) != (r, v) ==> !MapsPage(s, p, u, word.frame)
    ensures Once(s')
  {
    hide Pte, TablesStay, SameContents;
    forall q: nat, x: nat, u: nat, f: nat | MapsPage(s', q, x, f) && MapsPage(s', q, u, f) ensures u == x {
      if (q, x) != (r, v) {
        assert MapsPage(s, q, x, f);
      }
      if (q, u) != (r, v) {
        assert MapsPage(s, q, u, f);
      }
    }
  }

  lemma CowViews(s: Mem, s': Mem, r: nat, v: nat, word: Word)
    requires Inv(s) && IsRoot(s, r) && v < USER_PAGES && Pte(s.mem, r, v).present
    requires OneKey(s, s', r, v, word) && SameContents(s, s') && word.present
    requires Pte(s.mem, r, v).frame < |s.mem| && word.frame < |s'.mem|
    requires s'.mem[word.frame] == s.mem[Pte(s.mem, r, v).frame]
    ensures forall q: nat :: IsRoot(s, q) ==> View(s', q) == View(s, q)
  {
    forall q: nat | IsRoot(s, q) ensures View(s', q) == View(s, q) {
      forall u: nat ensures u in View(s', q) <==> u in View(s, q)
        ensures u in View(s, q) ==> View(s', q)[u] == View(s, q)[u]
      {
        CowPage(s, s', r, v, word, q, u);
      }
    }
  }

  lemma CowPage(s: Mem, s': Mem, r: nat, v: nat, word: Word, q: nat, u: nat)
    requires Inv(s) && IsRoot(s, r) && v < USER_PAGES && Pte(s.mem, r, v).present && IsRoot(s, q)
    requires OneKey(s, s', r, v, word) && SameContents(s, s') && word.present
    requires Pte(s.mem, r, v).frame < |s.mem| && word.frame < |s'.mem|
    requires s'.mem[word.frame] == s.mem[Pte(s.mem, r, v).frame]
    ensures u in View(s', q) <==> u in View(s, q)
    ensures u in View(s, q) ==> View(s', q)[u] == View(s, q)[u]
  {
    if u < USER_PAGES {
      PathFacts(s, q, u);
    }
    hide Inv, Pte, View;
    ViewAt(s, q, u);
    ViewAt(s', q, u);
  }

  lemma WriteFaultRefines(w: World, w': World, a: Action)
    requires WorldOk(w) && a.AWriteFault? && Step(w, w', a) && AtMostTwoSharers(w, a)
    ensures WorldOk(w') && ViewsOf(w') == Ideal(ViewsOf(w), a, w.vmas)
  {
    hide Inv, Quiet, Private, Once, Disciplined, View, Pte, TablesStay, OneKey, SameContents;
    var s, s', r, v := w.s, w'.s, a.r, a.v;
    assert IsRoot(s, r);
    var word := Pte(s.mem, r, v);
    SoleMapper(s, r, v);
    if word.cow {
      if s.refs[word.frame] == 2 {
        var p: nat :| CowCopied(s, s', r, v, p);
        FreshUnmapped(s, p);
        UnlockedOk(w, s', r, v, LeafWord(p, true, false));
        CowViews(s, s', r, v, LeafWord(p, true, false));
      } else {
        SameRolesStay(s, s');
        UnlockedOk(w, s', r, v, MakeWritable(word));
        DataKept(s, s', r, v);
        CowViews(s, s', r, v, MakeWritable(word));
      }
    }
  }

  lemma FreshUnmapped(s: Mem, p: nat)
    requires Inv(s) && p < |s.role| && s.role[p] == Unused
    ensures forall q: nat, u: nat :: !MapsPage(s, q, u, p)
  {
    forall q: nat, u: nat ensures !MapsPage(s, q, u, p) {
      if IsRoot(s, q) && u < USER_PAGES { PathFacts(s, q, u); }
    }
  }

  lemma SameRolesStay(s: Mem, s': Mem)
    requires Inv(s) && Inv(s') && s'.role == s.role
    ensures TablesStay(s, s')
  {
  }

  lemma DataKept(s: Mem, s': Mem, r: nat, v: nat)
    requires Inv(s) && IsRoot(s, r) && v < USER_PAGES && Pte(s.mem, r, v).present && SameContents(s, s')
    ensures Pte(s.mem, r, v).frame < |s.mem| == |s'.mem|
    ensures s'.mem[Pte(s.mem, r, v).frame] == s.mem[Pte(s.mem, r, v).frame]
  {
    PathFacts(s, r, v);
  }

  // ---------- demand allocation ----------

  /** Which entries allocatePages created. */
  ghost predicate IsFresh(s: Mem, r: nat, pages: set<nat>, q: nat, u: nat) {
    q == r && u in pages && !Pte(s.mem, q, u).present
  }

  lemma FilledAt(s: Mem, s': Mem, r: nat, pages: set<nat>, rw: bool, q: nat, u: nat)
    requires Filled(s, s', r, pages, rw) && IsRoot(s, q) && u < USER_PAGES
    ensures if IsFresh(s, r, pages, q, u) then FreshPage(s, s', Pte(s'.mem, q, u), rw)
            else Pte(s'.mem, q, u) == Pte(s.mem, q, u)
  {
  }

  lemma FilledPrivate(s: Mem, s': Mem, r: nat, pages: set<nat>, rw: bool)
    requires Inv(s) && Inv(s') && Quiet(s') && Private(s) && Filled(s, s', r, pages, rw)
    ensures Private(s')
  {
    forall q: nat, x: nat, p: nat, u: nat | IsWritable(s', q, x) && MapsPage(s', p, u, Pte(s'.mem, q, x).frame)
      ensures p == q && u == x
    {
      FilledAt(s, s', r, pages, rw, q, x);
      FilledAt(s, s', r, pages, rw, p, u);
      if IsFresh(s, r, pages, q, x) {
        SoleMapper(s', q, x);
      } else {
        PathFacts(s, q, x);
        assert IsWritable(s, q, x);
        assert !IsFresh(s, r, pages, p, u);
        assert MapsPage(s, p, u, Pte(s.mem, q, x).frame);
      }
    }
  }

  lemma FilledOnce(s: Mem, s': Mem, r: nat, pages: set<nat>, rw: bool)
    requires Inv(s) && Inv(s') && Quiet(s') && Once(s) && Filled(s, s', r, pages, rw)
    ensures Once(s')
  {
    forall q: nat, x: nat, u: nat, f: nat | MapsPage(s', q, x, f) && MapsPage(s', q, u, f) ensures u == x {
      FilledOnceAt(s, s', r, pages, rw, q, x, u, f);
    }
  }

  lemma FilledOnceAt(s: Mem, s': Mem, r: nat, pages: set<nat>, rw: bool, q: nat, x: nat, u: nat, f: nat)
    requires Inv(s) && Inv(s') && Quiet(s') && Once(s) && Filled(s, s', r, pages, rw)
    requires MapsPage(s', q, x, f) && MapsPage(s', q, u, f)
    ensures u == x
  {
    FilledAt(s, s', r, pages, rw, q, x);
    FilledAt(s, s', r, pages, rw, q, u);
    if IsFresh(s, r, pages, q, x) {
      SoleMapper(s', q, x);
    } else if IsFresh(s, r, pages, q, u) {
      SoleMapper(s', q, u);
    } else {
      assert MapsPage(s, q, x, f) && MapsPage(s, q, u, f);
    }
  }

  lemma FilledDisciplined(s: Mem, s': Mem, r: nat, vmas: seq<Vma>, k: nat)
    requires Disciplined(s, r, vmas) && k < |vmas| && IsRoot(s, r)
    requires Filled(s, s', r, PagesOf(vmas[k]), Writable(vmas[k]))
    ensures Disciplined(s', r, vmas)
  {
    forall u: nat | u < USER_PAGES && Pte(s'.mem, r, u).present
      ensures u in Pages(vmas)
      ensures if u in WritablePages(vmas) then Pte(s'.mem, r, u).rw != Pte(s'.mem, r, u).cow
              else !Pte(s'.mem, r, u).rw && !Pte(s'.mem, r, u).cow
    {
      FilledAt(s, s', r, PagesOf(vmas[k]), Writable(vmas[k]), r, u);
      if IsFresh(s, r, PagesOf(vmas[k]), r, u) {
        PageWritable(vmas, k, u);
      }
    }
  }

  lemma FilledViews(s: Mem, s': Mem, r: nat, m: Vma)
    requires Inv(s) && VmaOk(m) && Filled(s, s', r, PagesOf(m), Writable(m)) && IsRoot(s, r)
    ensures View(s', r) == ZeroFilled(View(s, r), PagesOf(m))
    ensures forall q: nat :: IsRoot(s, q) && q != r ==> View(s', q) == View(s, q)
  {
    forall q: nat | IsRoot(s, q)
      ensures View(s', q) == if q == r then ZeroFilled(View(s, r), PagesOf(m)) else View(s, q)
    {
      FilledView(s, s', r, m, q);
    }
  }

  lemma FilledView(s: Mem, s': Mem, r: nat, m: Vma, q: nat)
    requires Inv(s) && VmaOk(m) && Filled(s, s', r, PagesOf(m), Writable(m)) && IsRoot(s, r) && IsRoot(s, q)
    ensures View(s', q) == if q == r then ZeroFilled(View(s, r), PagesOf(m)) else View(s, q)
  {
    hide Inv, Filled, View, ZeroFilled, PagesOf, VmaOk, IsRoot;
    var a, b := View(s', q), if q == r then ZeroFilled(View(s, r), PagesOf(m)) else View(s, q);
    forall u: nat ensures u in a <==> u in b
      ensures u in a ==> a[u] == b[u]
    {
      FilledPage(s, s', r, m, q, u);
    }
  }

  lemma FilledPage(s: Mem, s': Mem, r: nat, m: Vma, q: nat, u: nat)
    requires Inv(s) && VmaOk(m) && Filled(s, s', r, PagesOf(m), Writable(m)) && IsRoot(s, r) && IsRoot(s, q)
    ensures var a, b := View(s', q), if q == r then ZeroFilled(View(s, r), PagesOf(m)) else View(s, q);
      (u in a <==> u in b) && (u in a ==> a[u] == b[u])
  {
    FilledSize(s, s', r, PagesOf(m), Writable(m));
    hide Inv, Pte, View, Filled, PagesOf;
    ViewAt(s, q, u);
    ViewAt(s', q, u);
    if u < USER_PAGES {
      FilledAt(s, s', r, PagesOf(m), Writable(m), q, u);
      FilledFrame(s, s', r, PagesOf(m), Writable(m), q, u);
    }
  }

  lemma FilledSize(s: Mem, s': Mem, r: nat, pages: set<nat>, rw: bool)
    requires Filled(s, s', r, pages, rw)
    ensures |s'.mem| == |s.mem|
  {
  }

  /** Pages that were mapped keep their contents. */
  lemma FilledFrame(s: Mem, s': Mem, r: nat, pages: set<nat>, rw: bool, q: nat, u: nat)
    requires Inv(s) && Filled(s, s', r, pages, rw) && IsRoot(s, q) && u < USER_PAGES && |s'.mem| == |s.mem|
    ensures Pte(s.mem, q, u).present ==>
      Pte(s.mem, q, u).frame < |s.mem| && s'.mem[Pte(s.mem, q, u).frame] == s.mem[Pte(s.mem, q, u).frame]
  {
    PathFacts(s, q, u);
  }

  /** allocatePages alone. */
  lemma FillRefines(w: World, s1: Mem, r: nat, k: nat)
    requires WorldOk(w) && r in w.vmas && k < |w.vmas[r]| && Inv(s1)
    requires Filled(w.s, s1, r, PagesOf(w.vmas[r][k]), Writable(w.vmas[r][k]))
    ensures WorldOk(World(s1, w.vmas)) && View(s1, r) == ZeroFilled(View(w.s, r), PagesOf(w.vmas[r][k]))
    ensures forall q: nat :: IsRoot(w.s, q) && q != r ==> View(s1, q) == View(w.s, q)
  {
    hide Inv, Quiet, Private, Once, Disciplined, View, Pte, Filled, VmaOk, PagesOf;
    var m := w.vmas[r][k];
    FilledFacts(w.s, s1, r, w.vmas[r], k);
    FilledPrivate(w.s, s1, r, PagesOf(m), Writable(m));
    FilledOnce(w.s, s1, r, PagesOf(m), Writable(m));
    FilledDisciplined(w.s, s1, r, w.vmas[r], k);
    FilledViews(w.s, s1, r, m);
    FilledOthers(w, World(s1, w.vmas), r, m);
  }

  lemma FilledFacts(s: Mem, s': Mem, r: nat, vmas: seq<Vma>, k: nat)
    requires Inv(s) && Inv(s') && Quiet(s) && Disciplined(s, r, vmas) && k < |vmas|
    requires Filled(s, s', r, PagesOf(vmas[k]), Writable(vmas[k]))
    ensures VmaOk(vmas[k]) && Quiet(s') && SameRoots(s, s')
  {
    RolesQuiet(s, s');
  }

  lemma FilledOthers(w: World, w': World, r: nat, m: Vma)
    requires WorldOk(w) && Filled(w.s, w'.s, r, PagesOf(m), Writable(m))
    ensures forall q: nat :: q in w.vmas && q != r ==> Disciplined(w'.s, q, w.vmas[q])
  {
    forall q: nat | q in w.vmas && q != r ensures Disciplined(w'.s, q, w.vmas[q]) {
      OtherDisciplined(w.s, w'.s, q, w.vmas[q]);
    }
  }

  // ---------- the section copy ----------

  /** The states differ in page contents alone. */
  ghost predicate SameTables(s: Mem, s': Mem) {
    && s'.role == s.role && s'.refs == s.refs && s'.free == s.free && |s'.mem| == |s.mem|
    && SameRoots(s, s') && SameMappings(s, s')
  }

  /** One byte stored by the kernel through a present entry: the tables and counts stay, the process reads the
      byte, and when no other process is in the frame nobody else notices. */
  lemma ByteStoreEffect(s: Mem, r: nat, x: Write)
    requires Inv(s) && Quiet(s) && IsRoot(s, r) && IsMapped(s, r, PageNumber(x.addr)) &&
      OwnAlone(s, r, PageNumber(x.addr))
    ensures var s' := StoreByteS(s, r, x);
      Inv(s') && SameTables(s, s') && View(s', r) == ByteStored(View(s, r), x)
    ensures OthersAlone(s, r, PageNumber(x.addr)) ==>
      forall q: nat :: IsRoot(s, q) && q != r ==> View(StoreByteS(s, r, x), q) == View(s, q)
  {
    hide Inv, Quiet, Pte, View, OwnAlone, OthersAlone, PageNumber, SameMappings, SameRoots;
    var v, o := PageNumber(x.addr), x.addr % PAGE_SIZE;
    var f := Pte(s.mem, r, v).frame;
    var word := WithByte(s.mem[f][o / 8], o % 8, x.value);
    var s' := StoreByteS(s, r, x);
    StoreMappings(s, r, v, o / 8, word);
    StoreOwnView(s, s', r, v, o / 8, word);
    ViewAt(s, r, v);
    assert Stored(View(s, r), v, o / 8, word) == ByteStored(View(s, r), x);
    if OthersAlone(s, r, v) {
      forall q: nat | IsRoot(s, q) && q != r ensures View(s', q) == View(s, q) {
        StoreOtherView(s, s', r, v, o / 8, word, q);
      }
    }
  }

  /** Every store goes to a mapped page. */
  ghost predicate TargetsMapped(s: Mem, r: nat, ws: seq<Write>) {
    forall j :: 0 <= j < |ws| ==> IsMapped(s, r, PageNumber(ws[j].addr))
  }

  ghost predicate TargetsUnshared(s: Mem, r: nat, ws: seq<Write>) {
    forall j :: 0 <= j < |ws| ==> OthersAlone(s, r, PageNumber(ws[j].addr))
  }

  /** What a state that differs in page contents alone keeps. */
  lemma MappingsKeep(s: Mem, s': Mem, r: nat, v: nat)
    requires SameTables(s, s')
    ensures IsMapped(s, r, v) ==> IsMapped(s', r, v)
    ensures IsMapped(s, r, v) && OwnAlone(s, r, v) ==> OwnAlone(s', r, v)
    ensures IsMapped(s, r, v) && OthersAlone(s, r, v) ==> OthersAlone(s', r, v)
  {
    hide Pte;
    if IsMapped(s, r, v) {
      assert Pte(s'.mem, r, v) == Pte(s.mem, r, v);
      forall q: nat, u: nat | MapsPage(s', q, u, Pte(s'.mem, r, v).frame) ensures MapsPage(s, q, u, Pte(s.mem, r,
        v).frame) {}
    }
  }

  /** The copy: the process reads the stored bytes; the others read what they did when no target is shared. */
  lemma {:induction false} CopyEffects(s: Mem, r: nat, ws: seq<Write>)
    requires Inv(s) && Quiet(s) && Once(s) && IsRoot(s, r) && TargetsMapped(s, r, ws)
    ensures var s' := StoreAllS(s, r, ws);
      Inv(s') && SameTables(s, s') && View(s', r) == Loaded(View(s, r), ws)
    ensures TargetsUnshared(s, r, ws) ==>
      forall q: nat :: IsRoot(s, q) && q != r ==> View(StoreAllS(s, r, ws), q) == View(s, q)
  {
    if ws != [] {
      var n := |ws| - 1;
      CopyEffects(s, r, ws[..n]);
      hide Inv, Quiet, Once, View, IsMapped, SameTables, StoreByteS, ByteStored, OthersAlone;
      var s1 := StoreAllS(s, r, ws[..n]);
      assert TargetsUnshared(s, r, ws) ==> TargetsUnshared(s, r, ws[..n]) && OthersAlone(s, r, PageNumber(ws[n].addr));
      OneMoreByte(s, s1, r, ws[n]);
    } else {
      hide Inv, Pte;
    }
  }

  lemma OneMoreByte(s: Mem, s1: Mem, r: nat, x: Write)
    requires Quiet(s) && Once(s) && IsRoot(s, r) && IsMapped(s, r, PageNumber(x.addr))
    requires Inv(s1) && SameTables(s, s1)
    ensures var s2 := StoreByteS(s1, r, x);
      Inv(s2) && SameTables(s, s2) && View(s2, r) == ByteStored(View(s1, r), x)
    ensures OthersAlone(s, r, PageNumber(x.addr)) ==>
      forall q: nat :: IsRoot(s, q) && q != r ==> View(StoreByteS(s1, r, x), q) == View(s1, q)
  {
    OnceAlone(s, r, PageNumber(x.addr));
    MappingsKeep(s, s1, r, PageNumber(x.addr));
    SameRoleQuiet(s, s1);
    hide Inv, Quiet, Once, Pte, View, OwnAlone, OthersAlone, PageNumber, IsMapped, SameMappings, StoreByteS, ByteStored;
    ByteStoreEffect(s1, r, x);
    TablesJoin(s, s1, StoreByteS(s1, r, x));
  }

  lemma SameRoleQuiet(s: Mem, s': Mem)
    requires Quiet(s) && Inv(s') && s'.role == s.role
    ensures Quiet(s')
  {
  }

  lemma TablesJoin(s: Mem, s1: Mem, s2: Mem)
    requires SameTables(s, s1) && SameTables(s1, s2)
    ensures SameTables(s, s2)
  {
    hide Pte;
  }

  lemma ReachMapped(s: Mem, r: nat, a: nat)
    requires Inv(s) && IsRoot(s, r) && Reachable(s, r, a)
    ensures IsMapped(s, r, PageNumber(a))
  {
    PathFacts(s, r, PageNumber(a));
  }

  lemma AllMapped(s: Mem, r: nat, ws: seq<Write>)
    requires Inv(s) && IsRoot(s, r) && forall x :: x in ws ==> Reachable(s, r, x.addr)
    ensures TargetsMapped(s, r, ws)
  {
    hide Inv, Reachable, IsMapped, PageNumber;
    forall j | 0 <= j < |ws| ensures IsMapped(s, r, PageNumber(ws[j].addr)) {
      assert ws[j] in ws;
      ReachMapped(s, r, ws[j].addr);
    }
  }

  /** A frame counted once is in no other process. */
  lemma AloneUnshared(s: Mem, r: nat, ws: seq<Write>)
    requires Inv(s) && Quiet(s) && TargetsMapped(s, r, ws) && TargetsAlone(s, r, ws)
    ensures TargetsUnshared(s, r, ws)
  {
    hide Inv, Quiet, Pte, OthersAlone, PageNumber, IsMapped, TargetAlone;
    forall j | 0 <= j < |ws| ensures OthersAlone(s, r, PageNumber(ws[j].addr)) {
      assert TargetAlone(s, r, PageNumber(ws[j].addr));
      CountedOnce(s, r, PageNumber(ws[j].addr));
    }
  }

  lemma CountedOnce(s: Mem, r: nat, v: nat)
    requires Inv(s) && Quiet(s) && IsMapped(s, r, v) && TargetAlone(s, r, v)
    ensures OthersAlone(s, r, v)
  {
    hide Inv, Quiet, Pte;
    SoleMapper(s, r, v);
  }

  /** allocatePages maps the area's pages, once each, and changes no count of the pages that were mapped. */
  lemma FilledTarget(s: Mem, s1: Mem, r: nat, m: Vma, v: nat)
    requires Inv(s) && Inv(s1) && VmaOk(m) && IsRoot(s, r) && IsRoot(s1, r)
    requires Filled(s, s1, r, PagesOf(m), Writable(m))
    requires v in PagesOf(m) || (v < USER_PAGES && Pte(s.mem, r, v).present)
    ensures IsMapped(s1, r, v) && (TargetAlone(s1, r, v) <==> TargetAlone(s, r, v))
  {
    FilledAt(s, s1, r, PagesOf(m), Writable(m), r, v);
    PathFacts(s, r, v);
    PathFacts(s1, r, v);
    hide Pte;
  }

  lemma FilledTargets(s: Mem, s1: Mem, r: nat, m: Vma, program: Program)
    requires Inv(s) && Inv(s1) && VmaOk(m) && IsRoot(s, r) && IsRoot(s1, r)
    requires Filled(s, s1, r, PagesOf(m), Writable(m)) && AllReach(s, r, m, program)
    ensures var ws := Writes(m, program.file, program.sections);
      TargetsMapped(s1, r, ws) && (TargetsAlone(s1, r, ws) <==> TargetsAlone(s, r, ws))
  {
    hide Inv, Filled, PagesOf, VmaOk, TargetAlone, PageNumber, Pte, IsMapped, Writes;
    var ws := Writes(m, program.file, program.sections);
    forall j | 0 <= j < |ws| ensures IsMapped(s1, r, PageNumber(ws[j].addr))
      ensures TargetAlone(s1, r, PageNumber(ws[j].addr)) <==> TargetAlone(s, r, PageNumber(ws[j].addr))
    {
      assert ws[j] in ws;
      FilledTarget(s, s1, r, m, PageNumber(ws[j].addr));
    }
  }

  lemma FaultRefines(w: World, w': World, a: Action)
    requires WorldOk(w) && a.AFault? && Step(w, w', a) && StoresAlone(w, a)
    ensures WorldOk(w') && ViewsOf(w') == Ideal(ViewsOf(w), a, w.vmas)
  {
    hide Inv, Quiet, Private, Once, Disciplined, View, Pte, Filled, VmaOk, PagesOf, StoreAllS, Loaded, Writes,
      TargetsAlone, TargetsMapped, TargetsUnshared, AllReach;
    var r, m := a.r, w.vmas[a.r][a.k];
    var s1: Mem :| LoadedVia(w.s, s1, w'.s, r, m, a.program);
    var ws := Writes(m, a.program.file, a.program.sections);
    FillRefines(w, s1, r, a.k);
    FilledFacts(w.s, s1, r, w.vmas[r], a.k);
    FilledTargets(w.s, s1, r, m, a.program);
    AloneUnshared(s1, r, ws);
    CopyEffects(s1, r, ws);
    MappingsOk(World(s1, w.vmas), w'.s);
  }

  /** Bytes the kernel stores in a process's memory, when the frames are the process's own. */
  lemma KernelStoreRefines(w: World, w': World, a: Action)
    requires WorldOk(w) && a.AKernelStore? && Step(w, w', a) && StoresAlone(w, a)
    ensures WorldOk(w') && ViewsOf(w') == Ideal(ViewsOf(w), a, w.vmas)
  {
    hide Inv, Quiet, Private, Once, Disciplined, View, Pte, StoreAllS, Loaded, TargetsAlone, TargetsMapped,
      TargetsUnshared, Reachable;
    assert IsRoot(w.s, a.r);
    AllMapped(w.s, a.r, a.bytes);
    AloneUnshared(w.s, a.r, a.bytes);
    CopyEffects(w.s, a.r, a.bytes);
    MappingsOk(w, w'.s);
  }

  // ---------- heap growth and exit ----------

  lemma {:induction false} GrownPages(vmas: seq<Vma>, vmas': seq<Vma>, k: nat, u: nat)
    requires VmasOk(vmas) && VmasOk(vmas') && k < |vmas| == |vmas'| && u in Pages(vmas)
    requires vmas' == vmas[k := vmas[k].(end := vmas'[k].end)] && vmas[k].end <= vmas'[k].end
    ensures u in Pages(vmas') && (u in WritablePages(vmas') <==> u in WritablePages(vmas))
  {
    var j := VmaOf(vmas, u);
    assert u in PagesOf(vmas'[j]) by { if j == k { EndMonotonic(vmas[k], vmas'[k]); } }
    PageWritable(vmas, j, u);
    PageWritable(vmas', j, u);
  }

  lemma EndMonotonic(m: Vma, m': Vma)
    requires m'.start == m.start && m.end <= m'.end
    ensures PagesOf(m) <= PagesOf(m')
  {
    assert AlignUp(m.end) <= AlignUp(m'.end);
    assert NumPages(m) <= NumPages(m');
  }

  lemma {:induction false} VmaOf(vmas: seq<Vma>, u: nat) returns (j: nat)
    requires u in Pages(vmas)
    ensures j < |vmas| && u in PagesOf(vmas[j])
  {
    if u in PagesOf(vmas[|vmas| - 1]) {
      j := |vmas| - 1;
    } else {
      j := VmaOf(vmas[..|vmas| - 1], u);
    }
  }

  lemma GrowDisciplined(s: Mem, r: nat, vmas: seq<Vma>, vmas': seq<Vma>, k: nat)
    requires Disciplined(s, r, vmas) && VmasOk(vmas') && k < |vmas| == |vmas'|
    requires vmas' == vmas[k := vmas[k].(end := vmas'[k].end)] && vmas[k].end <= vmas'[k].end
    ensures Disciplined(s, r, vmas')
  {
    forall u: nat | u < USER_PAGES && Pte(s.mem, r, u).present
      ensures u in Pages(vmas') && (u in WritablePages(vmas') <==> u in WritablePages(vmas))
    {
      GrownPages(vmas, vmas', k, u);
    }
    hide Pte, Pages, WritablePages;
  }

  lemma GrowRefines(w: World, w': World, a: Action)
    requires WorldOk(w) && a.AGrow? && Step(w, w', a)
    ensures WorldOk(w') && ViewsOf(w') == Ideal(ViewsOf(w), a, w.vmas)
  {
    hide Inv, Quiet, Private, Once, Disciplined, View, Pte, VmasOk;
    GrowDisciplined(w.s, a.r, w.vmas[a.r], w'.vmas[a.r], a.k);
  }

  lemma ExitRefines(w: World, w': World, a: Action)
    requires WorldOk(w) && a.AExit? && Step(w, w', a)
    ensures WorldOk(w') && ViewsOf(w') == Ideal(ViewsOf(w), a, w.vmas)
  {
    hide Inv, Quiet, Private, Once, Disciplined, View, Pte, Deleted;
    var s, s', r := w.s, w'.s, a.r;
    ExitOnce(s, s', r);
    DeletedQuiet(s, s', r);
    ExitPrivate(s, s', r);
    forall q: nat | q in w'.vmas ensures Disciplined(s', q, w'.vmas[q]) && View(s', q) == View(s, q) {
      ExitDisciplined(s, s', r, q, w.vmas[q]);
      ExitView(s, s', r, q);
    }
    ExitRoots(s, s', r);
  }

  lemma ExitRoots(s: Mem, s': Mem, r: nat)
    requires Deleted(s, s', r)
    ensures Inv(s') && forall q: nat :: IsRoot(s', q) <==> IsRoot(s, q) && q != r
  {
  }

  lemma ExitDisciplined(s: Mem, s': Mem, r: nat, q: nat, vmas: seq<Vma>)
    requires Deleted(s, s', r) && IsRoot(s, q) && q != r && Disciplined(s, q, vmas)
    ensures Disciplined(s', q, vmas)
  {
    OtherDisciplined(s, s', q, vmas);
  }

  lemma ExitPrivate(s: Mem, s': Mem, r: nat)
    requires Deleted(s, s', r) && Private(s)
    ensures Private(s')
  {
    forall q: nat, x: nat, p: nat, u: nat | IsWritable(s', q, x) && MapsPage(s', p, u, Pte(s'.mem, q, x).frame)
      ensures p == q && u == x
    {
      assert IsWritable(s, q, x) && MapsPage(s, p, u, Pte(s.mem, q, x).frame);
    }
  }

  lemma ExitOnce(s: Mem, s': Mem, r: nat)
    requires Deleted(s, s', r) && Once(s)
    ensures Once(s')
  {
    hide Pte, Inv;
    forall q: nat, v: nat, u: nat, f: nat | MapsPage(s', q, v, f) && MapsPage(s', q, u, f) ensures u == v {
      assert q != r;
      assert MapsPage(s, q, v, f) && MapsPage(s, q, u, f);
    }
  }

  lemma ExitView(s: Mem, s': Mem, r: nat, q: nat)
    requires Deleted(s, s', r) && IsRoot(s, q) && q != r
    ensures View(s', q) == View(s, q)
  {
    forall u: nat | u < USER_PAGES
      ensures Pte(s'.mem, q, u) == Pte(s.mem, q, u)
      ensures Pte(s.mem, q, u).present && Pte(s.mem, q, u).frame < |s.mem| ==>
        s'.mem[Pte(s.mem, q, u).frame] == s.mem[Pte(s.mem, q, u).frame]
    {
      PathFacts(s, q, u);
      PathFacts(s', q, u);
    }
  }

  // ---------- runs ----------

  /** One step: the invariant is kept, and each process sees what it would if nothing were ever shared. */
  lemma StepRefines(w: World, w': World, a: Action)
    requires WorldOk(w) && Step(w, w', a) && AtMostTwoSharers(w, a) && StoresAlone(w, a)
    ensures WorldOk(w') && ViewsOf(w') == Ideal(ViewsOf(w), a, w.vmas)
  {
    hide WorldOk, Step, Ideal, AtMostTwoSharers, StoresAlone;
    match a
    case AStart(_, _) => StartRefines(w, w', a);
    case AFork(_, _) => ForkRefines(w, w', a);
    case AStore(_, _, _, _) => StoreRefines(w, w', a);
    case AWriteFault(_, _) => WriteFaultRefines(w, w', a);
    case AFault(_, _, _) => FaultRefines(w, w', a);
    case AKernelStore(_, _) => KernelStoreRefines(w, w', a);
    case AGrow(_, _, _) => GrowRefines(w, w', a);
    case AExit(_) => ExitRefines(w, w', a);
  }

  /** The two boundaries of the source. */
  ghost predicate WithinBounds(w: World, a: Action) { AtMostTwoSharers(w, a) && StoresAlone(w, a) }

  /** A run: worlds linked by actions, none a write fault on a frame with three or more sharers and none a
      store of the kernel into a shared frame. */
  ghost predicate IsRun(ws: seq<World>, acts: seq<Action>) {
    && |ws| == |acts| + 1
    && forall k :: 0 <= k < |acts| ==> Step(ws[k], ws[k + 1], acts[k]) && WithinBounds(ws[k], acts[k])
  }

  /** The same run in the system that copies; the descriptors say which pages a fault fills. */
  ghost function IdealRun(m: Views, ws: seq<World>, acts: seq<Action>): Views
    requires |ws| == |acts| + 1
    decreases |acts|
  {
    if acts == [] then m
    else IdealRun(Ideal(m, acts[0], ws[0].vmas), ws[1..], acts[1..])
  }

  /** Copy-on-write refines a copying fork over every run. */
  lemma {:induction false} RunRefines(ws: seq<World>, acts: seq<Action>)
    requires IsRun(ws, acts) && WorldOk(ws[0])
    ensures WorldOk(ws[|acts|]) && ViewsOf(ws[|acts|]) == IdealRun(ViewsOf(ws[0]), ws, acts)
    decreases |acts|
  {
    hide WorldOk, Step, Ideal, AtMostTwoSharers, StoresAlone, ViewsOf;
    if acts != [] {
      StepRefines(ws[0], ws[1], acts[0]);
      assert IsRun(ws[1..], acts[1..]) by {
        forall k | 0 <= k < |acts| - 1
          ensures Step(ws[1..][k], ws[1..][k + 1], acts[1..][k]) && WithinBounds(ws[1..][k], acts[1..][k])
        {
          assert Step(ws[k + 1], ws[k + 1 + 1], acts[k + 1]);
        }
      }
      RunRefines(ws[1..], acts[1..]);
    }
  }
}
