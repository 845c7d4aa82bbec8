/** Physical memory as sys/page.c sees it: frames of 512 words, a reference count per
    frame, the free list, and page-table trees stored inside the frames. */
module Memory {
  import opened Words

  type Page = p: seq<Word> | |p| == 512 witness seq(512, _ => ZERO)

  function Zeros(): Page { seq(512, _ => ZERO) }

  // PML4OFF(KERNBASE), the slot every root shares with the kernel
  const KERNEL_SLOT: nat := 511

  // Page numbers below this one have a PML4 index other than KERNEL_SLOT.
  const USER_PAGES: nat := 511 * 0x800_0000

  // PML4OFF, PDPEOFF, PDEOFF and PTEOFF of a page number (an address shifted right by 12)
  function I4(v: nat): nat { v / 512 / 512 / 512 }
  function I3(v: nat): nat { (v / 512 / 512) % 512 }
  function I2(v: nat): nat { (v / 512) % 512 }
  function I1(v: nat): nat { v % 512 }

  lemma IndicesInjective(v: nat, u: nat)
    requires I4(v) == I4(u) && I3(v) == I3(u) && I2(v) == I2(u) && I1(v) == I1(u)
    ensures v == u
  {
    assert v / 512 / 512 == I4(v) * 512 + I3(v);
    assert u / 512 / 512 == I4(u) * 512 + I3(u);
    assert v / 512 == (v / 512 / 512) * 512 + I2(v);
    assert u / 512 == (u / 512 / 512) * 512 + I2(u);
  }

  /** What a frame is in use for. A table remembers the one entry that points to it;
      a dying table is being torn down and its entries may dangle. */
  datatype Role =
    | Unused
    | Reserved
    | Data
    | Root
    | Table(level: nat, parent: nat, slot: nat)
    | Dying(level: nat)

  function Level(r: Role): nat {
    match r
    case Root => 4
    case Table(l, _, _) => l
    case Dying(l) => l
    case _ => 0
  }

  /** A table whose live entries point to tables one level down. */
  predicate IsDir(r: Role) {
    r.Root? || (r.Table? && 2 <= r.level)
  }

  predicate IsLeafTable(r: Role) {
    r.Table? && r.level == 1
  }

  datatype Mem = Mem(
    mem: seq<Page>,      // frame contents
    role: seq<Role>,     // what each frame is in use for
    refs: seq<int>,      // ref_count
    free: seq<nat>,      // the free list, its head last
    kernel: Word)        // the PML4 entry shared by all processes

  /** The role of the table that entry `i` of a directory `f` points to. */
  function ChildRole(r: Role, f: nat, i: nat): Role {
    Table(if Level(r) == 0 then 0 else Level(r) - 1, f, i)
  }

  ghost predicate Sized(s: Mem) {
    |s.mem| == |s.role| == |s.refs|
  }

  ghost predicate Distinct(q: seq<nat>) {
    forall i, j :: 0 <= i < j < |q| ==> q[i] != q[j]
  }

  ghost predicate FreeOk(s: Mem)
    requires Sized(s)
  {
    && Distinct(s.free)
    && (forall f :: f in s.free ==> f < |s.role| && s.role[f] == Unused)
    && (forall f :: 0 <= f < |s.role| && s.role[f] == Unused ==> f in s.free && s.refs[f] == 0)
  }

  ghost predicate DirEntryOk(s: Mem, f: nat, i: nat)
    requires Sized(s) && f < |s.role| && i < 512
  {
    var w := s.mem[f][i];
    if w.present then w.rw && w.user && w.frame < |s.role| && s.role[w.frame] == ChildRole(s.role[f], f, i)
    else w == ZERO
  }

  ghost predicate DirsOk(s: Mem)
    requires Sized(s)
  {
    forall f, i :: 0 <= f < |s.role| && 0 <= i < 512 && IsDir(s.role[f]) && !(s.role[f].Root? && i == KERNEL_SLOT)
      ==> DirEntryOk(s, f, i)
  }

  ghost predicate RootsOk(s: Mem)
    requires Sized(s)
  {
    forall r :: 0 <= r < |s.role| && s.role[r] == Root ==> s.refs[r] == 0 && s.mem[r][KERNEL_SLOT] == s.kernel
  }

  /** A non-root table is counted once and has one parent entry. */
  ghost predicate ParentOk(s: Mem, g: nat)
    requires Sized(s) && g < |s.role| && s.role[g].Table?
  {
    var Table(l, p, i) := s.role[g];
    && 1 <= l <= 3 && p < |s.role| && i < 512
    && Level(s.role[p]) == l + 1 && !(l == 3 && i == KERNEL_SLOT)
    && s.mem[p][i].present && s.mem[p][i].frame == g
    && s.refs[g] == 1
  }

  ghost predicate ParentsOk(s: Mem)
    requires Sized(s)
  {
    forall g :: 0 <= g < |s.role| && s.role[g].Table? ==> ParentOk(s, g)
  }

  ghost predicate LeafOk(s: Mem, t: nat, i: nat)
    requires Sized(s) && t < |s.role| && i < 512
  {
    var w := s.mem[t][i];
    if w.present then w.user && w.frame < |s.role| && s.role[w.frame] == Data
    else w == ZERO
  }

  ghost predicate LeavesOk(s: Mem)
    requires Sized(s)
  {
    forall t, i :: 0 <= t < |s.role| && 0 <= i < 512 && IsLeafTable(s.role[t]) ==> LeafOk(s, t, i)
  }

  ghost predicate MapsTo(s: Mem, t: nat, i: nat, f: nat)
    requires Sized(s) && t < |s.role| && i < 512
  {
    IsLeafTable(s.role[t]) && s.mem[t][i].present && s.mem[t][i].frame == f
  }

  /** The page-table slots that map frame `f`. */
  ghost function Slots(s: Mem, f: nat): set<(nat, nat)>
    requires Sized(s)
  {
    set t: nat, i: nat | t < |s.role| && i < 512 && MapsTo(s, t, i, f) :: (t, i)
  }

  ghost predicate CountsOk(s: Mem)
    requires Sized(s)
  {
    forall f :: 0 <= f < |s.role| && s.role[f] == Data ==> s.refs[f] == |Slots(s, f)|
  }

  ghost predicate Inv(s: Mem) {
    && Sized(s)
    && FreeOk(s)
    && DirsOk(s)
    && RootsOk(s)
    && ParentsOk(s)
    && LeavesOk(s)
    && CountsOk(s)
  }

  ghost predicate IsRoot(s: Mem, r: nat) {
    r < |s.role| && s.role[r] == Root
  }

  // ---------- lookups that allocate nothing ----------

  /** The frame an entry points to, -1 when there is none. */
  function Down(mem: seq<Page>, f: int, i: nat): int {
    if 0 <= f < |mem| && i < 512 && mem[f][i].present then mem[f][i].frame else -1
  }

  function Pdpt(mem: seq<Page>, root: nat, v: nat): int { Down(mem, root, I4(v)) }
  function Pd(mem: seq<Page>, root: nat, v: nat): int { Down(mem, Pdpt(mem, root, v), I3(v)) }
  function Pt(mem: seq<Page>, root: nat, v: nat): int { Down(mem, Pd(mem, root, v), I2(v)) }

  /** The page-table entry of page number `v`, ZERO when a table is missing on the way. */
  function Pte(mem: seq<Page>, root: nat, v: nat): Word {
    var t := Pt(mem, root, v);
    if 0 <= t < |mem| then mem[t][I1(v)] else ZERO
  }

  /** Every table met on a walk has the role its position says. */
  lemma PathFacts(s: Mem, root: nat, v: nat)
    requires Inv(s) && IsRoot(s, root) && v < USER_PAGES
    ensures I4(v) < KERNEL_SLOT
    ensures IsTable(s, Pdpt(s.mem, root, v), 3, root, I4(v))
    ensures IsTable(s, Pd(s.mem, root, v), 2, Pdpt(s.mem, root, v), I3(v))
    ensures IsTable(s, Pt(s.mem, root, v), 1, Pd(s.mem, root, v), I2(v))
    ensures LeafWordOk(s, Pte(s.mem, root, v))
  {
    assert DirEntryOk(s, root, I4(v));
    var p := Pdpt(s.mem, root, v);
    if p != -1 {
      assert DirEntryOk(s, p, I3(v));
      var q := Pd(s.mem, root, v);
      if q != -1 {
        assert DirEntryOk(s, q, I2(v));
        var t := Pt(s.mem, root, v);
        if t != -1 {
          assert LeafOk(s, t, I1(v));
        }
      }
    }
  }

  /** `p` is no table, or the one that entry `i` of `parent` points to. */
  ghost predicate IsTable(s: Mem, p: int, level: nat, parent: int, i: nat) {
    p == -1 || (0 <= p < |s.role| && 0 <= parent && s.role[p] == Table(level, parent, i))
  }

  ghost predicate LeafWordOk(s: Mem, w: Word) {
    if w.present then w.user && w.frame < |s.role| && s.role[w.frame] == Data else w == ZERO
  }

  /** One level of the processor's walk lets a user access through: section 4.6.1 of the Intel SDM, volume 3A. */
  predicate Lets(mem: seq<Page>, f: nat, i: nat, write: bool) {
    f < |mem| && i < 512 && mem[f][i].present && mem[f][i].user && (write ==> mem[f][i].rw)
  }

  function Next(mem: seq<Page>, f: nat, i: nat): nat { if f < |mem| && i < 512 then mem[f][i].frame else 0 }

  /** The processor lets a user access to a page number through when all four levels do. */
  predicate UserMayAccess(mem: seq<Page>, root: nat, v: nat, write: bool) {
    var pdpt := Next(mem, root, v / 512 / 512 / 512);
    var pd := Next(mem, pdpt, v / 512 / 512 % 512);
    var pt := Next(mem, pd, v / 512 % 512);
    && Lets(mem, root, v / 512 / 512 / 512, write) && Lets(mem, pdpt, v / 512 / 512 % 512, write)
    && Lets(mem, pd, v / 512 % 512, write) && Lets(mem, pt, v % 512, write)
  }

  /** The upper levels forbid nothing: what a process may do to a page is decided by its page-table entry. */
  lemma LeafDecides(s: Mem, root: nat, v: nat, write: bool)
    requires Inv(s) && IsRoot(s, root) && v < USER_PAGES
    ensures UserMayAccess(s.mem, root, v, write) <==>
      Pte(s.mem, root, v).present && (write ==> Pte(s.mem, root, v).rw)
  {
    PathFacts(s, root, v);
    assert DirEntryOk(s, root, I4(v));
    var p, q := Pdpt(s.mem, root, v), Pd(s.mem, root, v);
    if p != -1 {
      assert DirEntryOk(s, p, I3(v));
      if q != -1 {
        assert DirEntryOk(s, q, I2(v));
      }
    }
  }

  /** Distinct (process, page number) pairs have distinct slots. */
  lemma SlotInjective(s: Mem, r: nat, v: nat, q: nat, u: nat)
    requires Inv(s) && IsRoot(s, r) && IsRoot(s, q) && v < USER_PAGES && u < USER_PAGES
    requires Pt(s.mem, r, v) == Pt(s.mem, q, u) != -1 && I1(v) == I1(u)
    ensures r == q && v == u
  {
    PathFacts(s, r, v);
    PathFacts(s, q, u);
    IndicesInjective(v, u);
  }
}
