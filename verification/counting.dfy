/** Reference counts against mappings. */
module Counting {
  import opened Memory
  import opened Updates
  import opened Teardown

  ghost predicate MapsPage(s: Mem, q: nat, v: nat, f: nat) {
    IsRoot(s, q) && v < USER_PAGES && Pte(s.mem, q, v).present && Pte(s.mem, q, v).frame == f
  }

  /** The (process, page number) pairs that map frame `f`. */
  ghost function Mappers(s: Mem, f: nat): set<(nat, nat)> {
    set q: nat, v: nat | q < |s.role| && v < USER_PAGES && MapsPage(s, q, v, f) :: (q, v)
  }

  /** The slot a page number is kept in. */
  function SlotOf(mem: seq<Page>, x: (nat, nat)): (nat, nat) {
    var t := Pt(mem, x.0, x.1);
    (if t < 0 then 0 else t, I1(x.1))
  }

  lemma {:induction false} ImageSize(a: set<(nat, nat)>, mem: seq<Page>)
    requires forall x, y :: x in a && y in a && SlotOf(mem, x) == SlotOf(mem, y) ==> x == y
    ensures |set x | x in a :: SlotOf(mem, x)| == |a|
  {
    if a != {} {
      var x :| x in a;
      var rest := a - {x};
      ImageSize(rest, mem);
      assert (set y | y in a :: SlotOf(mem, y)) == (set y | y in rest :: SlotOf(mem, y)) + {SlotOf(mem, x)};
    }
  }

  lemma MapperSlots(s: Mem, f: nat)
    requires Inv(s) && Quiet(s)
    ensures Slots(s, f) == set x | x in Mappers(s, f) :: SlotOf(s.mem, x)
  {
    forall t: nat, i: nat | (t, i) in Slots(s, f) ensures exists x :: x in Mappers(s, f) && SlotOf(s.mem, x) == (t, i) {
      SlotsIn(s, f, t, i);
      var q, v := SlotOwner(s, t, i);
      assert MapsPage(s, q, v, f);
      assert (q, v) in Mappers(s, f);
    }
    forall q: nat, v: nat | (q, v) in Mappers(s, f) ensures SlotOf(s.mem, (q, v)) in Slots(s, f) {
      assert MapsPage(s, q, v, f);
      PathFacts(s, q, v);
      SlotsIn(s, f, Pt(s.mem, q, v), I1(v));
    }
  }

  /** The count of a data frame is the number of user page-table entries that map it, over all processes. */
  lemma CountIsMappings(s: Mem, f: nat)
    requires Inv(s) && Quiet(s) && f < |s.role| && s.role[f] == Data
    ensures s.refs[f] == |Mappers(s, f)|
  {
    MapperSlots(s, f);
    forall x, y | x in Mappers(s, f) && y in Mappers(s, f) && SlotOf(s.mem, x) == SlotOf(s.mem, y) ensures x == y {
      assert MapsPage(s, x.0, x.1, f) && MapsPage(s, y.0, y.1, f);
      PathFacts(s, x.0, x.1);
      PathFacts(s, y.0, y.1);
      SlotInjective(s, x.0, x.1, y.0, y.1);
    }
    ImageSize(Mappers(s, f), s.mem);
  }

  lemma Singleton(m: set<(nat, nat)>, x: (nat, nat))
    requires |m| == 1 && x in m
    ensures m == {x}
  {
    assert |m - {x}| == 0;
  }

  /** A frame counted once has one mapping, and the other way round. */
  lemma SoleMapper(s: Mem, q: nat, v: nat)
    requires Inv(s) && Quiet(s) && IsRoot(s, q) && v < USER_PAGES && Pte(s.mem, q, v).present
    ensures Pte(s.mem, q, v).frame < |s.refs| && 1 <= s.refs[Pte(s.mem, q, v).frame]
    ensures s.refs[Pte(s.mem, q, v).frame] == 1 <==>
      forall p: nat, u: nat :: MapsPage(s, p, u, Pte(s.mem, q, v).frame) ==> (p, u) == (q, v)
  {
    PathFacts(s, q, v);
    var f := Pte(s.mem, q, v).frame;
    var m := Mappers(s, f);
    assert MapsPage(s, q, v, f);
    hide Inv, Quiet, Pte, MapsPage;
    CountIsMappings(s, f);
    assert (q, v) in m;
    if |m| == 1 {
      Singleton(m, (q, v));
      forall p: nat, u: nat | MapsPage(s, p, u, f) ensures (p, u) == (q, v) {
        assert (p, u) in m;
      }
    }
    if forall p: nat, u: nat :: MapsPage(s, p, u, f) ==> (p, u) == (q, v) {
      assert m == {(q, v)} by {
        forall x | x in m ensures x == (q, v) { assert MapsPage(s, x.0, x.1, f); }
      }
    }
  }

  /** A live entry of a user table. */
  ghost predicate IsUserEntry(s: Mem, t: nat, i: nat) {
    && Sized(s) && t < |s.role| && i < 512 && (IsDir(s.role[t]) || IsLeafTable(s.role[t]))
    && !(s.role[t].Root? && i == KERNEL_SLOT) && s.mem[t][i].present
  }

  /** A table is counted once and exactly one entry of a live directory points to it. */
  lemma TableReferencedOnce(s: Mem, g: nat)
    requires Inv(s) && Quiet(s) && g < |s.role| && s.role[g].Table?
    ensures s.refs[g] == 1
    ensures IsUserEntry(s, s.role[g].parent, s.role[g].slot) && s.mem[s.role[g].parent][s.role[g].slot].frame == g
    ensures forall t: nat, i: nat :: IsUserEntry(s, t, i) && s.mem[t][i].frame == g ==>
              t == s.role[g].parent && i == s.role[g].slot
  {
    assert ParentOk(s, g);
    if s.role[s.role[g].parent].Table? { assert ParentOk(s, s.role[g].parent); }
    forall t: nat, i: nat | IsUserEntry(s, t, i) && s.mem[t][i].frame == g
      ensures t == s.role[g].parent && i == s.role[g].slot
    {
      assert IsDir(s.role[t]) ==> DirEntryOk(s, t, i);
      assert IsLeafTable(s.role[t]) ==> LeafOk(s, t, i);
    }
  }

  /** Free frames are counted zero, listed once and mapped by nobody. */
  lemma FreeIsUnreferenced(s: Mem, f: nat)
    requires Inv(s) && f in s.free
    ensures f < |s.refs| && s.refs[f] == 0 && s.role[f] == Unused
    ensures forall q: nat, v: nat :: !MapsPage(s, q, v, f)
    ensures forall t: nat, i: nat :: IsUserEntry(s, t, i) ==> s.mem[t][i].frame != f
    ensures multiset(s.free)[f] == 1
  {
    forall q: nat, v: nat ensures !MapsPage(s, q, v, f) {
      if IsRoot(s, q) && v < USER_PAGES { PathFacts(s, q, v); }
    }
    forall t: nat, i: nat | IsUserEntry(s, t, i) ensures s.mem[t][i].frame != f {
      if IsDir(s.role[t]) { assert DirEntryOk(s, t, i); } else { assert LeafOk(s, t, i); }
    }
    DistinctOnce(s.free, f);
  }

  lemma {:induction false} DistinctOnce(q: seq<nat>, x: nat)
    requires Distinct(q)
    ensures multiset(q)[x] == if x in q then 1 else 0
  {
    if q != [] {
      var rest := q[..|q| - 1];
      assert q == rest + [q[|q| - 1]];
      DistinctOnce(rest, x);
    }
  }
}
