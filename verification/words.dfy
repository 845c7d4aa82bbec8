/** 64-bit words as the paging code reads them: a frame number and the flag bits
    that include/sys/page.h names. */
module Words {

  /** `rest` holds the eight bits (3-7 and 9-11) that no macro names. Frame number and rest are
      numbers in memory, and bit-vectors where raw words are taken apart. */
  datatype Fields<F, R> = Word(frame: F, present: bool, rw: bool, user: bool, cow: bool, rest: R)

  type Rest = x: nat | x < 256

  type Word = Fields<nat, Rest>

  const ZERO: Word := Word(0, false, false, false, false, 0)

  /** What a walk stores for a table in frame `p`: its address with P, RW and U. */
  function TableWord(p: nat): Word {
    Word(p, true, true, true, false, 0)
  }

  /** What page_insert stores for frame `p`. */
  function LeafWord(p: nat, rw: bool, cow: bool): Word {
    Word(p, true, rw, true, cow, 0)
  }

  /** What fork_handler leaves in a writable parent entry. */
  function CowMark<F, R>(w: Fields<F, R>): Fields<F, R> {
    if w.present then w.(rw := false, cow := true) else w
  }

  /** What the else branch of copy_on_write_handler leaves. */
  function MakeWritable<F, R>(w: Fields<F, R>): Fields<F, R> {
    w.(rw := true, cow := false)
  }

  // BIT_PRESENT, BIT_RW, BIT_USER and BIT_COW
  const PRESENT: bv64 := 1
  const RW: bv64 := 2
  const USER: bv64 := 4
  const COW: bv64 := 256

  /** The fields of a raw word. */
  function FromBits(b: bv64): Fields<bv64, bv64> {
    Word(b >> 12, b & PRESENT != 0, b & RW != 0, b & USER != 0, b & COW != 0,
         b & 0xEF8)
  }

  /** No two raw words have the same fields, so the field view loses nothing. */
  lemma FromBitsInjective(a: bv64, b: bv64)
    requires FromBits(a) == FromBits(b)
    ensures a == b
  {
    SingleBits(a);
    SingleBits(b);
    Recompose(a, b);
  }

  lemma SingleBits(a: bv64)
    ensures a & 1 == 0 || a & 1 == 1
    ensures a & 2 == 0 || a & 2 == 2
    ensures a & 4 == 0 || a & 4 == 4
    ensures a & 256 == 0 || a & 256 == 256
  {
  }

  lemma Recompose(a: bv64, b: bv64)
    requires a >> 12 == b >> 12 && a & 0xEF8 == b & 0xEF8
    requires a & 1 == b & 1 && a & 2 == b & 2 && a & 4 == b & 4 && a & 256 == b & 256
    ensures a == b
  {
  }

  /** The bit operations of the source are the field updates used here. */
  lemma CowMarkBits(b: bv64)
    ensures FromBits(b).present ==> FromBits((b & !2) | 256) == CowMark(FromBits(b))
  {
  }

  lemma MakeWritableBits(b: bv64)
    ensures FromBits((b & !256) | 2) == MakeWritable(FromBits(b))
  {
  }

  lemma StoredEntryBits(pa: bv64, flags: bv64)
    requires pa & 0xFFF == 0 && flags & 0x107 == flags
    ensures FromBits(pa | flags)
         == Word(pa >> 12, flags & 1 != 0, flags & 2 != 0, flags & 4 != 0, flags & 256 != 0, 0)
  {
    FlagsOf(pa, flags);
  }

  lemma FlagsOf(pa: bv64, flags: bv64)
    requires pa & 0xFFF == 0 && flags & 0x107 == flags
    ensures (pa | flags) >> 12 == pa >> 12
    ensures (pa | flags) & 1 == flags & 1 && (pa | flags) & 2 == flags & 2 && (pa | flags) & 4 == flags & 4
    ensures (pa | flags) & 256 == flags & 256 && (pa | flags) & 0xEF8 == 0
  {
  }
}
