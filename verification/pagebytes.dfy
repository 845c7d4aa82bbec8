/** The bytes of a page of words. */
module PageBytes {
  import opened Words
  import opened Memory
  import opened Bytes

  function Bit(b: bool): nat { if b then 1 else 0 }

  function Flag(n: nat): bool { n % 2 == 1 }

  /** The number a word stands for, bit 0 first: present, RW, user, five more bits, COW, three more, and the frame. */
  function Number(w: Word): nat {
    Bit(w.present) + 2 * (Bit(w.rw) + 2 * (Bit(w.user) + 2 * HighNumber(w)))
  }

  /** The bits from 3 on. */
  function HighNumber(w: Word): nat {
    w.rest % 32 + 32 * (Bit(w.cow) + 2 * (w.rest / 32 + 8 * w.frame))
  }

  function FromNumber(n: nat): Word {
    var high := n / 2 / 2 / 2;
    var top := high / 32 / 2;
    Word(top / 8, Flag(n), Flag(n / 2), Flag(n / 2 / 2), Flag(high / 32), high % 32 + 32 * (top % 8))
  }

  lemma HighRoundTrip(n: nat)
    ensures HighNumber(FromNumber(n)) == n / 2 / 2 / 2
  {
    var high := n / 2 / 2 / 2;
    var top := high / 32 / 2;
    var w := FromNumber(n);
    assert w.rest % 32 == high % 32 && w.rest / 32 == top % 8;
  }

  lemma NumberRoundTrip(n: nat)
    ensures Number(FromNumber(n)) == n
  {
    HighRoundTrip(n);
  }

  lemma HighBack(w: Word)
    ensures var high := HighNumber(w);
      high % 32 == w.rest % 32 && Flag(high / 32) == w.cow && (high / 32 / 2) % 8 == w.rest / 32 &&
        high / 32 / 2 / 8 == w.frame
  {
    var x := Bit(w.cow) + 2 * (w.rest / 32 + 8 * w.frame);
    assert HighNumber(w) / 32 == x;
    assert x / 2 == w.rest / 32 + 8 * w.frame;
  }

  /** The number and the word determine each other. */
  lemma WordBack(w: Word)
    ensures FromNumber(Number(w)) == w
  {
    HighBack(w);
    var high := HighNumber(w);
    hide HighNumber;
    var n := Number(w);
    assert n / 2 == Bit(w.rw) + 2 * (Bit(w.user) + 2 * high);
    assert n / 2 / 2 == Bit(w.user) + 2 * high;
    assert n / 2 / 2 / 2 == high;
  }

  function WordToBytes(w: Word): (bs: seq<byte>)
    ensures |bs| == 8
  {
    WordBytes(Number(w), 8)
  }

  /** A word with one byte replaced. */
  function WithByte(w: Word, k: nat, b: byte): Word
    requires k < 8
  {
    FromNumber(WordOf(WordToBytes(w)[k := b]))
  }

  lemma WithByteAt(w: Word, k: nat, b: byte)
    requires k < 8
    ensures WordToBytes(WithByte(w, k, b)) == WordToBytes(w)[k := b]
  {
    var bs := WordToBytes(w)[k := b];
    BytesRoundTrip(bs);
    NumberRoundTrip(WordOf(bs));
  }

  /** The byte at offset `o` of a page. */
  function PageByte(page: Page, o: nat): byte
    requires o < 4096
  {
    WordToBytes(page[o / 8])[o % 8]
  }

  function WithPageByte(page: Page, o: nat, b: byte): Page
    requires o < 4096
  {
    page[o / 8 := WithByte(page[o / 8], o % 8, b)]
  }

  /** Storing a byte changes that byte and no other. */
  lemma WithPageByteAt(page: Page, o: nat, b: byte, x: nat)
    requires o < 4096 && x < 4096
    ensures PageByte(WithPageByte(page, o, b), x) == if x == o then b else PageByte(page, x)
  {
    WithByteAt(page[o / 8], o % 8, b);
    hide WithByte, WordToBytes;
    if x / 8 == o / 8 && x % 8 == o % 8 {
      assert x == o;
    }
  }

  /** A page of words that fit 64 bits is determined by its bytes. */
  lemma BytesDetermine(a: Page, b: Page)
    requires forall i :: 0 <= i < 512 ==> Number(a[i]) < Pow256(8) && Number(b[i]) < Pow256(8)
    requires forall o: nat :: o < 4096 ==> PageByte(a, o) == PageByte(b, o)
    ensures a == b
  {
    forall i | 0 <= i < 512 ensures a[i] == b[i] {
      WordsEqual(a, b, i);
    }
  }

  lemma WordsEqual(a: Page, b: Page, i: nat)
    requires i < 512 && Number(a[i]) < Pow256(8) && Number(b[i]) < Pow256(8)
    requires forall o: nat :: o < 4096 ==> PageByte(a, o) == PageByte(b, o)
    ensures a[i] == b[i]
  {
    hide WordToBytes, Number, FromNumber, Pow256;
    forall k | 0 <= k < 8 ensures WordToBytes(a[i])[k] == WordToBytes(b[i])[k] {
      var o := 8 * i + k;
      assert PageByte(a, o) == PageByte(b, o) && o / 8 == i && o % 8 == k;
    }
    SameBytes(a[i], b[i]);
  }

  lemma SameBytes(v: Word, w: Word)
    requires WordToBytes(v) == WordToBytes(w) && Number(v) < Pow256(8) && Number(w) < Pow256(8)
    ensures v == w
  {
    hide Number, FromNumber, Pow256, WordBytes, WordOf;
    WordRoundTrip(Number(v), 8);
    WordRoundTrip(Number(w), 8);
    WordBack(v);
    WordBack(w);
  }
}
