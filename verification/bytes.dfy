/** Words as bytes, lowest byte first. */
module Bytes {

  type byte = b: nat | b < 256

  function WordBytes(n: nat, count: nat): (bs: seq<byte>)
    ensures |bs| == count
  {
    if count == 0 then [] else [n % 256] + WordBytes(n / 256, count - 1)
  }

  function WordOf(bs: seq<byte>): nat {
    if bs == [] then 0 else bs[0] + 256 * WordOf(bs[1..])
  }

  function Pow256(k: nat): nat { if k == 0 then 1 else 256 * Pow256(k - 1) }

  lemma {:induction false} WordRoundTrip(n: nat, count: nat)
    requires n < Pow256(count)
    ensures WordOf(WordBytes(n, count)) == n
  {
    if count > 0 {
      WordRoundTrip(n / 256, count - 1);
      assert WordBytes(n, count)[1..] == WordBytes(n / 256, count - 1);
    }
  }

  lemma {:induction false} BytesRoundTrip(bs: seq<byte>)
    ensures WordOf(bs) < Pow256(|bs|) && WordBytes(WordOf(bs), |bs|) == bs
  {
    if bs != [] {
      var n := WordOf(bs[1..]);
      BytesRoundTrip(bs[1..]);
      assert (bs[0] + 256 * n) % 256 == bs[0] && (bs[0] + 256 * n) / 256 == n;
      assert bs == [bs[0]] + bs[1..];
    }
  }

  /** Each further byte weighs 256 times the one before. */
  lemma {:induction false} ByteWeighs(bs: seq<byte>, b: byte)
    ensures WordOf(bs + [b]) == WordOf(bs) + b * Pow256(|bs|)
  {
    if bs == [] {
      assert [] + [b] == [b] && [b][1..] == [];
    } else {
      ByteWeighs(bs[1..], b);
      assert (bs + [b])[1..] == bs[1..] + [b];
      assert 256 * (b * Pow256(|bs| - 1)) == b * Pow256(|bs|);
    }
  }
}
