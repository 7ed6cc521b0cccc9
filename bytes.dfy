// Bytes, clamped windows over a byte content, and big-endian integers.

module Bytes {

  type byte = b: int | 0 <= b < 256

  function Min(a: int, b: int): int { if a <= b then a else b }

  function Max(a: int, b: int): int { if a <= b then b else a }

  /** The bytes a read of `n` bytes returns when the cursor stands at `p` in `c`:
      the next `n` bytes, or fewer when the end of `c` comes first. */
  function Window(c: seq<byte>, p: nat, n: nat): (w: seq<byte>)
    ensures |w| <= n
    ensures |w| == n <==> n == 0 || p + n <= |c|
    ensures forall i :: 0 <= i < |w| ==> p + i < |c| && w[i] == c[p + i]
  {
    c[Min(p, |c|)..Min(p + n, |c|)]
  }

  /** A read that straddles any boundary returns what two reads split at that
      boundary return one after the other. */
  lemma {:induction false} WindowSplit(c: seq<byte>, p: nat, a: nat, b: nat)
    ensures Window(c, p, a + b) == Window(c, p, a) + Window(c, Min(p + a, |c|), b)
  {
    var lo, mid, hi := Min(p, |c|), Min(p + a, |c|), Min(p + a + b, |c|);
    assert c[lo..hi] == c[lo..mid] + c[mid..hi];
  }

  function Pow256(k: nat): (r: nat)
    ensures r >= 1
  {
    if k == 0 then 1 else 256 * Pow256(k - 1)
  }

  /** Reading `a` bytes and then `b` bytes spans the range of an `a + b`-byte read. */
  lemma {:induction false} Pow256Add(a: nat, b: nat)
    ensures Pow256(a + b) == Pow256(a) * Pow256(b)
  {
    if a > 0 {
      Pow256Add(a - 1, b);
      assert Pow256(a + b) == 256 * Pow256(a - 1 + b);
    }
  }

  /** Python's `int.from_bytes(bs, byteorder='big')`: the empty sequence gives 0. */
  function BigEndian(bs: seq<byte>): (v: nat)
    ensures v < Pow256(|bs|)
  {
    if bs == [] then 0
    else
      var high := BigEndian(bs[..|bs| - 1]);
      assert high + 1 <= Pow256(|bs| - 1);
      assert (high + 1) * 256 <= Pow256(|bs| - 1) * 256;
      high * 256 + bs[|bs| - 1]
  }

  /** The `k`-byte big-endian integer stored in `c` from `p` on. */
  function BigEndianAt(c: seq<byte>, p: nat, k: nat): nat
    requires p + k <= |c|
  {
    if k == 0 then 0 else BigEndianAt(c, p, k - 1) * 256 + c[p + k - 1]
  }

  /** Reading in place agrees with decoding the slice. */
  lemma {:induction false} BigEndianAtSlice(c: seq<byte>, p: nat, k: nat)
    requires p + k <= |c|
    ensures BigEndianAt(c, p, k) == BigEndian(c[p..p + k])
  {
    if k > 0 {
      BigEndianAtSlice(c, p, k - 1);
      assert c[p..p + k][..k - 1] == c[p..p + k - 1];
    }
  }

  /** The `k`-byte big-endian encoding of `v`; decoding it gives `v` back. */
  function ToBigEndian(v: nat, k: nat): (bs: seq<byte>)
    requires v < Pow256(k)
    ensures |bs| == k
    ensures BigEndian(bs) == v
  {
    if k == 0 then []
    else
      var high := ToBigEndian(v / 256, k - 1);
      var bs := high + [v % 256];
      assert bs[..k - 1] == high;
      bs
  }
}
