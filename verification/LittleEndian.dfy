/** Numbers as little-endian bytes. */
module LittleEndian {
  import opened Nor

  function Pow256(k: nat): (p: nat)
    ensures p > 0
  {
    if k == 0 then 1 else 256 * Pow256(k - 1)
  }

  function Le(n: nat, k: nat): (bs: seq<Byte>)
    ensures |bs| == k
  {
    if k == 0 then [] else [n % 256] + Le(n / 256, k - 1)
  }

  function FromLe(bs: seq<Byte>): (n: nat) {
    if bs == [] then 0 else bs[0] + 256 * FromLe(bs[1..])
  }

  lemma {:induction false} LeRoundTrip(n: nat, k: nat)
    requires n < Pow256(k)
    ensures FromLe(Le(n, k)) == n
  {
    if k > 0 {
      LeRoundTrip(n / 256, k - 1);
      assert Le(n, k)[1..] == Le(n / 256, k - 1);
    }
  }

  lemma Digits(low: Byte, high: nat)
    ensures (low + 256 * high) % 256 == low && (low + 256 * high) / 256 == high
  {}

  lemma {:induction false} FromLeRoundTrip(bs: seq<Byte>)
    ensures FromLe(bs) < Pow256(|bs|) && Le(FromLe(bs), |bs|) == bs
  {
    if bs != [] {
      FromLeRoundTrip(bs[1..]);
      Digits(bs[0], FromLe(bs[1..]));
      assert bs == [bs[0]] + bs[1..];
    }
  }

  // ----- The low byte comes first -----

  /** The number in four bytes of `bs` from `at` on. */
  function U32At(bs: seq<Byte>, at: nat): nat
    requires at + 4 <= |bs|
  {
    var a: nat, b: nat, c: nat, d: nat := bs[at], bs[at + 1], bs[at + 2], bs[at + 3];
    a + 0x100 * b + 0x1_0000 * c + 0x100_0000 * d
  }

  function U64At(bs: seq<Byte>, at: nat): nat
    requires at + 8 <= |bs|
  {
    U32At(bs, at) + 0x1_0000_0000 * U32At(bs, at + 4)
  }

  lemma {:induction false} FourBytes(bs: seq<Byte>)
    requires |bs| >= 4
    ensures FromLe(bs) == U32At(bs, 0) + 0x1_0000_0000 * FromLe(bs[4..])
  {
    var t1, t2, t3 := bs[1..], bs[2..], bs[3..];
    assert t1[1..] == t2 && t2[1..] == t3 && t3[1..] == bs[4..];
    assert FromLe(bs) == bs[0] + 256 * FromLe(t1) && FromLe(t1) == bs[1] + 256 * FromLe(t2);
    assert FromLe(t2) == bs[2] + 256 * FromLe(t3) && FromLe(t3) == bs[3] + 256 * FromLe(bs[4..]);
  }

  lemma ReadsLowByteFirst(bs: seq<Byte>)
    ensures |bs| == 4 ==> FromLe(bs) == U32At(bs, 0)
    ensures |bs| == 8 ==> FromLe(bs) == U64At(bs, 0)
  {
    if |bs| == 4 || |bs| == 8 {
      FourBytes(bs);
      if |bs| == 8 { FourBytes(bs[4..]); }
    }
  }
}
