/** Bytes, and unsigned numbers written big-endian in a fixed number of bytes. */
module Bytes {

  type byte = x: int | 0 <= x < 256

  /** The number of values that fit in `w` bytes. */
  function Pow256(w: nat): (r: nat)
    ensures r > 0
  {
    if w == 0 then 1 else 256 * Pow256(w - 1)
  }

  /** The `w` low-order bytes of `n`, most significant first; `n` may be negative (two's complement). */
  function ToBytes(n: int, w: nat): (bs: seq<byte>)
    ensures |bs| == w
    decreases w
  {
    if w == 0 then [] else ToBytes(n / 256, w - 1) + [n % 256]
  }

  /** The unsigned number that `bs` spells, most significant byte first. */
  function Num(bs: seq<byte>): nat {
    if bs == [] then 0 else Num(bs[..|bs| - 1]) * 256 + bs[|bs| - 1]
  }

  /** Two's complement reading of the unsigned `u` held in `w` bytes. */
  function Signed(u: int, w: nat): int {
    if 2 * u >= Pow256(w) then u - Pow256(w) else u
  }

  lemma Powers()
    ensures Pow256(0) == 1 && Pow256(1) == 0x100 && Pow256(2) == 0x1_0000
    ensures Pow256(4) == 0x1_0000_0000 && Pow256(8) == 0x1_0000_0000_0000_0000
  {
  }

  lemma {:induction false} NumBound(bs: seq<byte>)
    ensures Num(bs) < Pow256(|bs|)
  {
    if bs != [] {
      NumBound(bs[..|bs| - 1]);
    }
  }

  /** What is left of `n` above its `w` low-order bytes. */
  function High(n: int, w: nat): int
    decreases w
  {
    if w == 0 then n else High(n / 256, w - 1)
  }

  function Shifted(h: int, w: nat): int {
    h * Pow256(w)
  }

  lemma ShiftedStep(h: int, w: nat)
    ensures Shifted(h, 0) == h && Shifted(h, w + 1) == 256 * Shifted(h, w)
  {
    assert h * (256 * Pow256(w)) == 256 * (h * Pow256(w));
  }

  lemma {:induction false} SplitNum(n: int, w: nat)
    ensures n == Shifted(High(n, w), w) + Num(ToBytes(n, w))
    decreases w
  {
    hide Shifted;
    if w == 0 {
      ShiftedStep(n, 0);
    } else {
      var m := n / 256;
      SplitNum(m, w - 1);
      assert ToBytes(n, w)[..w - 1] == ToBytes(m, w - 1);
      ShiftedStep(High(m, w - 1), w - 1);
    }
  }

  lemma Unscale(h: int, p: nat)
    requires p > 0
    ensures h == 0 || h == -1 || h * p >= p || h * p <= -2 * p
  {
  }

  /** Writing and reading back is the identity modulo the width. */
  lemma NumToBytes(n: int, w: nat)
    ensures 0 <= n < Pow256(w) ==> Num(ToBytes(n, w)) == n
    ensures n < 0 <= n + Pow256(w) ==> Num(ToBytes(n, w)) == n + Pow256(w)
  {
    SplitNum(n, w);
    NumBound(ToBytes(n, w));
    Unscale(High(n, w), Pow256(w));
  }

  /** Two's complement round trip at width `w`. */
  lemma SignedToBytes(n: int, w: nat)
    requires 0 <= 2 * n + Pow256(w) < 2 * Pow256(w)
    ensures Signed(Num(ToBytes(n, w)), w) == n
  {
    NumToBytes(n, w);
  }

  lemma {:induction false} NumJoin(a: seq<byte>, b: seq<byte>)
    ensures Num(a + b) == Num(a) * Pow256(|b|) + Num(b)
    decreases b
  {
    if b == [] {
      assert a + b == a;
    } else {
      var k := |b| - 1;
      NumJoin(a, b[..k]);
      assert (a + b)[..|a| + k] == a + b[..k];
      assert Num(a) * Pow256(k) * 256 == Num(a) * Pow256(|b|);
    }
  }

  /** Reading and writing back is the identity. */
  lemma {:induction false} ToBytesNum(bs: seq<byte>)
    ensures ToBytes(Num(bs), |bs|) == bs
  {
    if bs != [] {
      ToBytesNum(bs[..|bs| - 1]);
      assert Num(bs) / 256 == Num(bs[..|bs| - 1]);
    }
  }

  /** The same for two's complement. */
  lemma ToBytesSigned(bs: seq<byte>)
    ensures ToBytes(Signed(Num(bs), |bs|), |bs|) == bs
  {
    hide ToBytes, Num, Pow256;
    var i := Signed(Num(bs), |bs|);
    NumBound(bs);
    NumToBytes(i, |bs|);
    ToBytesNum(bs);
    ToBytesNum(ToBytes(i, |bs|));
  }
}
