// Bytes, their exclusive or, and big-endian integers over them.
module Bytes {
  import opened Arithmetic

  newtype byte = x: int | 0 <= x < 256

  // ----- exclusive or -----

  function Pow2(n: nat): (r: nat)
    ensures r > 0
  {
    if n == 0 then 1 else 2 * Pow2(n - 1)
  }

  function Bit(a: nat, i: nat): nat {
    if i == 0 then a % 2 else Bit(a / 2, i - 1)
  }

  /** A binary digit is the parity of the number shifted down. */
  lemma {:induction false} BitIsDigit(a: nat, i: nat)
    ensures Bit(a, i) == a / Pow2(i) % 2
  {
    if i > 0 {
      BitIsDigit(a / 2, i - 1);
      DivideTwice(a, 2, Pow2(i - 1));
    }
  }

  /** Addition without carry in each of the `w` low binary digits. */
  function XorBits(a: nat, b: nat, w: nat): (r: nat)
    ensures r < Pow2(w)
  {
    if w == 0 then 0 else (a + b) % 2 + 2 * XorBits(a / 2, b / 2, w - 1)
  }

  lemma XorBitsStep(a: nat, b: nat, w: nat)
    requires w > 0
    ensures XorBits(a, b, w) == (a + b) % 2 + 2 * XorBits(a / 2, b / 2, w - 1)
  {
  }

  lemma HalfBelow(a: nat, bound: nat)
    requires a < 2 * bound
    ensures a / 2 < bound
  {
  }

  lemma SplitBits(low: nat, high: nat)
    requires low < 2
    ensures (low + 2 * high) / 2 == high && (low + 2 * high) % 2 == low
  {
  }

  lemma {:induction false} XorBitsAt(a: nat, b: nat, w: nat, i: nat)
    requires i < w
    ensures Bit(XorBits(a, b, w), i) == 1 <==> Bit(a, i) != Bit(b, i)
  {
    hide XorBits, Pow2;
    XorBitsStep(a, b, w);
    SplitBits((a + b) % 2, XorBits(a / 2, b / 2, w - 1));
    if i > 0 {
      XorBitsAt(a / 2, b / 2, w - 1, i - 1);
    }
  }

  lemma ParityUndo(a: nat, b: nat, high: nat)
    ensures ((a + b) % 2 + 2 * high + b) % 2 == a % 2
  {
  }

  lemma {:induction false} XorBitsUndo(a: nat, b: nat, w: nat)
    requires a < Pow2(w)
    ensures XorBits(XorBits(a, b, w), b, w) == a
  {
    if w > 0 {
      var half := XorBits(a / 2, b / 2, w - 1);
      HalfBelow(a, Pow2(w - 1));
      XorBitsUndo(a / 2, b / 2, w - 1);
      SplitBits((a + b) % 2, half);
      ParityUndo(a, b, half);
      hide XorBits, Pow2;
      XorBitsStep(a, b, w);
      XorBitsStep(XorBits(a, b, w), b, w);
    }
  }

  /** The `^` of two bytes. */
  function XorByte(a: byte, b: byte): byte {
    assert Pow2(8) == 256;
    XorBits(a as nat, b as nat, 8) as byte
  }

  /** Each binary digit of the result is set exactly if the operands differ there. */
  lemma XorByteAt(a: byte, b: byte, i: nat)
    requires i < 8
    ensures Bit(XorByte(a, b) as nat, i) == 1 <==> Bit(a as nat, i) != Bit(b as nat, i)
  {
    XorBitsAt(a as nat, b as nat, 8, i);
  }

  lemma XorByteUndo(a: byte, b: byte)
    ensures XorByte(XorByte(a, b), b) == a
  {
    assert Pow2(8) == 256;
    XorBitsUndo(a as nat, b as nat, 8);
  }

  /** The byte-wise `^` of two equally long strings. */
  function XorSeq(a: seq<byte>, b: seq<byte>): (r: seq<byte>)
    requires |a| == |b|
    ensures |r| == |a|
  {
    seq(|a|, i requires 0 <= i < |a| => XorByte(a[i], b[i]))
  }

  lemma XorSeqAt(a: seq<byte>, b: seq<byte>, k: nat, i: nat)
    requires |a| == |b| && k < |a| && i < 8
    ensures Bit(XorSeq(a, b)[k] as nat, i) == 1 <==> Bit(a[k] as nat, i) != Bit(b[k] as nat, i)
  {
    XorByteAt(a[k], b[k], i);
  }

  lemma XorSeqUndo(a: seq<byte>, b: seq<byte>)
    requires |a| == |b|
    ensures XorSeq(XorSeq(a, b), b) == a
  {
    forall i | 0 <= i < |a|
      ensures XorSeq(XorSeq(a, b), b)[i] == a[i]
    {
      XorByteUndo(a[i], b[i]);
    }
  }

  // ----- big-endian integers -----

  function Pow256(n: nat): (r: nat)
    ensures r > 0
  {
    if n == 0 then 1 else 256 * Pow256(n - 1)
  }

  /** The value of a big-endian byte string (`big.Int.SetBytes`). */
  function ToNat(s: seq<byte>): nat {
    if s == [] then 0 else ToNat(s[..|s| - 1]) * 256 + s[|s| - 1] as nat
  }

  /** The low `size` base-256 digits of `n`, most significant first. */
  function ToBytes(n: nat, size: nat): (s: seq<byte>)
    ensures |s| == size
  {
    if size == 0 then [] else ToBytes(n / 256, size - 1) + [(n % 256) as byte]
  }

  /** `big.Int.Bytes`: no leading zero byte, and no byte at all for zero. */
  function MinimalBytes(n: nat): (s: seq<byte>) {
    if n == 0 then [] else MinimalBytes(n / 256) + [(n % 256) as byte]
  }

  lemma {:induction false} ToBytesValue(n: nat, size: nat)
    requires n < Pow256(size)
    ensures ToNat(ToBytes(n, size)) == n
  {
    if size > 0 {
      assert n / 256 < Pow256(size - 1);
      ToBytesValue(n / 256, size - 1);
      var s := ToBytes(n, size);
      assert s[..|s| - 1] == ToBytes(n / 256, size - 1);
    }
  }

  lemma {:induction false} ToBytesOfValue(s: seq<byte>)
    ensures ToBytes(ToNat(s), |s|) == s
  {
    if s != [] {
      var init := s[..|s| - 1];
      ToBytesOfValue(init);
      assert ToNat(s) / 256 == ToNat(init);
    }
  }

  lemma {:induction false} MinimalBytesValue(n: nat)
    ensures ToNat(MinimalBytes(n)) == n
    ensures n > 0 ==> MinimalBytes(n) != [] && MinimalBytes(n)[0] != 0
  {
    if n > 0 {
      MinimalBytesValue(n / 256);
      var s := MinimalBytes(n);
      assert s[..|s| - 1] == MinimalBytes(n / 256);
    }
  }

  /** A number fits in `size` bytes exactly when its minimal form is that short. */
  lemma {:induction false} MinimalBytesFit(n: nat, size: nat)
    ensures |MinimalBytes(n)| <= size <==> n < Pow256(size)
  {
    if n > 0 && size > 0 {
      MinimalBytesFit(n / 256, size - 1);
      assert n < Pow256(size) <==> n / 256 < Pow256(size - 1);
    }
  }

  /** Byte k of the fixed-width form is the base-256 digit of weight 256^(size-1-k). */
  lemma {:induction false} ToBytesAt(n: nat, size: nat, k: nat)
    requires k < size
    ensures ToBytes(n, size)[k] as nat == n / Pow256(size - 1 - k) % 256
  {
    if k < size - 1 {
      ToBytesAt(n / 256, size - 1, k);
      DivideTwice(n, 256, Pow256(size - 2 - k));
    }
  }

  /** The first byte is the most significant one. */
  lemma {:induction false} FirstByteWeighsMost(b: byte, s: seq<byte>)
    ensures ToNat([b] + s) == b as nat * Pow256(|s|) + ToNat(s)
  {
    if s == [] {
      assert [b][..0] == [];
      assert [b] + s == [b];
    } else {
      var init := s[..|s| - 1];
      var whole := [b] + s;
      assert whole[..|whole| - 1] == [b] + init;
      FirstByteWeighsMost(b, init);
      assert b as nat * (256 * Pow256(|init|)) == b as nat * Pow256(|init|) * 256;
    }
  }

  function Zeros(n: nat): (s: seq<byte>)
    ensures |s| == n && forall k :: 0 <= k < n ==> s[k] == 0
  {
    seq(n, _ => 0 as byte)
  }

  /** Leading zero bytes do not change a value. */
  lemma {:induction false} LeadingZeros(k: nat, s: seq<byte>)
    ensures ToNat(Zeros(k) + s) == ToNat(s)
  {
    var z := Zeros(k) + s;
    if s != [] {
      assert z[..|z| - 1] == Zeros(k) + s[..|s| - 1];
      LeadingZeros(k, s[..|s| - 1]);
    } else if k > 0 {
      assert z[..k - 1] == Zeros(k - 1) + s;
      LeadingZeros(k - 1, s);
    }
  }
}
