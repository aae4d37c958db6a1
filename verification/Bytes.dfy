/**
 Bytes, the bits in them (most significant first) and big-endian integers.
 The source tests bit k of a byte with `b & (1 << (7 - k))` and sets it with `b |= 1 << (7 - k)`.
 */
module Bytes {
  type byte = bv8

  const U32_MAX := 0xFFFF_FFFF
  const U64_MAX := 0xFFFF_FFFF_FFFF_FFFF
  const U128_MAX := 0xFFFF_FFFF_FFFF_FFFF_FFFF_FFFF_FFFF_FFFF

  type u16 = x: nat | x < 0x1_0000
  type u32 = x: nat | x <= U32_MAX
  type u64 = x: nat | x <= U64_MAX
  type u128 = x: nat | x <= U128_MAX

  /** A 32-byte string. */
  type bytes32 = s: seq<byte> | |s| == 32 witness seq(32, _ => 0)

  /** The value of 1 << (7 - k). */
  function Mask(k: nat): byte
    requires k < 8
  {
    match k
    case 0 => 128
    case 1 => 64
    case 2 => 32
    case 3 => 16
    case 4 => 8
    case 5 => 4
    case 6 => 2
    case _ => 1
  }

  predicate Bit(b: byte, k: nat)
    requires k < 8
  {
    b & Mask(k) != 0
  }

  /** Counted from the least significant one, bit k is that of 1 << k. */
  lemma BitFromBelow(b: byte, k: nat)
    requires k < 8
    ensures Bit(b, 7 - k) <==> b & ((1 as byte) << k) != 0
  {
    if k < 4 {
      assert k == 0 || k == 1 || k == 2 || k == 3;
    } else {
      assert k == 4 || k == 5 || k == 6 || k == 7;
    }
  }

  lemma SettingOneBit(b: byte, k: nat, j: nat)
    requires k < 8 && j < 8
    ensures Bit(b | Mask(k), j) <==> j == k || Bit(b, j)
  {
  }

  lemma BitsDetermineByte(a: byte, b: byte)
    requires forall j :: 0 <= j < 8 ==> Bit(a, j) == Bit(b, j)
    ensures a == b
  {
    assert Bit(a, 0) == Bit(b, 0) && Bit(a, 1) == Bit(b, 1) && Bit(a, 2) == Bit(b, 2) && Bit(a, 3) == Bit(b, 3);
    assert Bit(a, 4) == Bit(b, 4) && Bit(a, 5) == Bit(b, 5) && Bit(a, 6) == Bit(b, 6) && Bit(a, 7) == Bit(b, 7);
  }

  /** Bit i of a byte string. */
  predicate BitAt(data: seq<byte>, i: nat)
    requires i < 8 * |data|
  {
    Bit(data[i / 8], i % 8)
  }

  lemma BitsDetermineBytes(s: seq<byte>, t: seq<byte>)
    requires |s| == |t|
    requires forall i :: 0 <= i < 8 * |s| ==> BitAt(s, i) == BitAt(t, i)
    ensures s == t
  {
    forall k | 0 <= k < |s|
      ensures s[k] == t[k]
    {
      forall j | 0 <= j < 8
        ensures Bit(s[k], j) == Bit(t[k], j)
      {
        assert BitAt(s, 8 * k + j) == BitAt(t, 8 * k + j);
      }
      BitsDetermineByte(s[k], t[k]);
    }
  }

  /** The n low-order bytes of v, most significant first. */
  function BigEndian(v: nat, n: nat): (s: seq<byte>)
    ensures |s| == n
  {
    if n == 0 then [] else BigEndian(v / 256, n - 1) + [(v % 256) as byte]
  }

  function FromBigEndian(s: seq<byte>): nat
  {
    if s == [] then 0 else 256 * FromBigEndian(s[..|s| - 1]) + s[|s| - 1] as nat
  }

  function Pow256(n: nat): nat
  {
    if n == 0 then 1 else 256 * Pow256(n - 1)
  }

  lemma Pow256Values()
    ensures Pow256(2) == 0x1_0000 && Pow256(4) == U32_MAX + 1
    ensures Pow256(8) == U64_MAX + 1 && Pow256(16) == U128_MAX + 1
  {
    Pow256Sum(2, 2);
    Pow256Sum(4, 4);
    Pow256Sum(8, 8);
  }

  lemma {:induction false} Pow256Sum(a: nat, b: nat)
    ensures Pow256(a + b) == Pow256(a) * Pow256(b)
  {
    if a > 0 {
      Pow256Sum(a - 1, b);
      assert Pow256(a + b) == 256 * (Pow256(a - 1) * Pow256(b)) == (256 * Pow256(a - 1)) * Pow256(b);
    }
  }

  lemma NextByte(b: byte)
    requires b != 255
    ensures (b + 1) as nat == b as nat + 1
  {
  }

  lemma ByteBack(b: byte)
    ensures b as nat < 256 && (b as nat) as byte == b
  {
  }

  lemma {:induction false} SomeByteIs(v: nat) returns (b: byte)
    requires v < 256
    ensures b as nat == v
  {
    if v == 0 {
      b := 0;
    } else {
      b := SomeByteIs(v - 1);
      NextByte(b);
      b := b + 1;
    }
  }

  lemma ByteOf(v: nat)
    requires v < 256
    ensures (v as byte) as nat == v
  {
    var b := SomeByteIs(v);
    ByteBack(b);
  }

  lemma LastByte(s: seq<byte>, b: byte)
    ensures FromBigEndian(s + [b]) == 256 * FromBigEndian(s) + b as nat
  {
    assert (s + [b])[..|s|] == s;
  }

  lemma {:induction false} BigEndianRoundTrip(v: nat, n: nat)
    requires v < Pow256(n)
    ensures FromBigEndian(BigEndian(v, n)) == v
  {
    if n > 0 {
      BigEndianRoundTrip(v / 256, n - 1);
      LastByte(BigEndian(v / 256, n - 1), (v % 256) as byte);
      ByteOf(v % 256);
    }
  }

  lemma DivideAgain(a: nat, b: nat)
    requires b < 256
    ensures (256 * a + b) / 256 == a && (256 * a + b) % 256 == b
  {
  }

  lemma BigEndianAppend(x: nat, b: byte, n: nat)
    ensures BigEndian(256 * x + b as nat, n + 1) == BigEndian(x, n) + [b]
  {
    ByteBack(b);
    DivideAgain(x, b as nat);
  }

  lemma {:induction false} FromBigEndianRoundTrip(s: seq<byte>)
    ensures FromBigEndian(s) < Pow256(|s|)
    ensures BigEndian(FromBigEndian(s), |s|) == s
  {
    if s != [] {
      var n := |s| - 1;
      FromBigEndianRoundTrip(s[..n]);
      ByteBack(s[n]);
      BigEndianAppend(FromBigEndian(s[..n]), s[n], n);
      assert s == s[..n] + [s[n]];
    }
  }

  lemma BigEndianInjective(v: nat, w: nat, n: nat)
    requires v < Pow256(n) && w < Pow256(n)
    requires BigEndian(v, n) == BigEndian(w, n)
    ensures v == w
  {
    BigEndianRoundTrip(v, n);
    BigEndianRoundTrip(w, n);
  }

  function Min(a: int, b: int): int {
    if a <= b then a else b
  }

  function DivCeil(a: nat, b: nat): nat
    requires b > 0
  {
    (a + b - 1) / b
  }
}
