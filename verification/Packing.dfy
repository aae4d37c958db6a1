/** Packing bits into bytes, the first bit being the most significant one. */
module Packing {
  import opened Bytes

  type Bits = seq<bool>

  function BitOr(b: byte, k: nat, bit: bool): byte
    requires k < 8
  {
    if bit then b | Mask(k) else b
  }

  /** The byte made of up to eight bits, starting at from. */
  function Octet(bits: Bits, from: nat, n: nat): (b: byte)
    requires n <= 8 && from + n <= |bits|
    ensures forall j :: 0 <= j < 8 ==> (Bit(b, j) <==> j < n && bits[from + j])
  {
    if n == 0 then NoBits(); 0
    else
      var b := Octet(bits, from, n - 1);
      OneMoreBit(b, n - 1, bits[from + n - 1]);
      BitOr(b, n - 1, bits[from + n - 1])
  }

  lemma NoBits()
    ensures forall j :: 0 <= j < 8 ==> !Bit(0, j)
  {
  }

  lemma OneMoreBit(b: byte, k: nat, bit: bool)
    requires k < 8
    ensures forall j :: 0 <= j < 8 ==> (Bit(BitOr(b, k, bit), j) <==> (j == k && bit) || Bit(b, j))
  {
    forall j | 0 <= j < 8
      ensures Bit(BitOr(b, k, bit), j) <==> (j == k && bit) || Bit(b, j)
    {
      SettingOneBit(b, k, j);
    }
  }

  function Pack(bits: Bits): (data: seq<byte>)
    ensures |data| == DivCeil(|bits|, 8)
    ensures forall i :: 0 <= i < 8 * |data| ==> (BitAt(data, i) <==> i < |bits| && bits[i])
  {
    seq(DivCeil(|bits|, 8), i requires 0 <= i < DivCeil(|bits|, 8) =>
      Octet(bits, 8 * i, if 8 * i + 8 <= |bits| then 8 else |bits| - 8 * i))
  }

  lemma PackIsInjective(a: Bits, b: Bits)
    requires |a| == |b| && Pack(a) == Pack(b)
    ensures a == b
  {
    var data := Pack(a);
    forall i | 0 <= i < |a|
      ensures a[i] == b[i]
    {
      assert BitAt(data, i) == a[i] && BitAt(Pack(b), i) == b[i];
    }
  }
}
