/**
 Writing numbers into cells bit by bit and reading them back
 (crates/protocol/onx-execution/src/types.rs).
 */
module BitIO {
  import opened Wrappers
  import opened Bytes
  import opened Packing

  datatype ExceptionKind = MalformedCell

  const MAX_BITS := 128 * 8

  function ZeroBits(n: nat): Bits {
    seq(n, _ => false)
  }

  /** Some bits of a byte string. */
  function BitsOf(data: seq<byte>, from: nat, n: nat): (bits: Bits)
    requires n > 0 ==> from + n <= 8 * |data|
    ensures |bits| == n && forall i :: 0 <= i < n ==> bits[i] == BitAt(data, from + i)
  {
    seq(n, i requires 0 <= i < n => BitAt(data, from + i))
  }

  /** The last bits of a 32-byte number. */
  function LowBits(value: bytes32, width: nat): (bits: Bits)
    requires width <= 256
    ensures |bits| == width && forall i :: 0 <= i < width ==> bits[i] == BitAt(value, 256 - width + i)
  {
    BitsOf(value, 256 - width, width)
  }

  /** The number made of some bits. */
  function NumberOf(bits: Bits): (value: bytes32)
    requires |bits| <= 256
    ensures forall i :: 0 <= i < 256 ==> (BitAt(value, i) <==> i >= 256 - |bits| && bits[i - (256 - |bits|)])
  {
    Pack(ZeroBits(256 - |bits|) + bits)
  }

  /** The bits of the number are those of the value; nothing else is set. */
  lemma NumberOfLowBits(value: bytes32, width: nat)
    requires width <= 256
    ensures forall i :: 0 <= i < 256 ==> (BitAt(NumberOf(LowBits(value, width)), i) <==>
      i >= 256 - width && BitAt(value, i))
    ensures width == 256 ==> NumberOf(LowBits(value, width)) == value
  {
    var number := NumberOf(LowBits(value, width));
    forall i | 0 <= i < 256
      ensures BitAt(number, i) <==> i >= 256 - width && BitAt(value, i)
    {
      if i >= 256 - width {
        assert LowBits(value, width)[i - (256 - width)] == BitAt(value, i);
      }
    }
    if width == 256 {
      BitsDetermineBytes(number, value);
    }
  }

  // ---------- Writing ----------

  function SetBit(data: seq<byte>, i: nat): seq<byte>
    requires i < 8 * |data|
  {
    data[i / 8 := data[i / 8] | Mask(i % 8)]
  }

  lemma SetBitSets(data: seq<byte>, i: nat, k: nat)
    requires i < 8 * |data| && k < 8 * |data|
    ensures BitAt(SetBit(data, i), k) <==> k == i || BitAt(data, k)
  {
    SettingOneBit(data[i / 8], i % 8, k % 8);
  }

  function Grown(data: seq<byte>, i: nat): seq<byte> {
    if i / 8 >= |data| then data + [0] else data
  }

  lemma GrownLength(n: nat)
    ensures DivCeil(n + 1, 8) == if n / 8 >= DivCeil(n, 8) then DivCeil(n, 8) + 1 else DivCeil(n, 8)
    ensures n < 8 * DivCeil(n + 1, 8)
  {
  }

  lemma ZeroByteHasNoBits(k: nat)
    requires k < 8
    ensures !Bit(0, k)
  {
  }

  lemma GrownBits(bits: Bits, k: nat)
    requires k < 8 * |Grown(Pack(bits), |bits|)|
    ensures BitAt(Grown(Pack(bits), |bits|), k) <==> k < |bits| && bits[k]
  {
    var data := Pack(bits);
    if k >= 8 * |data| {
      ZeroByteHasNoBits(k % 8);
    }
  }

  /** Writing one more bit, as the loop does: a new byte when needed, then the bit if it is set. */
  lemma PackOneMore(bits: Bits, bit: bool)
    ensures |bits| < 8 * |Grown(Pack(bits), |bits|)|
    ensures Pack(bits + [bit]) == if bit then SetBit(Grown(Pack(bits), |bits|), |bits|) else Grown(Pack(bits), |bits|)
  {
    GrownLength(|bits|);
    var grown := Grown(Pack(bits), |bits|);
    var written := if bit then SetBit(grown, |bits|) else grown;
    var longer := bits + [bit];
    forall k | 0 <= k < 8 * |written|
      ensures BitAt(written, k) == BitAt(Pack(longer), k)
    {
      GrownBits(bits, k);
      if bit {
        SetBitSets(grown, |bits|, k);
      }
    }
    BitsDetermineBytes(written, Pack(longer));
  }

  /** The bits written so far are packed without gaps, and padding bits are zero. */
  class Builder {
    var data: seq<byte>
    var bitLen: nat
    ghost var contents: Bits

    ghost predicate Valid()
      reads this
    {
      bitLen == |contents| <= MAX_BITS && data == Pack(contents)
    }

    constructor ()
      ensures Valid() && contents == []
    {
      data, bitLen, contents := [], 0, [];
    }

    method AppendBits(value: bytes32, width: nat) returns (r: Result<(), ExceptionKind>)
      requires Valid()
      modifies this
      ensures Valid()
      ensures r.Ok? <==> width <= 256 && old(bitLen) + width <= MAX_BITS
      ensures r.Ok? ==> contents == old(contents) + LowBits(value, width)
      ensures r.Err? ==> contents == old(contents) && data == old(data)
    {
      if width > 256 {
        return Err(MalformedCell);
      }
      var target := bitLen + width;
      if target > MAX_BITS {
        return Err(MalformedCell);
      }
      ghost var low := LowBits(value, width);
      for i := 0 to width
        invariant bitLen == old(bitLen) && contents == old(contents) + low[..i] && data == Pack(contents)
      {
        WriteBit(bitLen + i, BitAt(value, 256 - width + i));
        OneMore(old(contents), low, i);
      }
      assert low[..width] == low;
      bitLen := target;
      return Ok(());
    }

    /** Writes the bit behind the last one. */
    method WriteBit(at: nat, bit: bool)
      requires data == Pack(contents) && at == |contents|
      modifies this`data, this`contents
      ensures contents == old(contents) + [bit] && data == Pack(contents)
    {
      PackOneMore(contents, bit);
      if at / 8 >= |data| {
        data := data + [0];
      }
      if bit {
        data := SetBit(data, at);
      }
      contents := contents + [bit];
    }
  }

  lemma OneMore(before: Bits, low: Bits, i: nat)
    requires i < |low|
    ensures before + low[..i] + [low[i]] == before + low[..i + 1]
  {
    assert low[..i + 1] == low[..i] + [low[i]];
  }

  // ---------- Reading ----------

  function Remaining(data: seq<byte>, offset: nat): nat {
    if offset <= 8 * |data| then 8 * |data| - offset else 0
  }

  /** What is read at an offset. */
  function ReadAt(data: seq<byte>, offset: nat, width: nat): Result<bytes32, ExceptionKind> {
    if Remaining(data, offset) < width || width > 256 then Err(MalformedCell)
    else Ok(NumberOf(BitsOf(data, offset, width)))
  }

  class Slice {
    const data: seq<byte>
    var bitOffset: nat

    constructor (data: seq<byte>)
      ensures this.data == data && bitOffset == 0
    {
      this.data, bitOffset := data, 0;
    }

    method ReadBits(width: nat) returns (r: Result<bytes32, ExceptionKind>)
      modifies this
      ensures r == ReadAt(data, old(bitOffset), width)
      ensures bitOffset == old(bitOffset) + if r.Ok? then width else 0
    {
      if Remaining(data, bitOffset) < width || width > 256 {
        return Err(MalformedCell);
      }
      ghost var bits := BitsOf(data, bitOffset, width);
      var out := Pack(ZeroBits(256));
      for i := 0 to width
        invariant |out| == 32 && bitOffset == old(bitOffset)
        invariant forall k :: 0 <= k < 256 ==>
          (BitAt(out, k) <==> 256 - width <= k < 256 - width + i && bits[k - (256 - width)])
      {
        var at := 256 - width + i;
        if BitAt(data, bitOffset + i) {
          ghost var before := out;
          out := SetBit(out, at);
          forall k | 0 <= k < 256
            ensures BitAt(out, k) <==> k == at || BitAt(before, k)
          {
            SetBitSets(before, at, k);
          }
        }
      }
      BitsDetermineBytes(out, NumberOf(bits));
      bitOffset := bitOffset + width;
      return Ok(out);
    }
  }

  // ---------- Round trip ----------

  datatype Write = Write(value: bytes32, width: nat)

  predicate WidthsOk(ws: seq<Write>) {
    forall i :: 0 <= i < |ws| ==> ws[i].width <= 256
  }

  /** The contents of a builder after some writes. */
  function Written(ws: seq<Write>): Bits
    requires WidthsOk(ws)
  {
    if ws == [] then [] else LowBits(ws[0].value, ws[0].width) + Written(ws[1..])
  }

  /** What is read with the same widths, one after the other. */
  function ReadAll(data: seq<byte>, offset: nat, ws: seq<Write>): seq<Result<bytes32, ExceptionKind>>
    decreases |ws|
  {
    if ws == [] then [] else [ReadAt(data, offset, ws[0].width)] + ReadAll(data, offset + ws[0].width, ws[1..])
  }

  lemma ReadsWhatIsThere(before: Bits, bits: Bits, after: Bits)
    requires |bits| <= 256
    ensures ReadAt(Pack(before + bits + after), |before|, |bits|) == Ok(NumberOf(bits))
  {
    var all := before + bits + after;
    var data := Pack(all);
    assert |all| <= 8 * |data|;
    var read := BitsOf(data, |before|, |bits|);
    forall i | 0 <= i < |bits|
      ensures read[i] == bits[i]
    {
      assert BitAt(data, |before| + i) == all[|before| + i];
    }
    assert read == bits;
  }

  lemma WidthOfLowBits(value: bytes32, width: nat)
    requires width <= 256
    ensures |LowBits(value, width)| == width
  {
  }

  /** What was read is what was written, as far as the widths go. */
  ghost predicate ReadBack(got: seq<Result<bytes32, ExceptionKind>>, ws: seq<Write>)
    requires WidthsOk(ws)
  {
    |got| == |ws| && forall i :: 0 <= i < |ws| ==> got[i] == Ok(NumberOf(LowBits(ws[i].value, ws[i].width)))
  }

  lemma ReadBackFirst(got: seq<Result<bytes32, ExceptionKind>>, ws: seq<Write>)
    requires ws != [] && WidthsOk(ws) && ReadBack(got, ws[1..])
    ensures ReadBack([Ok(NumberOf(LowBits(ws[0].value, ws[0].width)))] + got, ws)
  {
    hide NumberOf, LowBits;
  }

  /** Reading after some other bits. */
  lemma {:induction false} ReadsReturnWritesAfter(before: Bits, ws: seq<Write>)
    requires WidthsOk(ws)
    ensures ReadBack(ReadAll(Pack(before + Written(ws)), |before|, ws), ws)
    decreases |ws|
  {
    hide ReadAt, Pack, LowBits, NumberOf;
    if ws != [] {
      var first, rest := LowBits(ws[0].value, ws[0].width), Written(ws[1..]);
      WidthOfLowBits(ws[0].value, ws[0].width);
      assert before + (first + rest) == before + first + rest;
      ReadsWhatIsThere(before, first, rest);
      ReadsReturnWritesAfter(before + first, ws[1..]);
      hide ReadBack;
      ReadBackFirst(ReadAll(Pack(before + Written(ws)), |before| + |first|, ws[1..]), ws);
    }
  }

  /** Whatever was written is read back, in order, each value cut to its width. */
  lemma ReadsReturnWrites(ws: seq<Write>)
    requires WidthsOk(ws)
    ensures ReadBack(ReadAll(Pack(Written(ws)), 0, ws), ws)
  {
    assert [] + Written(ws) == Written(ws);
    ReadsReturnWritesAfter([], ws);
  }

  lemma {:induction false} WrittenOneMore(ws: seq<Write>, w: Write)
    requires WidthsOk(ws) && w.width <= 256
    ensures WidthsOk(ws + [w]) && Written(ws + [w]) == Written(ws) + LowBits(w.value, w.width)
  {
    if ws == [] {
      assert ws + [w] == [w];
    } else {
      assert (ws + [w])[1..] == ws[1..] + [w];
      WrittenOneMore(ws[1..], w);
    }
  }

  /** What is read next of what was written. */
  lemma ReadNext(ws: seq<Write>, i: nat)
    requires WidthsOk(ws) && i < |ws|
    ensures ReadAt(Pack(Written(ws)), |Written(ws[..i])|, ws[i].width)
      == Ok(NumberOf(LowBits(ws[i].value, ws[i].width)))
    ensures |Written(ws[..i + 1])| == |Written(ws[..i])| + ws[i].width
  {
    hide Pack, ReadAt, NumberOf;
    var low := LowBits(ws[i].value, ws[i].width);
    WrittenInParts(ws[..i], ws[i..]);
    assert ws[..i] + ws[i..] == ws && ws[i..][1..] == ws[i + 1..];
    var before, after := Written(ws[..i]), Written(ws[i + 1..]);
    assert Written(ws) == before + low + after;
    ReadsWhatIsThere(before, low, after);
    assert ws[..i + 1] == ws[..i] + [ws[i]];
    WrittenOneMore(ws[..i], ws[i]);
  }

  lemma {:induction false} WrittenInParts(a: seq<Write>, b: seq<Write>)
    requires WidthsOk(a) && WidthsOk(b)
    ensures WidthsOk(a + b) && Written(a + b) == Written(a) + Written(b)
  {
    hide LowBits, Pack;
    if a == [] {
      assert a + b == b;
    } else {
      assert (a + b)[1..] == a[1..] + b;
      WrittenInParts(a[1..], b);
    }
  }

  lemma NothingWritten(ws: seq<Write>)
    requires WidthsOk(ws)
    ensures ws[..0] == [] && Written(ws[..0]) == []
  {
  }

  lemma WrittenUpTo(ws: seq<Write>, i: nat)
    requires WidthsOk(ws) && i < |ws|
    ensures WidthsOk(ws[..i + 1]) && Written(ws[..i + 1]) == Written(ws[..i]) + LowBits(ws[i].value, ws[i].width)
    ensures |Written(ws[..i])| + ws[i].width <= |Written(ws)|
  {
    hide LowBits, Pack;
    assert ws[..i + 1] == ws[..i] + [ws[i]] && ws[..i + 1] + ws[i + 1..] == ws;
    WrittenOneMore(ws[..i], ws[i]);
    WrittenInParts(ws[..i + 1], ws[i + 1..]);
  }

  /** What a client does that writes numbers into a cell and reads them back with the same widths: any
      writes that fit come back in order, each number cut to its width. */
  method WriteThenRead(ws: seq<Write>) returns (read: seq<bytes32>)
    requires WidthsOk(ws) && |Written(ws)| <= MAX_BITS
    ensures |read| == |ws|
    ensures forall i :: 0 <= i < |ws| ==> read[i] == NumberOf(LowBits(ws[i].value, ws[i].width))
  {
    hide Pack, LowBits, NumberOf, ReadAt, Written, BitsOf;
    NothingWritten(ws);
    var builder := new Builder();
    for i := 0 to |ws|
      invariant fresh(builder) && builder.Valid() && builder.contents == Written(ws[..i])
    {
      WrittenUpTo(ws, i);
      var stored := builder.AppendBits(ws[i].value, ws[i].width);
      assert stored.Ok?;
    }
    assert ws[..|ws|] == ws;
    var slice := new Slice(builder.data);
    read := [];
    for i := 0 to |ws|
      invariant fresh(slice) && slice.data == Pack(Written(ws)) && slice.bitOffset == |Written(ws[..i])|
      invariant |read| == i && forall j :: 0 <= j < i ==> read[j] == NumberOf(LowBits(ws[j].value, ws[j].width))
    {
      ReadNext(ws, i);
      var loaded := slice.ReadBits(ws[i].width);
      read := read + [loaded.value];
    }
  }
}
