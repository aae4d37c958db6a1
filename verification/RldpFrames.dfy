/** Datagrams of the reliable transfer protocol (crates/node/onx-networking/src/rldp.rs). */
module RldpFrames {
  import opened Wrappers
  import opened Bytes

  datatype NetworkError = MalformedFrame | DigestMismatch

  const DATA_TAG := 0x71d2_b841
  const MAX_TRANSFER_SIZE := 16 * 1024 * 1024
  const DATA_HEADER_LEN := 80

  datatype DataFrame = DataFrame(transferId: bytes32, digest: bytes32, totalSize: u32, chunkSize: u16, chunkCount: u16,
                                 seqNo: u16, data: seq<byte>)

  /** received: one bit for every chunk, least significant first in each byte. */
  datatype AckFrame = AckFrame(transferId: bytes32, ackSeq: u32, received: seq<byte>)

  predicate ValidDimensions(totalSize: nat, chunkSize: nat, chunkCount: nat) {
    && 0 < totalSize <= MAX_TRANSFER_SIZE && chunkSize > 0 && chunkCount > 0
    && DivCeil(totalSize, chunkSize) == chunkCount
  }

  predicate WellFormed(f: DataFrame) {
    ValidDimensions(f.totalSize, f.chunkSize, f.chunkCount) && f.seqNo < f.chunkCount && |f.data| == f.chunkSize
  }

  function Encode(f: DataFrame): Result<seq<byte>, NetworkError> {
    if !WellFormed(f) then Err(MalformedFrame)
    else Ok(BigEndian(DATA_TAG, 4) + f.transferId + f.digest + BigEndian(f.totalSize, 4) + BigEndian(f.chunkSize, 2)
            + BigEndian(f.chunkCount, 2) + BigEndian(f.seqNo, 2) + BigEndian(|f.data|, 2) + f.data)
  }

  function Word(wire: seq<byte>, from: nat, n: nat): nat
    requires from + n <= |wire|
  {
    FromBigEndian(wire[from..from + n])
  }

  function Decode(wire: seq<byte>): Result<DataFrame, NetworkError> {
    if |wire| < DATA_HEADER_LEN || Word(wire, 0, 4) != DATA_TAG then Err(MalformedFrame)
    else
      WordsFit(wire);
      var totalSize, chunkSize, chunkCount := Word(wire, 68, 4), Word(wire, 72, 2), Word(wire, 74, 2);
      var seqNo, dataLen := Word(wire, 76, 2), Word(wire, 78, 2);
      if !ValidDimensions(totalSize, chunkSize, chunkCount) || seqNo >= chunkCount || dataLen != chunkSize
         || |wire| != DATA_HEADER_LEN + dataLen then Err(MalformedFrame)
      else Ok(DataFrame(wire[4..36], wire[36..68], totalSize, chunkSize, chunkCount, seqNo, wire[80..]))
  }

  lemma WordsFit(wire: seq<byte>)
    requires |wire| >= DATA_HEADER_LEN
    ensures Word(wire, 68, 4) <= U32_MAX
    ensures Word(wire, 72, 2) < 0x1_0000 && Word(wire, 74, 2) < 0x1_0000 && Word(wire, 76, 2) < 0x1_0000
  {
    Pow256Values();
    FromBigEndianRoundTrip(wire[68..72]);
    FromBigEndianRoundTrip(wire[72..74]);
    FromBigEndianRoundTrip(wire[74..76]);
    FromBigEndianRoundTrip(wire[76..78]);
  }

  /** A field of a datagram, between what comes before it and what comes after it. */
  lemma FieldRead(before: seq<byte>, v: nat, n: nat, after: seq<byte>)
    requires v < Pow256(n)
    ensures Word(before + BigEndian(v, n) + after, |before|, n) == v
  {
    var wire := before + BigEndian(v, n) + after;
    assert wire[|before|..|before| + n] == BigEndian(v, n);
    BigEndianRoundTrip(v, n);
  }

  function Header(f: DataFrame): seq<byte> {
    BigEndian(DATA_TAG, 4) + f.transferId + f.digest + BigEndian(f.totalSize, 4) + BigEndian(f.chunkSize, 2)
    + BigEndian(f.chunkCount, 2) + BigEndian(f.seqNo, 2)
  }

  /** A field of fixed width is found where its predecessors end. */
  lemma FieldAt(wire: seq<byte>, head: seq<byte>, from: nat, v: nat, n: nat)
    requires from + n <= |head| <= |wire| && wire[..|head|] == head
    requires head[from..from + n] == BigEndian(v, n) && v < Pow256(n)
    ensures Word(wire, from, n) == v
  {
    BigEndianRoundTrip(v, n);
    assert wire[from..from + n] == head[from..from + n];
  }

  lemma HeaderCut(a: seq<byte>, b: seq<byte>, c: seq<byte>, d: seq<byte>, e: seq<byte>, g: seq<byte>, k: seq<byte>)
    requires |a| == 4 && |b| == 32 && |c| == 32 && |d| == 4 && |e| == 2 && |g| == 2 && |k| == 2
    ensures
      var h := a + b + c + d + e + g + k;
      && |h| == 78 && h[0..4] == a && h[4..36] == b && h[36..68] == c
      && h[68..72] == d && h[72..74] == e && h[74..76] == g && h[76..78] == k
  {
  }

  /** The header is where Decode looks for it. */
  lemma HeaderRead(f: DataFrame, wire: seq<byte>)
    requires |wire| >= 78 && wire[..78] == Header(f)
    ensures Word(wire, 0, 4) == DATA_TAG && wire[4..36] == f.transferId && wire[36..68] == f.digest
    ensures Word(wire, 68, 4) == f.totalSize && Word(wire, 72, 2) == f.chunkSize
    ensures Word(wire, 74, 2) == f.chunkCount && Word(wire, 76, 2) == f.seqNo
  {
    Pow256Values();
    HeaderCut(BigEndian(DATA_TAG, 4), f.transferId, f.digest, BigEndian(f.totalSize, 4), BigEndian(f.chunkSize, 2),
              BigEndian(f.chunkCount, 2), BigEndian(f.seqNo, 2));
    var h := Header(f);
    assert wire[4..36] == h[4..36] && wire[36..68] == h[36..68];
    FieldAt(wire, h, 0, DATA_TAG, 4);
    FieldAt(wire, h, 68, f.totalSize, 4);
    FieldAt(wire, h, 72, f.chunkSize, 2);
    FieldAt(wire, h, 74, f.chunkCount, 2);
    FieldAt(wire, h, 76, f.seqNo, 2);
  }

  /** What is decoded from an encoded frame is that frame. */
  lemma FrameRoundTrip(f: DataFrame)
    requires WellFormed(f)
    ensures Encode(f).Ok? && Decode(Encode(f).value) == Ok(f)
  {
    var wire := Encode(f).value;
    Pow256Values();
    assert wire == Header(f) + BigEndian(|f.data|, 2) + f.data;
    HeaderRead(f, wire);
    FieldRead(Header(f), |f.data|, 2, f.data);
    assert wire[80..] == f.data;
  }

  lemma WireJoin(wire: seq<byte>)
    requires |wire| >= 80
    ensures wire[0..4] + wire[4..36] + wire[36..68] + wire[68..72] + wire[72..74] + wire[74..76] + wire[76..78]
            + wire[78..80] + wire[80..] == wire
  {
    var a := wire[0..4] + wire[4..36] + wire[36..68];
    assert a == wire[..68];
    var b := a + wire[68..72] + wire[72..74];
    assert b == wire[..74];
    var c := b + wire[74..76] + wire[76..78] + wire[78..80];
    assert c == wire[..80];
  }

  lemma WordWritten(wire: seq<byte>, from: nat, n: nat)
    requires from + n <= |wire|
    ensures BigEndian(Word(wire, from, n), n) == wire[from..from + n]
  {
    FromBigEndianRoundTrip(wire[from..from + n]);
  }

  /** Only one datagram decodes to a frame, and the frame is well formed. */
  lemma DatagramIsCanonical(wire: seq<byte>)
    requires Decode(wire).Ok?
    ensures WellFormed(Decode(wire).value) && Encode(Decode(wire).value) == Ok(wire)
  {
    var f := Decode(wire).value;
    WordsFit(wire);
    WordWritten(wire, 0, 4);
    WordWritten(wire, 68, 4);
    WordWritten(wire, 72, 2);
    WordWritten(wire, 74, 2);
    WordWritten(wire, 76, 2);
    WordWritten(wire, 78, 2);
    WireJoin(wire);
  }
}
