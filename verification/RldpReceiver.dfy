/** The receiving side of a transfer (crates/node/onx-networking/src/rldp.rs). */
module RldpReceivers {
  import opened Wrappers
  import opened Bytes
  import opened RldpFrames
  import opened RldpChunks
  import opened RldpSenders

  /** Chunk k is held. */
  predicate Holds(chunks: map<u16, seq<byte>>, k: nat) {
    k < 0x1_0000 && (var c: u16 := k; c in chunks)
  }

  /** What a receiver knows of its transfer. */
  datatype ReceiverView = ReceiverView(transferId: bytes32, digest: bytes32, totalSize: nat, chunkSize: nat,
                                       chunkCount: u16, chunks: map<u16, seq<byte>>, ackSeq: u32)
  {
    predicate Matches(frame: DataFrame) {
      && frame.transferId == transferId && frame.digest == digest && frame.totalSize == totalSize
      && frame.chunkSize == chunkSize && frame.chunkCount == chunkCount
    }

    /** A chunk that is already held is kept. */
    function With(frame: DataFrame): ReceiverView {
      this.(chunks := if frame.seqNo in chunks then chunks else chunks[frame.seqNo := frame.data])
    }

    /** The payload, once all chunks are there and their digest is right. */
    function Assembled(digestOf: DigestFunction): Result<Option<seq<byte>>, NetworkError> {
      if |chunks| != chunkCount then Ok(None)
      else if !HasAll(chunks, chunkCount) then Err(MalformedFrame)
      else
        var payload := Truncated(Joined(chunks, chunkCount), totalSize);
        if digestOf(payload) != digest then Err(DigestMismatch) else Ok(Some(payload))
    }

    /** The mask tells exactly which chunks are held. */
    predicate Tells(ack: AckFrame) {
      && ack.transferId == transferId && ack.ackSeq == ackSeq && |ack.received| == DivCeil(chunkCount, 8)
      && forall k: nat :: k < 8 * |ack.received| ==> (Marks(ack.received, k) <==> Holds(chunks, k))
    }

    predicate KeysInRange() {
      forall k: u16 :: k in chunks ==> k < chunkCount
    }

    /** Every chunk number has its byte in the mask. */
    predicate KeysInMask() {
      forall k: u16 :: k in chunks ==> k / 8 < DivCeil(chunkCount, 8)
    }
  }

  function Opened(frame: DataFrame): Result<ReceiverView, NetworkError> {
    if ValidDimensions(frame.totalSize, frame.chunkSize, frame.chunkCount)
    then Ok(ReceiverView(frame.transferId, frame.digest, frame.totalSize, frame.chunkSize, frame.chunkCount, map[], 0))
    else Err(MalformedFrame)
  }

  function NextAckSeq(seqNo: u32): u32 {
    if seqNo == U32_MAX then 0 else seqNo + 1
  }

  /** The bits of a byte counted from the least significant one. */
  lemma MarkingOne(mask: seq<byte>, at: nat, k: nat)
    requires at < 8 * |mask| && k < 8 * |mask|
    ensures Marks(mask[at / 8 := mask[at / 8] | Mask(7 - at % 8)], k) <==> k == at || Marks(mask, k)
  {
    SettingOneBit(mask[at / 8], 7 - at % 8, 7 - k % 8);
  }

  lemma NoMarks(n: nat, k: nat)
    requires k < 8 * n
    ensures !Marks(Zeros(n), k)
  {
  }

  lemma RangeIsInMask(view: ReceiverView)
    requires view.KeysInRange()
    ensures view.KeysInMask()
  {
    MaskCovers(view.chunkCount);
  }

  class RldpReceiver {
    const digestOf: DigestFunction
    var transferId: bytes32
    var digest: bytes32
    var totalSize: nat
    var chunkSize: nat
    var chunkCount: u16
    var chunks: map<u16, seq<byte>>
    var ackSeq: u32

    ghost function View(): ReceiverView
      reads this
    {
      ReceiverView(transferId, digest, totalSize, chunkSize, chunkCount, chunks, ackSeq)
    }

    constructor (digestOf: DigestFunction, frame: DataFrame)
      ensures View() == ReceiverView(frame.transferId, frame.digest, frame.totalSize, frame.chunkSize, frame.chunkCount,
        map[], 0)
      ensures this.digestOf == digestOf
    {
      this.digestOf := digestOf;
      transferId, digest, totalSize := frame.transferId, frame.digest, frame.totalSize;
      chunkSize, chunkCount, chunks, ackSeq := frame.chunkSize, frame.chunkCount, map[], 0;
    }

    static method FromFrame(digestOf: DigestFunction, frame: DataFrame) returns (r: Result<RldpReceiver, NetworkError>)
      ensures r.Ok? <==> Opened(frame).Ok?
      ensures r.Ok? ==> fresh(r.value) && r.value.View() == Opened(frame).value && r.value.digestOf == digestOf
    {
      if !ValidDimensions(frame.totalSize, frame.chunkSize, frame.chunkCount) {
        return Err(MalformedFrame);
      }
      var receiver := new RldpReceiver(digestOf, frame);
      return Ok(receiver);
    }

    /** Stores a chunk; what is returned always has the announced digest. */
    method Ingest(frame: DataFrame) returns (r: Result<Option<seq<byte>>, NetworkError>)
      modifies this`chunks
      ensures !old(View().Matches(frame)) ==> r == Err(MalformedFrame) && View() == old(View())
      ensures old(View().Matches(frame)) ==> View() == old(View().With(frame)) && r == View().Assembled(digestOf)
      ensures r.Ok? && r.value.Some? ==> digestOf(r.value.value) == digest
      ensures old(View().KeysInRange()) && frame.seqNo < frame.chunkCount ==> View().KeysInRange()
    {
      if frame.transferId != transferId || frame.digest != digest || frame.totalSize != totalSize
         || frame.chunkSize != chunkSize || frame.chunkCount != chunkCount {
        return Err(MalformedFrame);
      }
      if frame.seqNo !in chunks {
        chunks := chunks[frame.seqNo := frame.data];
      }
      if |chunks| != chunkCount {
        return Ok(None);
      }
      var payload: seq<byte> := [];
      var next: u16 := 0;
      while next < chunkCount
        invariant next <= chunkCount && HasAll(chunks, next) && payload == Joined(chunks, next)
      {
        if next !in chunks {
          return Err(MalformedFrame);
        }
        payload := payload + chunks[next];
        next := next + 1;
      }
      payload := Truncated(payload, totalSize);
      if digestOf(payload) != digest {
        return Err(DigestMismatch);
      }
      return Ok(Some(payload));
    }

    /** None stands for the panic of a host whose index leaves the mask. */
    method Ack() returns (ack: Option<AckFrame>)
      modifies this`ackSeq
      ensures View() == old(View().(ackSeq := NextAckSeq(ackSeq)))
      ensures ack.Some? <==> View().KeysInMask()
      ensures ack.Some? ==> View().Tells(ack.value)
      ensures old(View().KeysInRange()) ==> ack.Some?
    {
      if View().KeysInRange() {
        RangeIsInMask(View());
      }
      ackSeq := if ackSeq == U32_MAX then 0 else ackSeq + 1;
      var mask := Zeros(DivCeil(chunkCount, 8));
      forall k: nat | k < 8 * |mask|
        ensures !Marks(mask, k)
      {
        NoMarks(|mask|, k);
      }
      var rest := chunks.Keys;
      while rest != {}
        invariant rest <= chunks.Keys && |mask| == DivCeil(chunkCount, 8)
        invariant forall k :: k in chunks && k !in rest ==> k / 8 < |mask|
        invariant forall k: nat :: k < 8 * |mask| ==> (Marks(mask, k) <==> Holds(chunks, k) && k !in rest)
      {
        var at :| at in rest;
        if at / 8 >= |mask| {
          return None;
        }
        ghost var before := mask;
        mask := mask[at / 8 := mask[at / 8] | Mask(7 - at % 8)];
        rest := rest - {at};
        forall k: nat | k < 8 * |mask|
          ensures Marks(mask, k) <==> Holds(chunks, k) && k !in rest
        {
          MarkingOne(before, at, k);
        }
      }
      ack := Some(AckFrame(transferId, ackSeq, mask));
    }
  }
}
