/**
 A sender and a receiver connected by a channel that may lose, reorder and repeat the datagrams of
 both directions (crates/node/onx-networking/src/rldp.rs).
 */
module RldpLinks {
  import opened Wrappers
  import opened Bytes
  import opened RldpFrames
  import opened RldpChunks
  import opened RldpSenders
  import opened RldpReceivers

  datatype Transfer = Transfer(id: bytes32, digest: DigestFunction, payload: seq<byte>, config: Config)

  /**
   data and acks hold everything ever sent.  Nothing is taken out of them, so that a datagram may
   arrive any number of times and in any order, or never.  delivered is the last payload the
   receiver returned, and failed says that one side has returned an error.
   */
  datatype Link = Link(sender: SenderView, receiver: Option<ReceiverView>, data: set<seq<byte>>, acks: set<AckFrame>,
                       delivered: Option<seq<byte>>, failed: bool)

  function Start(t: Transfer): Link
    requires Sendable(t.payload, t.config)
  {
    Link(FreshSender(t.id, t.digest, t.payload, t.config), None, {}, {}, None, false)
  }

  ghost predicate SendStep(l: Link, m: Link) {
    && l.sender.Valid() && CanEmitAll(l.sender.frames, l.sender.NextRound().emitted)
    && var round := l.sender.NextRound();
    && m == l.(sender := l.sender.(cursor := round.cursor),
               data := l.data + set d | d in Datagrams(l.sender.frames, round.emitted))
  }

  /** The receiver that is there, or the one that is opened by the first frame. */
  function ReceiverFor(l: Link, frame: DataFrame): Result<ReceiverView, NetworkError> {
    if l.receiver.Some? then Ok(l.receiver.value) else Opened(frame)
  }

  /** The receiver takes a datagram, and answers it with an acknowledgement unless it fails. */
  ghost predicate ReceiveStep(l: Link, m: Link, wire: seq<byte>, ack: AckFrame, t: Transfer) {
    wire in l.data &&
    match Decode(wire)
    case Err(_) => m == if l.receiver.None? then l.(failed := true) else l
    case Ok(frame) =>
      match ReceiverFor(l, frame)
      case Err(_) => m == l.(failed := true)
      case Ok(before) =>
        if !before.Matches(frame) then m == l.(receiver := Some(before), failed := true)
        else
          var held := before.With(frame);
          match held.Assembled(t.digest)
          case Err(_) => m == l.(receiver := Some(held), failed := true)
          case Ok(result) =>
            var after := held.(ackSeq := NextAckSeq(held.ackSeq));
            && after.Tells(ack)
            && m == l.(receiver := Some(after), acks := l.acks + {ack},
                       delivered := if result.Some? then result else l.delivered)
  }

  ghost predicate AckStep(l: Link, m: Link, ack: AckFrame) {
    && ack in l.acks && l.sender.Valid()
    && match l.sender.AfterAck(ack)
       case Err(_) => m == l.(failed := true)
       case Ok(sender) => m == l.(sender := sender)
  }

  ghost predicate Step(l: Link, m: Link, t: Transfer) {
    || SendStep(l, m)
    || (exists wire, ack :: ReceiveStep(l, m, wire, ack, t))
    || (exists ack :: AckStep(l, m, ack))
  }

  ghost predicate IsRun(run: seq<Link>, t: Transfer) {
    && Sendable(t.payload, t.config) && run != []
    && if |run| == 1 then run[0] == Start(t) else IsRun(run[..|run| - 1], t) && Step(run[|run| - 2], run[|run| - 1], t)
  }

  // ---------- What holds throughout a run ----------

  ghost predicate SenderIsRight(s: SenderView, t: Transfer)
    requires Sendable(t.payload, t.config)
  {
    && s.Valid() && s.transferId == t.id && s.config == t.config
    && s.frames == FramesOf(t.id, t.digest, t.payload, t.config)
  }

  ghost predicate ReceiverIsRight(r: ReceiverView, t: Transfer)
    requires Sendable(t.payload, t.config)
  {
    && r.transferId == t.id && r.digest == t.digest(t.payload) && r.totalSize == |t.payload|
    && r.chunkSize == t.config.chunkSize && r.chunkCount == FrameCount(t.payload, t.config)
    && ChunksOf(t.payload, t.config.chunkSize, r.chunks)
  }

  ghost predicate IsDatagram(d: seq<byte>, t: Transfer)
    requires Sendable(t.payload, t.config)
  {
    exists k: nat :: k < FrameCount(t.payload, t.config) && Encode(FrameOf(t.id, t.digest, t.payload, t.config, k))
      == Ok(d)
  }

  /** Chunk k has arrived. */
  predicate Arrived(receiver: Option<ReceiverView>, k: nat) {
    receiver.Some? && Holds(receiver.value.chunks, k)
  }

  ghost predicate AllArrived(receiver: Option<ReceiverView>, t: Transfer)
    requires Sendable(t.payload, t.config)
  {
    receiver.Some? && HasAll(receiver.value.chunks, FrameCount(t.payload, t.config))
  }

  ghost predicate AckIsRight(ack: AckFrame, receiver: Option<ReceiverView>, t: Transfer)
    requires Sendable(t.payload, t.config)
  {
    && ack.transferId == t.id && |ack.received| == DivCeil(FrameCount(t.payload, t.config), 8)
    && forall k: nat :: k < 8 * |ack.received| && Marks(ack.received, k) ==> Arrived(receiver, k)
  }

  ghost predicate Good(l: Link, t: Transfer)
    requires Sendable(t.payload, t.config)
  {
    && !l.failed && SenderIsRight(l.sender, t)
    && (l.receiver.Some? ==> ReceiverIsRight(l.receiver.value, t))
    && (forall d :: d in l.data ==> IsDatagram(d, t))
    && (forall ack :: ack in l.acks ==> AckIsRight(ack, l.receiver, t))
    && (forall k :: k in l.sender.acknowledged ==> Arrived(l.receiver, k))
    && (l.delivered.Some? ==> l.delivered.value == t.payload)
    && (AllArrived(l.receiver, t) ==> l.delivered.Some?)
  }

  lemma SentIsDatagram(s: SenderView, t: Transfer, emitted: seq<nat>, d: seq<byte>)
    requires Sendable(t.payload, t.config) && SenderIsRight(s, t) && CanEmitAll(s.frames, emitted)
    requires d in Datagrams(s.frames, emitted)
    ensures IsDatagram(d, t)
  {
    var i :| 0 <= i < |emitted| && d == Datagrams(s.frames, emitted)[i];
    assert CanEmit(s.frames, emitted[i]);
    assert Encode(FrameOf(t.id, t.digest, t.payload, t.config, emitted[i])) == Ok(d);
  }

  lemma SendKeepsGood(l: Link, m: Link, t: Transfer)
    requires Sendable(t.payload, t.config) && Good(l, t) && SendStep(l, m)
    ensures Good(m, t)
  {
    var emitted := l.sender.NextRound().emitted;
    CursorMoves(l.sender, l.sender.NextRound().cursor);
    hide IsDatagram, AckIsRight, ReceiverIsRight, Datagrams, SenderView.Valid;
    forall d | d in m.data
      ensures IsDatagram(d, t)
    {
      if d !in l.data {
        SentIsDatagram(l.sender, t, emitted, d);
      }
    }
  }

  /** Taking in a right chunk keeps the receiver right and never ends in an error. */
  lemma IngestIsRight(r: ReceiverView, t: Transfer, k: nat)
    requires Sendable(t.payload, t.config) && ReceiverIsRight(r, t) && k < FrameCount(t.payload, t.config)
    ensures
      var frame := FrameOf(t.id, t.digest, t.payload, t.config, k);
      var held := r.With(frame);
      && r.Matches(frame) && ReceiverIsRight(held, t) && Holds(held.chunks, k)
      && (forall j :: Holds(r.chunks, j) ==> Holds(held.chunks, j))
      && held.Assembled(t.digest)
         == if HasAll(held.chunks, held.chunkCount) then Ok(Some(t.payload)) else Ok(None)
  {
    var held := r.With(FrameOf(t.id, t.digest, t.payload, t.config, k));
    AllWhenEnough(held.chunks, held.chunkCount);
    if HasAll(held.chunks, held.chunkCount) {
      ChunksRebuildPayload(t.payload, t.config.chunkSize, held.chunks);
    }
  }

  function Keys(n: u16): (r: set<u16>)
    ensures |r| == n && forall k: u16 :: k in r <==> k < n
  {
    if n == 0 then {} else
      var last: u16 := n - 1;
      Keys(last) + {last}
  }

  /** As many chunks as there are numbers means all of them. */
  lemma AllWhenEnough(chunks: map<u16, seq<byte>>, n: u16)
    requires forall k: u16 :: k in chunks ==> k < n
    ensures |chunks| == n <==> HasAll(chunks, n)
  {
    assert |chunks| == |chunks.Keys|;
    FullSubset(chunks.Keys, Keys(n));
    if HasAll(chunks, n) {
      assert chunks.Keys == Keys(n);
    }
  }

  /** What a receiver becomes by taking in the frame with number k and answering it. */
  function Answered(r: ReceiverView, t: Transfer, k: nat): ReceiverView
    requires Sendable(t.payload, t.config) && k < FrameCount(t.payload, t.config)
  {
    var held := r.With(FrameOf(t.id, t.digest, t.payload, t.config, k));
    held.(ackSeq := NextAckSeq(held.ackSeq))
  }

  ghost predicate Keeps(before: Option<ReceiverView>, after: Option<ReceiverView>) {
    forall k: nat :: Arrived(before, k) ==> Arrived(after, k)
  }

  /** Every datagram of the channel is answered in the same way. */
  lemma ReceiveOutcome(l: Link, m: Link, wire: seq<byte>, ack: AckFrame, t: Transfer) returns (after: ReceiverView)
    requires Sendable(t.payload, t.config) && Good(l, t) && ReceiveStep(l, m, wire, ack, t)
    ensures ReceiverIsRight(after, t) && after.Tells(ack) && Keeps(l.receiver, Some(after))
    ensures after.ackSeq == NextAckSeq(if l.receiver.Some? then l.receiver.value.ackSeq else 0)
    ensures m == l.(receiver := Some(after), acks := l.acks + {ack},
                    delivered := if AllArrived(Some(after), t) then Some(t.payload) else l.delivered)
  {
    assert IsDatagram(wire, t);
    var k: nat :| k < FrameCount(t.payload, t.config) && Encode(FrameOf(t.id, t.digest, t.payload, t.config, k))
      == Ok(wire);
    var frame := FrameOf(t.id, t.digest, t.payload, t.config, k);
    FrameRoundTrip(frame);
    var before := ReceiverFor(l, frame).value;
    IngestIsRight(before, t, k);
    after := Answered(before, t, k);
    forall j: nat | Arrived(l.receiver, j)
      ensures Arrived(Some(after), j)
    {
      assert Holds(before.chunks, j);
    }
  }

  lemma AckStaysRight(ack: AckFrame, before: Option<ReceiverView>, after: Option<ReceiverView>, t: Transfer)
    requires Sendable(t.payload, t.config) && AckIsRight(ack, before, t) && Keeps(before, after)
    ensures AckIsRight(ack, after, t)
  {
  }

  lemma NewAckIsRight(ack: AckFrame, after: ReceiverView, t: Transfer)
    requires Sendable(t.payload, t.config) && ReceiverIsRight(after, t) && after.Tells(ack)
    ensures AckIsRight(ack, Some(after), t)
  {
  }

  lemma ReceiveKeepsGood(l: Link, m: Link, wire: seq<byte>, ack: AckFrame, t: Transfer)
    requires Sendable(t.payload, t.config) && Good(l, t) && ReceiveStep(l, m, wire, ack, t)
    ensures Good(m, t)
  {
    var after := ReceiveOutcome(l, m, wire, ack, t);
    NewAckIsRight(ack, after, t);
    hide AckIsRight, ReceiveStep, ReceiverIsRight, SenderIsRight, IsDatagram;
    forall a | a in m.acks
      ensures AckIsRight(a, m.receiver, t)
    {
      if a in l.acks {
        AckStaysRight(a, l.receiver, m.receiver, t);
      }
    }
  }

  lemma AckKeepsGood(l: Link, m: Link, ack: AckFrame, t: Transfer)
    requires Sendable(t.payload, t.config) && Good(l, t) && AckStep(l, m, ack)
    ensures Good(m, t)
  {
    assert AckIsRight(ack, l.receiver, t);
    MaskCovers(|l.sender.frames|);
  }

  lemma StepKeepsGood(l: Link, m: Link, t: Transfer)
    requires Sendable(t.payload, t.config) && Good(l, t) && Step(l, m, t)
    ensures Good(m, t)
  {
    if SendStep(l, m) {
      SendKeepsGood(l, m, t);
    } else if wire, ack :| ReceiveStep(l, m, wire, ack, t) {
      ReceiveKeepsGood(l, m, wire, ack, t);
    } else {
      var ack :| AckStep(l, m, ack);
      AckKeepsGood(l, m, ack, t);
    }
  }

  lemma {:induction false} RunsAreGood(run: seq<Link>, t: Transfer)
    requires IsRun(run, t)
    ensures Good(run[|run| - 1], t)
    decreases |run|
  {
    if |run| == 1 {
      NothingArrivedYet(t);
    } else {
      RunsAreGood(run[..|run| - 1], t);
      StepKeepsGood(run[|run| - 2], run[|run| - 1], t);
    }
  }

  lemma NothingArrivedYet(t: Transfer)
    requires Sendable(t.payload, t.config)
    ensures Good(Start(t), t)
  {
  }

  /**
   Whatever the channel does: no side fails, only chunks that arrived are acknowledged, the receiver
   returns nothing but the payload, and it has returned it when the sender is complete.
   */
  lemma TransferIsSafe(run: seq<Link>, t: Transfer)
    requires IsRun(run, t)
    ensures
      var l := run[|run| - 1];
      && !l.failed
      && (forall k :: k in l.sender.acknowledged ==> Arrived(l.receiver, k))
      && (l.delivered.None? || l.delivered == Some(t.payload))
      && (l.sender.Complete() ==> AllArrived(l.receiver, t) && l.delivered == Some(t.payload))
  {
    RunsAreGood(run, t);
    var l := run[|run| - 1];
    if l.sender.Complete() {
      CompleteMeansAll(l.sender);
      assert 0 in l.sender.acknowledged;
      forall k: u16 | k < FrameCount(t.payload, t.config)
        ensures k in l.receiver.value.chunks
      {
        assert k in l.sender.acknowledged;
        assert Arrived(l.receiver, k);
      }
    }
  }

  // ---------- How a transfer ends ----------

  /** Acknowledgements are numbered upwards as long as the counter does not wrap. */
  ghost predicate Numbered(l: Link, steps: nat) {
    && (l.receiver.None? ==> l.acks == {} && l.sender.lastAckSeq == 0)
    && (l.receiver.Some? ==> l.sender.lastAckSeq <= l.receiver.value.ackSeq <= steps)
    && (l.receiver.Some? ==> forall ack :: ack in l.acks ==> ack.ackSeq <= l.receiver.value.ackSeq)
  }

  lemma ReceivedIsNumbered(l: Link, m: Link, wire: seq<byte>, ack: AckFrame, t: Transfer, steps: nat)
    requires Sendable(t.payload, t.config) && Good(l, t) && Numbered(l, steps) && steps < U32_MAX
    requires ReceiveStep(l, m, wire, ack, t)
    ensures Numbered(m, steps + 1)
  {
    var after := ReceiveOutcome(l, m, wire, ack, t);
  }

  lemma AckedIsNumbered(l: Link, m: Link, ack: AckFrame, steps: nat)
    requires Numbered(l, steps) && AckStep(l, m, ack)
    ensures Numbered(m, steps + 1)
  {
  }

  lemma StepKeepsNumbered(l: Link, m: Link, t: Transfer, steps: nat)
    requires Sendable(t.payload, t.config) && Good(l, t) && Step(l, m, t) && Numbered(l, steps) && steps < U32_MAX
    ensures Numbered(m, steps + 1)
  {
    hide Good, ReceiveStep, AckStep, Sendable;
    if SendStep(l, m) {
    } else if wire, ack :| ReceiveStep(l, m, wire, ack, t) {
      ReceivedIsNumbered(l, m, wire, ack, t, steps);
    } else {
      var ack :| AckStep(l, m, ack);
      AckedIsNumbered(l, m, ack, steps);
    }
  }

  lemma {:induction false} RunsAreNumbered(run: seq<Link>, t: Transfer)
    requires IsRun(run, t) && |run| <= U32_MAX
    ensures Numbered(run[|run| - 1], |run| - 1)
    decreases |run|
  {
    if |run| > 1 {
      RunsAreGood(run[..|run| - 1], t);
      RunsAreNumbered(run[..|run| - 1], t);
      hide Step, Good;
      StepKeepsNumbered(run[|run| - 2], run[|run| - 1], t, |run| - 2);
    }
  }

  /** An acknowledgement of all chunks that is newer than the last one makes the sender complete. */
  lemma FullAckCompletes(s: SenderView, r: ReceiverView, ack: AckFrame, t: Transfer)
    requires Sendable(t.payload, t.config) && SenderIsRight(s, t) && ReceiverIsRight(r, t) && AllArrived(Some(r), t)
    requires r.Tells(ack) && ack.ackSeq > s.lastAckSeq
    ensures s.AfterAck(ack).Ok? && s.AfterAck(ack).value.Valid() && s.AfterAck(ack).value.Complete()
  {
    MaskCovers(|s.frames|);
    AckKeepsValid(s, ack);
    var after := s.AfterAck(ack).value;
    forall k: nat | k < |s.frames|
      ensures k in after.acknowledged
    {
      var c: u16 := k;
      assert c in r.chunks && Holds(r.chunks, k) && Marks(ack.received, k);
    }
    CompleteMeansAll(after);
  }

  /**
   Once all chunks have arrived, in a run of fewer steps than the counter of acknowledgements holds, one more datagram
   that gets through, with its acknowledgement, completes the sender.
   */
  lemma TransferCompletes(run: seq<Link>, t: Transfer, wire: seq<byte>, ack: AckFrame, answered: Link, last: Link)
    requires IsRun(run, t) && |run| < U32_MAX && AllArrived(run[|run| - 1].receiver, t)
    requires ReceiveStep(run[|run| - 1], answered, wire, ack, t) && AckStep(answered, last, ack)
    ensures !last.failed && last.sender.Valid() && last.sender.Complete()
  {
    var l := run[|run| - 1];
    RunsAreGood(run, t);
    RunsAreNumbered(run, t);
    ReceiveKeepsGood(l, answered, wire, ack, t);
    var after := ReceiveOutcome(l, answered, wire, ack, t);
    AllStayArrived(l.receiver, after, t);
    FullAckCompletes(answered.sender, after, ack, t);
  }

  lemma AllStayArrived(before: Option<ReceiverView>, after: ReceiverView, t: Transfer)
    requires Sendable(t.payload, t.config) && AllArrived(before, t) && Keeps(before, Some(after))
    ensures AllArrived(Some(after), t)
  {
    forall k: u16 | k < FrameCount(t.payload, t.config)
      ensures k in after.chunks
    {
      assert Arrived(before, k);
    }
  }

  /** An acknowledgement that tells what a receiver with all chunks holds completes the sender of any run, if it is
      newer than the last one the sender took. */
  lemma NewFullAckCompletes(run: seq<Link>, t: Transfer, ack: AckFrame)
    requires IsRun(run, t) && AllArrived(run[|run| - 1].receiver, t)
    requires run[|run| - 1].receiver.value.Tells(ack) && ack.ackSeq > run[|run| - 1].sender.lastAckSeq
    ensures run[|run| - 1].sender.Valid() && run[|run| - 1].sender.AfterAck(ack).Ok?
    ensures run[|run| - 1].sender.AfterAck(ack).value.Valid() && run[|run| - 1].sender.AfterAck(ack).value.Complete()
  {
    RunsAreGood(run, t);
    FullAckCompletes(run[|run| - 1].sender, run[|run| - 1].receiver.value, ack, t);
  }
}
