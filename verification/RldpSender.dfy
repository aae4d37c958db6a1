/**
 The sending side of a transfer (crates/node/onx-networking/src/rldp.rs).
 The payload digest is an arbitrary function.
 */
module RldpSenders {
  import opened Wrappers
  import opened Bytes
  import opened Modular
  import opened RldpFrames
  import opened RldpChunks

  type DigestFunction = seq<byte> -> bytes32

  datatype Config = Config(chunkSize: nat, redundancy: nat, packetsPerRound: nat, maxRounds: nat)

  /** The payloads and configurations a sender accepts. */
  predicate Sendable(payload: seq<byte>, config: Config) {
    && 0 < |payload| <= MAX_TRANSFER_SIZE
    && 0 < config.chunkSize <= 0xFFFF && config.redundancy > 0 && config.packetsPerRound > 0
    && DivCeil(|payload|, config.chunkSize) <= 0xFFFF
  }

  function FrameCount(payload: seq<byte>, config: Config): (n: u16)
    requires Sendable(payload, config)
    ensures n > 0
  {
    DivCeilBounds(|payload|, config.chunkSize);
    DivCeil(|payload|, config.chunkSize)
  }

  function FrameOf(id: bytes32, digest: DigestFunction, payload: seq<byte>, config: Config, k: nat): (f: DataFrame)
    requires Sendable(payload, config) && k < FrameCount(payload, config)
    ensures WellFormed(f) && f.seqNo == k && IsChunk(payload, config.chunkSize, k, f.data)
  {
    DataFrame(id, digest(payload), |payload|, config.chunkSize, FrameCount(payload, config), k,
              Chunk(payload, config.chunkSize, k))
  }

  function FramesOf(id: bytes32, digest: DigestFunction, payload: seq<byte>, config: Config): (s: seq<DataFrame>)
    requires Sendable(payload, config)
    ensures |s| == FrameCount(payload, config)
    ensures forall k :: 0 <= k < |s| ==> s[k] == FrameOf(id, digest, payload, config, k)
  {
    seq(FrameCount(payload, config), k requires 0 <= k < FrameCount(payload, config) => FrameOf(id, digest, payload,
      config, k))
  }

  // ---------- One round ----------

  /** The frames of one round, with repetitions, and the place where the next round goes on. */
  datatype Round = Round(emitted: seq<nat>, cursor: nat)

  /** The place after the cursor on a circle of n places. */
  function Following(cursor: nat, n: nat): nat
    requires n > 0
  {
    (cursor + 1) % n
  }

  function Copies(k: nat, times: nat): seq<nat> {
    seq(times, _ => k)
  }

  /**
   The round that may still look at left of n frames and emit room packets.  A frame that is not
   acknowledged is repeated redundancy times, or as often as there is room.
   */
  function RoundFrom(n: nat, acknowledged: set<nat>, redundancy: nat, cursor: nat, left: nat, room: nat): (r: Round)
    requires cursor < n
    ensures r.cursor < n
    decreases left
  {
    if left == 0 || room == 0 then Round([], cursor)
    else
      NextOnCircle(cursor, n);
      var next := Following(cursor, n);
      if cursor in acknowledged then RoundFrom(n, acknowledged, redundancy, next, left - 1, room)
      else
        var copies := Min(redundancy, room);
        var rest := RoundFrom(n, acknowledged, redundancy, next, left - 1, room - copies);
        Round(Copies(cursor, copies) + rest.emitted, rest.cursor)
  }

  lemma {:induction false} RoundIsBounded(n: nat, acknowledged: set<nat>, redundancy: nat, cursor: nat, left: nat,
      room: nat)
    requires cursor < n
    ensures
      var emitted := RoundFrom(n, acknowledged, redundancy, cursor, left, room).emitted;
      |emitted| <= room && forall k :: k in emitted ==> k < n && k !in acknowledged
    decreases left
  {
    if left > 0 && room > 0 {
      NextOnCircle(cursor, n);
      var next := Following(cursor, n);
      if cursor in acknowledged {
        RoundIsBounded(n, acknowledged, redundancy, next, left - 1, room);
      } else {
        var copies := Min(redundancy, room);
        RoundIsBounded(n, acknowledged, redundancy, next, left - 1, room - copies);
      }
    }
  }

  /** How many places lie between the cursor and frame k. */
  function Distance(n: nat, cursor: nat, k: nat): nat
    requires cursor < n && k < n
  {
    if k >= cursor then k - cursor else k + n - cursor
  }

  /** A round that has room sends a missing frame or comes closer to it. */
  lemma {:induction false} RoundProgress(n: nat, acknowledged: set<nat>, redundancy: nat, cursor: nat, left: nat,
                                         room: nat, k: nat)
    requires cursor < n && k < n && k !in acknowledged && redundancy > 0 && Distance(n, cursor, k) < left
    ensures
      var r := RoundFrom(n, acknowledged, redundancy, cursor, left, room);
      && (k in r.emitted || Distance(n, r.cursor, k) <= Distance(n, cursor, k))
      && (room > 0 ==> k in r.emitted || Distance(n, r.cursor, k) < Distance(n, cursor, k))
    decreases left
  {
    if room > 0 {
      NextOnCircle(cursor, n);
      var next := Following(cursor, n);
      if cursor in acknowledged {
        RoundProgress(n, acknowledged, redundancy, next, left - 1, room, k);
      } else {
        var copies := Min(redundancy, room);
        if cursor == k {
          assert Copies(cursor, copies)[0] == k;
        } else {
          RoundProgress(n, acknowledged, redundancy, next, left - 1, room - copies, k);
        }
      }
    }
  }

  lemma CopiesCount(c: nat, times: nat, k: nat)
    ensures |Copies(c, times)| == times && multiset(Copies(c, times))[k] == if k == c then times else 0
    decreases times
  {
    if times > 0 {
      CopiesCount(c, times - 1, k);
      assert Copies(c, times) == Copies(c, times - 1) + [c];
    }
  }

  lemma NextIsCloser(n: nat, cursor: nat, k: nat)
    requires cursor < n && k < n
    ensures Following(cursor, n) < n
    ensures Distance(n, Following(cursor, n), k) == if k == cursor then n - 1 else Distance(n, cursor, k) - 1
  {
    NextOnCircle(cursor, n);
  }

  lemma SameIsNear(n: nat, cursor: nat, k: nat)
    requires cursor < n && k < n
    ensures Distance(n, cursor, k) == 0 <==> k == cursor
    ensures 0 <= Distance(n, cursor, k) < n
  {
  }

  /** A round looks at the next left frames; it repeats each missing one redundancy times unless it has used up its
       room. */
  lemma {:induction false} RoundRepeats(n: nat, acknowledged: set<nat>, redundancy: nat, cursor: nat, left: nat,
                                        room: nat, k: nat)
    requires cursor < n && k < n && left <= n
    ensures
      var emitted := RoundFrom(n, acknowledged, redundancy, cursor, left, room).emitted;
      && multiset(emitted)[k] <= redundancy
      && (k in acknowledged || Distance(n, cursor, k) >= left ==> multiset(emitted)[k] == 0)
      && (k !in acknowledged && Distance(n, cursor, k) < left && |emitted| < room ==>
         multiset(emitted)[k] == redundancy)
    decreases left
  {
    hide Following, Distance, Copies;
    if left > 0 && room > 0 {
      NextIsCloser(n, cursor, k);
      var next := Following(cursor, n);
      if cursor in acknowledged {
        RoundRepeats(n, acknowledged, redundancy, next, left - 1, room, k);
        SameIsNear(n, cursor, k);
      } else {
        var copies := Min(redundancy, room);
        RoundRepeats(n, acknowledged, redundancy, next, left - 1, room - copies, k);
        CopiesCount(cursor, copies, k);
        SameIsNear(n, cursor, k);
      }
    }
  }

  function FullRound(n: nat, acknowledged: set<nat>, config: Config, cursor: nat): Round
    requires cursor < n
  {
    RoundFrom(n, acknowledged, config.redundancy, cursor, n, config.packetsPerRound)
  }

  /** Frame k is sent in one of the rounds that start with the given acknowledgements. */
  predicate SentDuring(n: nat, rounds: seq<set<nat>>, config: Config, cursor: nat, k: nat)
    requires cursor < n
    decreases |rounds|
  {
    rounds != [] &&
    var r := FullRound(n, rounds[0], config, cursor);
    k in r.emitted || SentDuring(n, rounds[1..], config, r.cursor, k)
  }

  lemma {:induction false} SentInTime(n: nat, rounds: seq<set<nat>>, config: Config, cursor: nat, k: nat)
    requires cursor < n && k < n && config.redundancy > 0 && config.packetsPerRound > 0
    requires Distance(n, cursor, k) < |rounds| && forall a :: a in rounds ==> k !in a
    ensures SentDuring(n, rounds, config, cursor, k)
    decreases |rounds|
  {
    var r := FullRound(n, rounds[0], config, cursor);
    RoundProgress(n, rounds[0], config.redundancy, cursor, n, config.packetsPerRound, k);
    if k !in r.emitted {
      SentInTime(n, rounds[1..], config, r.cursor, k);
    }
  }

  /** Whatever is acknowledged meanwhile, a frame that stays unacknowledged is sent within n rounds. */
  lemma NoFrameIsForgotten(n: nat, rounds: seq<set<nat>>, config: Config, cursor: nat, k: nat)
    requires cursor < n && k < n && config.redundancy > 0 && config.packetsPerRound > 0
    requires |rounds| == n && forall a :: a in rounds ==> k !in a
    ensures SentDuring(n, rounds, config, cursor, k)
  {
    SentInTime(n, rounds, config, cursor, k);
  }

  // ---------- Acknowledgements ----------

  /** The mask marks chunk k: masks number the bits of a byte from the least significant one. */
  predicate Marks(mask: seq<byte>, k: nat)
    requires k < 8 * |mask|
  {
    Bit(mask[k / 8], 7 - k % 8)
  }

  /** The chunks below n that are marked in the first end bits of the mask. */
  function MarkedBelow(mask: seq<byte>, n: nat, end: nat): set<nat>
    requires n <= 8 * |mask|
  {
    set k: nat | k < n && k < end && Marks(mask, k)
  }

  function MarkedBy(mask: seq<byte>, n: nat): set<nat>
    requires n <= 8 * |mask|
  {
    MarkedBelow(mask, n, 8 * |mask|)
  }

  lemma NothingMarked(mask: seq<byte>, n: nat)
    requires n <= 8 * |mask|
    ensures MarkedBelow(mask, n, 0) == {}
  {
  }

  lemma OneMoreMark(mask: seq<byte>, n: nat, end: nat)
    requires n <= 8 * |mask|
    ensures MarkedBelow(mask, n, end + 1)
         == MarkedBelow(mask, n, end) + if end < n && Marks(mask, end) then {end} else {}
  {
  }

  lemma MaskCovers(n: nat)
    ensures n <= 8 * DivCeil(n, 8) < n + 8
  {
  }

  /** After an acknowledgement of n frames the former frames are acknowledged, and those whose bit is set: that of
      frame k is bit k % 8 of byte k / 8, counted from the least significant one. */
  ghost predicate Acknowledges(n: nat, before: set<nat>, mask: seq<byte>, after: set<nat>) {
    && n <= 8 * |mask|
    && (forall k: nat :: k < n ==> (k in after <==> k in before || mask[k / 8] & ((1 as byte) << (k % 8)) != 0))
    && (forall k :: k in after && k >= n ==> k in before)
  }

  lemma MarkIsSetBit(mask: seq<byte>, k: nat)
    requires k < 8 * |mask|
    ensures Marks(mask, k) <==> mask[k / 8] & ((1 as byte) << (k % 8)) != 0
  {
    BitFromBelow(mask[k / 8], k % 8);
  }

  lemma MarksAreAcknowledged(n: nat, before: set<nat>, mask: seq<byte>)
    requires |mask| == DivCeil(n, 8)
    ensures n <= 8 * |mask| && Acknowledges(n, before, mask, before + MarkedBy(mask, n))
  {
    MaskCovers(n);
    forall k: nat | k < n
      ensures k in before + MarkedBy(mask, n) <==> k in before || mask[k / 8] & ((1 as byte) << (k % 8)) != 0
    {
      MarkIsSetBit(mask, k);
    }
  }

  /** What a sender knows of its transfer. */
  datatype SenderView = SenderView(frames: seq<DataFrame>, transferId: bytes32, acknowledged: set<nat>, lastAckSeq: u32,
                                   config: Config, cursor: nat)
  {
    predicate Valid() {
      && cursor < |frames| <= 0xFFFF && config.redundancy > 0 && config.packetsPerRound > 0
      && (forall k :: 0 <= k < |frames| ==> WellFormed(frames[k]) && frames[k].seqNo == k)
      && (forall k :: k in acknowledged ==> k < |frames|)
    }

    predicate Complete() {
      |acknowledged| == |frames|
    }

    function NextRound(): Round
      requires Valid()
    {
      FullRound(|frames|, acknowledged, config, cursor)
    }

    function AfterAck(ack: AckFrame): Result<SenderView, NetworkError>
      requires Valid()
    {
      if ack.transferId != transferId || ack.ackSeq <= lastAckSeq then Ok(this)
      else if |ack.received| != DivCeil(|frames|, 8) then Err(MalformedFrame)
      else
        MaskCovers(|frames|);
        Ok(this.(lastAckSeq := ack.ackSeq, acknowledged := acknowledged + MarkedBy(ack.received, |frames|)))
    }
  }

  function FreshSender(id: bytes32, digest: DigestFunction, payload: seq<byte>, config: Config): SenderView
    requires Sendable(payload, config)
  {
    SenderView(FramesOf(id, digest, payload, config), id, {}, 0, config, 0)
  }

  predicate CanEmit(frames: seq<DataFrame>, k: nat) {
    k < |frames| && WellFormed(frames[k])
  }

  predicate CanEmitAll(frames: seq<DataFrame>, emitted: seq<nat>) {
    forall i :: 0 <= i < |emitted| ==> CanEmit(frames, emitted[i])
  }

  /** The datagrams of the frames with the given numbers. */
  function Datagrams(frames: seq<DataFrame>, emitted: seq<nat>): (s: seq<seq<byte>>)
    requires CanEmitAll(frames, emitted)
    ensures |s| == |emitted|
  {
    seq(|emitted|, i requires 0 <= i < |emitted| => Encode(frames[emitted[i]]).value)
  }

  /** The frames of a round are there to be sent. */
  lemma RoundCanEmit(s: SenderView)
    requires s.Valid()
    ensures CanEmitAll(s.frames, s.NextRound().emitted) && |s.NextRound().emitted| <= s.config.packetsPerRound
  {
    RoundIsBounded(|s.frames|, s.acknowledged, s.config.redundancy, s.cursor, |s.frames|, s.config.packetsPerRound);
    var emitted := s.NextRound().emitted;
    forall i | 0 <= i < |emitted|
      ensures CanEmit(s.frames, emitted[i])
    {
      assert emitted[i] in emitted;
    }
  }

  function Range(n: nat): (r: set<nat>)
    ensures |r| == n && forall k: nat :: k in r <==> k < n
  {
    if n == 0 then {} else Range(n - 1) + {n - 1}
  }

  lemma FullSubset<T>(a: set<T>, b: set<T>)
    requires a <= b
    ensures |a| == |b| <==> a == b
  {
    assert |b - a| == |b| - |a|;
  }

  /** Everything is acknowledged exactly when no frame is missing. */
  lemma CompleteMeansAll(s: SenderView)
    requires s.Valid()
    ensures s.Complete() <==> forall k :: 0 <= k < |s.frames| ==> k in s.acknowledged
  {
    var all := Range(|s.frames|);
    assert s.acknowledged <= all;
    FullSubset(s.acknowledged, all);
    if forall k :: 0 <= k < |s.frames| ==> k in s.acknowledged {
      assert s.acknowledged == all;
    }
  }

  /** The whole round is what was sent so far and what is still to come. */
  predicate SoFar(target: Round, emitted: seq<nat>, rest: Round) {
    target.emitted == emitted + rest.emitted && target.cursor == rest.cursor
  }

  lemma SkipOne(n: nat, acknowledged: set<nat>, redundancy: nat, cursor: nat, left: nat, room: nat, target: Round,
      emitted: seq<nat>)
    requires cursor < n && left > 0 && room > 0 && cursor in acknowledged
    requires SoFar(target, emitted, RoundFrom(n, acknowledged, redundancy, cursor, left, room))
    ensures Following(cursor, n) < n
    ensures SoFar(target, emitted, RoundFrom(n, acknowledged, redundancy, Following(cursor, n), left - 1, room))
  {
    NextOnCircle(cursor, n);
  }

  lemma SendOne(n: nat, acknowledged: set<nat>, redundancy: nat, cursor: nat, left: nat, room: nat, target: Round,
      emitted: seq<nat>)
    requires cursor < n && left > 0 && room > 0 && cursor !in acknowledged
    requires SoFar(target, emitted, RoundFrom(n, acknowledged, redundancy, cursor, left, room))
    ensures Following(cursor, n) < n
    ensures
      var copies := Min(redundancy, room);
      SoFar(target, emitted + Copies(cursor, copies),
            RoundFrom(n, acknowledged, redundancy, Following(cursor, n), left - 1, room - copies))
  {
    NextOnCircle(cursor, n);
    var copies := Min(redundancy, room);
    var rest := RoundFrom(n, acknowledged, redundancy, Following(cursor, n), left - 1, room - copies);
    assert emitted + (Copies(cursor, copies) + rest.emitted) == (emitted + Copies(cursor, copies)) + rest.emitted;
  }

  lemma RoundBegins(s: SenderView)
    requires s.Valid()
    ensures SoFar(s.NextRound(), [], RoundFrom(|s.frames|, s.acknowledged, s.config.redundancy, s.cursor, |s.frames|,
                                               s.config.packetsPerRound))
    ensures CanEmitAll(s.frames, []) && Datagrams(s.frames, []) == []
  {
  }

  lemma RoundEnds(n: nat, acknowledged: set<nat>, redundancy: nat, cursor: nat, left: nat, room: nat, target: Round,
      emitted: seq<nat>)
    requires cursor < n && (left == 0 || room == 0)
    requires SoFar(target, emitted, RoundFrom(n, acknowledged, redundancy, cursor, left, room))
    ensures target == Round(emitted, cursor)
  {
  }

  lemma CursorMoves(s: SenderView, cursor: nat)
    requires s.Valid() && cursor < |s.frames|
    ensures s.(cursor := cursor).Valid()
  {
  }

  lemma AckKeepsValid(s: SenderView, ack: AckFrame)
    requires s.Valid() && s.AfterAck(ack).Ok?
    ensures s.AfterAck(ack).value.Valid()
  {
    MaskCovers(|s.frames|);
  }

  lemma CanEmitFrame(s: SenderView, k: nat)
    requires s.Valid() && k < |s.frames|
    ensures CanEmit(s.frames, k) && s.frames[k].seqNo == k
  {
  }

  lemma CanEmitCopies(frames: seq<DataFrame>, k: nat, times: nat)
    requires CanEmit(frames, k)
    ensures CanEmitAll(frames, Copies(k, times))
  {
  }

  lemma DatagramsJoin(frames: seq<DataFrame>, a: seq<nat>, b: seq<nat>)
    requires CanEmitAll(frames, a) && CanEmitAll(frames, b)
    ensures CanEmitAll(frames, a + b) && Datagrams(frames, a + b) == Datagrams(frames, a) + Datagrams(frames, b)
  {
  }

  class RldpSender {
    var frames: seq<DataFrame>
    var transferId: bytes32
    var acknowledged: set<nat>
    var lastAckSeq: u32
    var config: Config
    var cursor: nat

    ghost function View(): SenderView
      reads this
    {
      SenderView(frames, transferId, acknowledged, lastAckSeq, config, cursor)
    }

    constructor (frames: seq<DataFrame>, transferId: bytes32, config: Config)
      ensures View() == SenderView(frames, transferId, {}, 0, config, 0)
    {
      this.frames, this.transferId, this.config := frames, transferId, config;
      acknowledged, lastAckSeq, cursor := {}, 0, 0;
    }

    static method New(id: bytes32, digest: DigestFunction, payload: seq<byte>, config: Config)
      returns (r: Result<RldpSender, NetworkError>)
      ensures r.Ok? <==> Sendable(payload, config)
      ensures r.Ok? ==>
        fresh(r.value) && r.value.View() == FreshSender(id, digest, payload, config) && r.value.View().Valid()
    {
      if payload == [] || |payload| > MAX_TRANSFER_SIZE || config.chunkSize == 0 || config.chunkSize > 0xFFFF
         || config.redundancy == 0 || config.packetsPerRound == 0 {
        return Err(MalformedFrame);
      }
      var count := DivCeil(|payload|, config.chunkSize);
      if count > 0xFFFF {
        return Err(MalformedFrame);
      }
      var sender := new RldpSender(FramesOf(id, digest, payload, config), id, config);
      return Ok(sender);
    }

    method IsComplete() returns (done: bool)
      requires View().Valid()
      ensures done <==> forall k :: 0 <= k < |frames| ==> k in acknowledged
    {
      CompleteMeansAll(View());
      done := |acknowledged| == |frames|;
    }

    /** Sends what is not acknowledged, from the cursor on, and leaves the cursor behind the last frame looked at. */
    method NextRound() returns (packets: seq<seq<byte>>)
      requires View().Valid()
      modifies this`cursor
      ensures CanEmitAll(frames, old(View().NextRound().emitted))
      ensures packets == Datagrams(frames, old(View().NextRound().emitted))
      ensures |packets| <= config.packetsPerRound
      ensures cursor == old(View().NextRound().cursor) && View().Valid()
    {
      var n := |frames|;
      ghost var target := View().NextRound();
      RoundCanEmit(View());
      RoundBegins(View());
      ghost var start := View();
      hide RoundFrom, SoFar, Datagrams, CanEmitAll, CanEmit, Copies, SenderView.NextRound, SenderView.Valid,
           FullRound, Encode, Following, WellFormed, DivCeil;
      packets := [];
      ghost var emitted: seq<nat> := [];
      var inspected := 0;
      while |packets| < config.packetsPerRound && inspected < n
        invariant inspected <= n && |packets| <= config.packetsPerRound && cursor < n
        invariant SoFar(target, emitted, RoundFrom(n, acknowledged, config.redundancy, cursor, n - inspected,
                                                   config.packetsPerRound - |packets|))
        invariant CanEmitAll(frames, emitted) && packets == Datagrams(frames, emitted)
      {
        var index := cursor;
        CanEmitFrame(start, index);
        ghost var left, room := n - inspected, config.packetsPerRound - |packets|;
        cursor := Following(cursor, n);
        inspected := inspected + 1;
        if frames[index].seqNo in acknowledged {
          SkipOne(n, acknowledged, config.redundancy, index, left, room, target, emitted);
          continue;
        }
        SendOne(n, acknowledged, config.redundancy, index, left, room, target, emitted);
        ghost var copies := Copies(index, Min(config.redundancy, room));
        CanEmitCopies(frames, index, Min(config.redundancy, room));
        DatagramsJoin(frames, emitted, copies);
        packets := PushCopies(packets, index);
        emitted := emitted + copies;
      }
      RoundEnds(n, acknowledged, config.redundancy, cursor, n - inspected, config.packetsPerRound - |packets|, target,
        emitted);
      CursorMoves(start, cursor);
    }

    /** Repeats one frame as often as the redundancy and the room allow. */
    method PushCopies(sent: seq<seq<byte>>, index: nat) returns (packets: seq<seq<byte>>)
      requires CanEmit(frames, index) && |sent| <= config.packetsPerRound
      ensures CanEmitAll(frames, Copies(index, Min(config.redundancy, config.packetsPerRound - |sent|)))
      ensures packets == sent + Datagrams(frames, Copies(index,
        Min(config.redundancy, config.packetsPerRound - |sent|)))
      ensures |packets| == |sent| + Min(config.redundancy, config.packetsPerRound - |sent|)
    {
      packets := sent;
      var packet := Encode(frames[index]).value;
      var i := 0;
      while i < config.redundancy && |packets| < config.packetsPerRound
        invariant i <= Min(config.redundancy, config.packetsPerRound - |sent|)
        invariant packets == sent + seq(i, _ => packet)
      {
        packets := packets + [packet];
        i := i + 1;
      }
    }

    /** Stale and foreign acknowledgements are ignored, and no acknowledgement is ever taken back. */
    method ApplyAck(ack: AckFrame) returns (r: Result<(), NetworkError>)
      requires View().Valid()
      modifies this`acknowledged, this`lastAckSeq
      ensures View().Valid() && old(acknowledged) <= acknowledged
      ensures r.Ok? <==> old(View().AfterAck(ack).Ok?)
      ensures View() == if r.Ok? then old(View().AfterAck(ack).value) else old(View())
      ensures ack.transferId == transferId && ack.ackSeq > old(lastAckSeq) ==>
        if |ack.received| == DivCeil(|frames|, 8)
        then lastAckSeq == ack.ackSeq && Acknowledges(|frames|, old(acknowledged), ack.received, acknowledged)
        else r == Err(MalformedFrame)
      ensures ack.transferId != transferId || ack.ackSeq <= old(lastAckSeq) ==> r == Ok(()) && View() == old(View())
    {
      if |ack.received| == DivCeil(|frames|, 8) {
        MarksAreAcknowledged(|frames|, acknowledged, ack.received);
      }
      if View().AfterAck(ack).Ok? {
        AckKeepsValid(View(), ack);
      }
      hide SenderView.Valid;
      if ack.transferId != transferId || ack.ackSeq <= lastAckSeq {
        return Ok(());
      }
      if |ack.received| != DivCeil(|frames|, 8) {
        return Err(MalformedFrame);
      }
      MaskCovers(|frames|);
      lastAckSeq := ack.ackSeq;
      NothingMarked(ack.received, |frames|);
      hide MarkedBelow;
      for i := 0 to |ack.received|
        invariant lastAckSeq == ack.ackSeq
        invariant acknowledged == old(acknowledged) + MarkedBelow(ack.received, |frames|, 8 * i)
      {
        AcknowledgeByte(ack.received, i, old(acknowledged));
      }
      assert acknowledged == old(acknowledged) + MarkedBy(ack.received, |frames|);
      return Ok(());
    }

    /** The chunks that are marked in one byte of the mask. */
    method AcknowledgeByte(mask: seq<byte>, i: nat, ghost before: set<nat>)
      requires |frames| <= 8 * |mask| && i < |mask| && acknowledged == before + MarkedBelow(mask, |frames|, 8 * i)
      modifies this`acknowledged
      ensures acknowledged == before + MarkedBelow(mask, |frames|, 8 * (i + 1))
    {
      hide MarkedBelow;
      for bit := 0 to 8
        invariant acknowledged == before + MarkedBelow(mask, |frames|, 8 * i + bit)
      {
        var k := i * 8 + bit;
        OneMoreMark(mask, |frames|, k);
        if k < |frames| && Bit(mask[i], 7 - bit) {
          acknowledged := acknowledged + {k};
        }
      }
    }
  }
}
