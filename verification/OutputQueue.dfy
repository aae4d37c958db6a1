/** The output queue of a shard (crates/protocol/onx-transactions/src/output_queue.rs). */
module OutputQueues {
  import opened Wrappers
  import opened Bytes
  import opened ShardIdents
  import opened Messages

  datatype QueueError =
    | LogicalTimeRegression(previous: u64, next: u64)
    | FifoOrderViolation(previous: u64, next: u64)

  datatype Pair = Pair(src: FullAddress, dest: FullAddress)

  type Lane = seq<Message>

  type Lanes = map<Pair, Lane>

  function PairOf(m: Message): Pair {
    Pair(m.src, m.dest)
  }

  /** The message, if it is one of the pair. */
  function OfOne(m: Message, pair: Pair): seq<Message> {
    if PairOf(m) == pair then [m] else []
  }

  // ---------- The order of pairs ----------

  predicate AddressLess(a: FullAddress, b: FullAddress) {
    a.workchain < b.workchain || (a.workchain == b.workchain && FromBigEndian(a.account) < FromBigEndian(b.account))
  }

  predicate PairLess(a: Pair, b: Pair) {
    AddressLess(a.src, b.src) || (a.src == b.src && AddressLess(a.dest, b.dest))
  }

  lemma AddressesCompare(a: FullAddress, b: FullAddress)
    ensures a == b || AddressLess(a, b) || AddressLess(b, a)
  {
    FromBigEndianRoundTrip(a.account);
    FromBigEndianRoundTrip(b.account);
  }

  lemma PairsCompare(a: Pair, b: Pair)
    ensures a == b || PairLess(a, b) || PairLess(b, a)
  {
    AddressesCompare(a.src, b.src);
    AddressesCompare(a.dest, b.dest);
  }

  // ---------- The queue as a value ----------

  predicate Increasing(s: seq<Message>) {
    forall i, j :: 0 <= i < j < |s| ==> s[i].createdLt < s[j].createdLt
  }

  /** A lane holds messages of its pair, at least one, in increasing logical time. */
  predicate LaneOk(pair: Pair, lane: Lane) {
    lane != [] && Increasing(lane) && forall m :: m in lane ==> PairOf(m) == pair
  }

  predicate LanesOk(lanes: Lanes) {
    forall pair :: pair in lanes ==> LaneOk(pair, lanes[pair])
  }

  function LaneOf(lanes: Lanes, pair: Pair): Lane {
    if pair in lanes then lanes[pair] else []
  }

  function Enqueued(lanes: Lanes, m: Message): Result<Lanes, QueueError> {
    var lane := LaneOf(lanes, PairOf(m));
    if lane != [] && m.createdLt <= lane[|lane| - 1].createdLt
    then Err(LogicalTimeRegression(lane[|lane| - 1].createdLt, m.createdLt))
    else Ok(lanes[PairOf(m) := lane + [m]])
  }

  /** The head of a's lane goes before the head of b's. */
  predicate HeadFirst(lanes: Lanes, a: Pair, b: Pair)
    requires LanesOk(lanes) && a in lanes && b in lanes
  {
    assert LaneOk(a, lanes[a]) && LaneOk(b, lanes[b]);
    var s, t := lanes[a][0].createdLt, lanes[b][0].createdLt;
    s < t || (s == t && PairLess(a, b))
  }

  /** The lane that is served next: the earliest head, and of equally early ones that of the first pair. */
  ghost predicate IsNext(lanes: Lanes, a: Pair) {
    LanesOk(lanes) && a in lanes && forall b :: b in lanes && b != a ==> HeadFirst(lanes, a, b)
  }

  lemma HeadsAreOrdered(lanes: Lanes, a: Pair, b: Pair)
    requires LanesOk(lanes) && a in lanes && b in lanes && HeadFirst(lanes, a, b)
    ensures !HeadFirst(lanes, b, a)
  {
  }

  lemma NextIsUnique(lanes: Lanes, a: Pair, b: Pair)
    requires IsNext(lanes, a) && IsNext(lanes, b)
    ensures a == b
  {
    if a != b {
      HeadsAreOrdered(lanes, a, b);
    }
  }

  function Popped(lanes: Lanes, a: Pair): Lanes
    requires LanesOk(lanes) && a in lanes
  {
    assert LaneOk(a, lanes[a]);
    if |lanes[a]| == 1 then lanes - {a} else lanes[a := lanes[a][1..]]
  }

  lemma EnqueuedKeepsOk(lanes: Lanes, m: Message)
    requires LanesOk(lanes) && Enqueued(lanes, m).Ok?
    ensures LanesOk(Enqueued(lanes, m).value)
  {
    var pair := PairOf(m);
    var lane := LaneOf(lanes, pair);
    assert pair in lanes ==> LaneOk(pair, lane);
    var longer := lane + [m];
    forall i, j | 0 <= i < j < |longer|
      ensures longer[i].createdLt < longer[j].createdLt
    {
      if j == |lane| {
        assert i < |lane| - 1 ==> lane[i].createdLt < lane[|lane| - 1].createdLt;
      }
    }
    assert LaneOk(pair, longer);
  }

  lemma PoppedKeepsOk(lanes: Lanes, a: Pair)
    requires LanesOk(lanes) && a in lanes
    ensures LanesOk(Popped(lanes, a))
    ensures lanes[a] != [] && PairOf(lanes[a][0]) == a
    ensures forall b :: LaneOf(lanes, b) == OfOne(lanes[a][0], b) + LaneOf(Popped(lanes, a), b)
  {
    assert LaneOk(a, lanes[a]);
    var rest := lanes[a][1..];
    assert rest != [] ==> LaneOk(a, rest);
  }

  /** What is served next is the earliest of all queued messages. */
  lemma NextIsEarliest(lanes: Lanes, a: Pair, m: Message)
    requires IsNext(lanes, a) && PairOf(m) in lanes && m in lanes[PairOf(m)]
    ensures lanes[a][0].createdLt <= m.createdLt
  {
    var b := PairOf(m);
    assert LaneOk(b, lanes[b]) && LaneOk(a, lanes[a]);
    if b != a {
      assert HeadFirst(lanes, a, b);
    }
  }

  class OutputQueue {
    var lanes: Lanes

    ghost predicate Valid()
      reads this
    {
      LanesOk(lanes)
    }

    constructor ()
      ensures Valid() && lanes == map[]
    {
      lanes := map[];
    }

    method Enqueue(m: Message) returns (r: Result<(), QueueError>)
      requires Valid()
      modifies this
      ensures Valid()
      ensures match Enqueued(old(lanes), m)
              case Ok(after) => r == Ok(()) && lanes == after
              case Err(e) => r == Err(e) && lanes == old(lanes)
    {
      var pair := PairOf(m);
      var lane := if pair in lanes then lanes[pair] else [];
      if lane != [] {
        var last := lane[|lane| - 1];
        if m.createdLt <= last.createdLt {
          return Err(LogicalTimeRegression(last.createdLt, m.createdLt));
        }
      }
      EnqueuedKeepsOk(lanes, m);
      lanes := lanes[pair := lane + [m]];
      return Ok(());
    }

    /** The lane with the earliest head. */
    method NextLane() returns (next: Option<Pair>)
      requires Valid()
      ensures next.None? <==> lanes == map[]
      ensures next.Some? ==> IsNext(lanes, next.value)
    {
      if lanes == map[] {
        return None;
      }
      var best :| best in lanes.Keys;
      var rest := lanes.Keys - {best};
      while rest != {}
        invariant best in lanes && rest <= lanes.Keys && best !in rest
        invariant forall b :: b in lanes && b !in rest && b != best ==> HeadFirst(lanes, best, b)
      {
        var pair :| pair in rest;
        rest := rest - {pair};
        PairsCompare(pair, best);
        if HeadFirst(lanes, pair, best) {
          best := pair;
        }
      }
      return Some(best);
    }

    method PeekNext() returns (m: Option<Message>)
      requires Valid()
      ensures m.None? <==> lanes == map[]
      ensures m.Some? ==> exists pair :: IsNext(lanes, pair) && m.value == lanes[pair][0]
    {
      var next := NextLane();
      if next.None? {
        return None;
      }
      assert LaneOk(next.value, lanes[next.value]);
      return Some(lanes[next.value][0]);
    }

    method PopNext() returns (m: Option<Message>)
      requires Valid()
      modifies this
      ensures Valid()
      ensures m.None? <==> old(lanes) == map[]
      ensures m.None? ==> lanes == map[]
      ensures m.Some? ==> Serves(old(lanes), m.value, lanes)
    {
      var next := NextLane();
      if next.None? {
        return None;
      }
      var pair := next.value;
      assert LaneOk(pair, lanes[pair]);
      PoppedKeepsOk(lanes, pair);
      var lane := lanes[pair];
      m := Some(lane[0]);
      lanes := if |lane| == 1 then lanes - {pair} else lanes[pair := lane[1..]];
    }

    /** What a client does that pops until nothing is left. */
    method Drain() returns (s: seq<Message>)
      requires Valid()
      modifies this
      ensures Valid() && lanes == map[] && Drains(old(lanes), s)
      ensures InTimeOrder(s) && FifoOrder(s) && forall pair :: OfPair(s, pair) == LaneOf(old(lanes), pair)
    {
      s := [];
      assert forall t: seq<Message> :: Drains(lanes, t) ==> s + t == t;
      while lanes != map[]
        invariant Valid()
        invariant forall t :: Drains(lanes, t) ==> Drains(old(lanes), s + t)
        decreases Places(lanes)
      {
        ghost var before := lanes;
        var m := PopNext();
        PoppedHasFewer(before, m.value, lanes);
        forall t | Drains(lanes, t)
          ensures Drains(old(lanes), s + [m.value] + t)
        {
          assert ([m.value] + t)[1..] == t && s + [m.value] + t == s + ([m.value] + t);
          assert Drains(before, [m.value] + t);
        }
        s := s + [m.value];
      }
      assert Drains(lanes, []) && s + [] == s;
      DrainingIsOrderly(old(lanes), s);
    }

    /** Rejects the first message whose time is not after that of the previous one of its pair. */
    static method ValidateDeliveryOrder(sequence: seq<Message>) returns (r: Result<(), QueueError>)
      ensures r.Ok? <==> FifoOrder(sequence)
    {
      var last: map<Pair, u64> := map[];
      for i := 0 to |sequence|
        invariant FifoOrder(sequence[..i]) && LastTimes(sequence[..i], last)
      {
        var m := sequence[i];
        var pair := PairOf(m);
        assert sequence[..i + 1] == sequence[..i] + [m];
        FifoOneMore(sequence[..i], last, m);
        if pair in last && m.createdLt <= last[pair] {
          if FifoOrder(sequence) {
            FifoPrefix(sequence, i + 1);
          }
          return Err(FifoOrderViolation(last[pair], m.createdLt));
        }
        last := last[pair := m.createdLt];
      }
      assert sequence[..|sequence|] == sequence;
      return Ok(());
    }
  }

  /** m is the message that is served from lanes, which leaves after. */
  ghost predicate Serves(lanes: Lanes, m: Message, after: Lanes) {
    exists pair :: IsNext(lanes, pair) && m == lanes[pair][0] && after == Popped(lanes, pair)
  }

  /** Where messages are queued. */
  function Places(lanes: Lanes): set<(Pair, nat)> {
    set pair, i: nat | pair in lanes && i < |lanes[pair]| :: (pair, i)
  }

  lemma PoppedHasFewer(lanes: Lanes, m: Message, after: Lanes)
    requires Serves(lanes, m, after)
    ensures Places(after) < Places(lanes)
  {
    var pair :| IsNext(lanes, pair) && m == lanes[pair][0] && after == Popped(lanes, pair);
    assert LaneOk(pair, lanes[pair]);
    assert (pair, |lanes[pair]| - 1) in Places(lanes) && (pair, |lanes[pair]| - 1) !in Places(after);
  }

  // ---------- Delivery orders ----------

  /** Messages of one pair come in increasing logical time. */
  ghost predicate FifoOrder(s: seq<Message>) {
    forall i, j :: 0 <= i < j < |s| && PairOf(s[i]) == PairOf(s[j]) ==> s[i].createdLt < s[j].createdLt
  }

  lemma FifoPrefix(s: seq<Message>, n: nat)
    requires FifoOrder(s) && n <= |s|
    ensures FifoOrder(s[..n])
  {
  }

  /** The time of the last message of each pair. */
  ghost predicate LastTimes(s: seq<Message>, last: map<Pair, u64>) {
    && (forall i :: 0 <= i < |s| ==> PairOf(s[i]) in last && s[i].createdLt <= last[PairOf(s[i])])
    && (forall pair :: pair in last ==>
         exists i :: 0 <= i < |s| && PairOf(s[i]) == pair && s[i].createdLt == last[pair])
  }

  lemma FifoOneMore(s: seq<Message>, last: map<Pair, u64>, m: Message)
    requires FifoOrder(s) && LastTimes(s, last)
    ensures FifoOrder(s + [m]) <==> PairOf(m) !in last || last[PairOf(m)] < m.createdLt
    ensures FifoOrder(s + [m]) ==> LastTimes(s + [m], last[PairOf(m) := m.createdLt])
  {
    var longer := s + [m];
    var pair := PairOf(m);
    if pair in last {
      var i :| 0 <= i < |s| && PairOf(s[i]) == pair && s[i].createdLt == last[pair];
      assert longer[i] == s[i] && longer[|s|] == m;
    }
    if FifoOrder(longer) {
      var updated := last[pair := m.createdLt];
      forall p | p in updated
        ensures exists i :: 0 <= i < |longer| && PairOf(longer[i]) == p && longer[i].createdLt == updated[p]
      {
        if p == pair {
          assert longer[|s|] == m;
        } else {
          var i :| 0 <= i < |s| && PairOf(s[i]) == p && s[i].createdLt == last[p];
          assert longer[i] == s[i];
        }
      }
    }
  }

  /** The messages of one pair, in order. */
  function OfPair(s: seq<Message>, pair: Pair): seq<Message> {
    if s == [] then [] else OfPair(s[..|s| - 1], pair) + OfOne(s[|s| - 1], pair)
  }

  lemma OfPairOneMore(s: seq<Message>, m: Message, pair: Pair)
    ensures OfPair(s + [m], pair) == OfPair(s, pair) + OfOne(m, pair)
  {
    assert (s + [m])[..|s|] == s;
  }

  lemma {:induction false} OfPairHolds(s: seq<Message>, pair: Pair)
    ensures forall m :: m in OfPair(s, pair) <==> m in s && PairOf(m) == pair
  {
    if s != [] {
      OfPairHolds(s[..|s| - 1], pair);
      assert s == s[..|s| - 1] + [s[|s| - 1]];
    }
  }

  ghost predicate EachPairIncreases(s: seq<Message>) {
    forall pair :: Increasing(OfPair(s, pair))
  }

  lemma IncreasingOneMore(s: seq<Message>, m: Message)
    ensures Increasing(s + [m]) <==> Increasing(s) && forall x :: x in s ==> x.createdLt < m.createdLt
  {
    var longer := s + [m];
    if Increasing(longer) {
      forall i, j | 0 <= i < j < |s|
        ensures s[i].createdLt < s[j].createdLt
      {
        assert longer[i] == s[i] && longer[j] == s[j];
      }
      forall x | x in s
        ensures x.createdLt < m.createdLt
      {
        var i :| 0 <= i < |s| && s[i] == x;
        assert longer[i] == x && longer[|s|] == m;
      }
    }
  }

  lemma FifoSplit(s: seq<Message>, m: Message)
    ensures FifoOrder(s + [m]) <==> FifoOrder(s) && forall x :: x in s && PairOf(x) == PairOf(m) ==>
      x.createdLt < m.createdLt
  {
    var longer := s + [m];
    if FifoOrder(longer) {
      assert longer[..|s|] == s;
      FifoPrefix(longer, |s|);
      forall x | x in s && PairOf(x) == PairOf(m)
        ensures x.createdLt < m.createdLt
      {
        var i :| 0 <= i < |s| && s[i] == x;
        assert longer[i] == x && longer[|s|] == m;
      }
    }
  }

  lemma EachPairOneMore(s: seq<Message>, m: Message)
    ensures EachPairIncreases(s + [m]) <==>
      EachPairIncreases(s) && forall x :: x in OfPair(s, PairOf(m)) ==> x.createdLt < m.createdLt
  {
    var own := PairOf(m);
    OfPairOneMore(s, m, own);
    IncreasingOneMore(OfPair(s, own), m);
    forall pair | pair != own
      ensures OfPair(s + [m], pair) == OfPair(s, pair)
    {
      OfPairOneMore(s, m, pair);
    }
    if EachPairIncreases(s + [m]) {
      assert Increasing(OfPair(s + [m], own));
      forall pair
        ensures Increasing(OfPair(s, pair))
      {
        assert Increasing(OfPair(s + [m], pair));
      }
    }
  }

  /** An order is accepted exactly when the messages of every pair increase in time. */
  lemma {:induction false} FifoMeansIncreasing(s: seq<Message>)
    ensures FifoOrder(s) <==> EachPairIncreases(s)
  {
    if s != [] {
      var front, m := s[..|s| - 1], s[|s| - 1];
      assert s == front + [m];
      FifoMeansIncreasing(front);
      FifoSplit(front, m);
      EachPairOneMore(front, m);
      OfPairHolds(front, PairOf(m));
    }
  }

  // ---------- Runs ----------

  /** What has happened to a queue: the messages taken in and those served, each in order. */
  datatype History = History(enqueued: seq<Message>, served: seq<Message>, lanes: Lanes)

  ghost predicate Step(h: History, k: History) {
    || (exists m :: Enqueued(h.lanes, m).Ok? && k == History(h.enqueued + [m], h.served, Enqueued(h.lanes, m).value))
    || (exists m, after :: Serves(h.lanes, m, after) && k == History(h.enqueued, h.served + [m], after))
  }

  ghost predicate IsRun(run: seq<History>) {
    run != [] &&
    if |run| == 1 then run[0] == History([], [], map[])
    else IsRun(run[..|run| - 1]) && Step(run[|run| - 2], run[|run| - 1])
  }

  /** Of every pair, what was taken in is what was served and then what is still there. */
  ghost predicate NothingLost(h: History) {
    LanesOk(h.lanes) && forall pair :: OfPair(h.enqueued, pair) == OfPair(h.served, pair) + LaneOf(h.lanes, pair)
  }

  lemma EnqueueLosesNothing(h: History, m: Message)
    requires NothingLost(h) && Enqueued(h.lanes, m).Ok?
    ensures NothingLost(History(h.enqueued + [m], h.served, Enqueued(h.lanes, m).value))
  {
    EnqueuedKeepsOk(h.lanes, m);
    var after := Enqueued(h.lanes, m).value;
    forall pair
      ensures OfPair(h.enqueued + [m], pair) == OfPair(h.served, pair) + LaneOf(after, pair)
    {
      OfPairOneMore(h.enqueued, m, pair);
    }
  }

  lemma Regroup(a: Lane, b: Lane, c: Lane)
    ensures a + (b + c) == (a + b) + c
  {
  }

  lemma ServingLosesNothing(h: History, m: Message, after: Lanes)
    requires NothingLost(h) && Serves(h.lanes, m, after)
    ensures NothingLost(History(h.enqueued, h.served + [m], after))
  {
    var a :| IsNext(h.lanes, a) && m == h.lanes[a][0] && after == Popped(h.lanes, a);
    PoppedKeepsOk(h.lanes, a);
    forall pair
      ensures OfPair(h.enqueued, pair) == OfPair(h.served + [m], pair) + LaneOf(after, pair)
    {
      hide *;
      OfPairOneMore(h.served, m, pair);
      Regroup(OfPair(h.served, pair), OfOne(m, pair), LaneOf(after, pair));
      ServedBefore(h, pair);
    }
  }

  lemma ServedBefore(h: History, pair: Pair)
    requires NothingLost(h)
    ensures OfPair(h.enqueued, pair) == OfPair(h.served, pair) + LaneOf(h.lanes, pair)
  {
  }

  /** In every run each pair's messages leave in the order in which they were taken in, and none is lost. */
  lemma {:induction false} RunsLoseNothing(run: seq<History>)
    requires IsRun(run)
    ensures NothingLost(run[|run| - 1])
    decreases |run|
  {
    if |run| > 1 {
      var h, k := run[|run| - 2], run[|run| - 1];
      RunsLoseNothing(run[..|run| - 1]);
      if m :| Enqueued(h.lanes, m).Ok? && k == History(h.enqueued + [m], h.served, Enqueued(h.lanes, m).value) {
        EnqueueLosesNothing(h, m);
      } else {
        var m, after :| Serves(h.lanes, m, after) && k == History(h.enqueued, h.served + [m], after);
        ServingLosesNothing(h, m, after);
      }
    }
  }

  /** The messages of a pair that have left were taken in with increasing logical time. */
  ghost predicate LeftInOrder(h: History, pair: Pair) {
    var entered, waiting := OfPair(h.enqueued, pair), LaneOf(h.lanes, pair);
    |waiting| <= |entered| && Increasing(entered[..|entered| - |waiting|])
  }

  ghost predicate AllLeftInOrder(h: History) {
    forall pair :: LeftInOrder(h, pair)
  }

  /**
   After any run the order of delivery is accepted exactly when the messages of every pair that left
   were taken in with increasing logical time.  Enqueue alone does not ensure that, as a lane that
   was emptied has forgotten its last time.
   */
  lemma {:induction false} ServedOrderIsAccepted(run: seq<History>)
    requires IsRun(run)
    ensures FifoOrder(run[|run| - 1].served) <==> AllLeftInOrder(run[|run| - 1])
  {
    var h := run[|run| - 1];
    RunsLoseNothing(run);
    FifoMeansIncreasing(h.served);
    forall pair
      ensures LeftInOrder(h, pair) <==> Increasing(OfPair(h.served, pair))
    {
      var entered, waiting := OfPair(h.enqueued, pair), LaneOf(h.lanes, pair);
      assert entered[..|entered| - |waiting|] == OfPair(h.served, pair);
    }
  }

  /** The step takes in nothing, or a message that is later than all earlier ones of its pair, whether or not
      they have left. */
  ghost predicate EntersLater(h: History, k: History) {
    h.enqueued < k.enqueued ==>
      forall x :: x in h.enqueued && PairOf(x) == PairOf(k.enqueued[|h.enqueued|]) ==>
        x.createdLt < k.enqueued[|h.enqueued|].createdLt
  }

  ghost predicate EntersLaterAt(run: seq<History>, i: nat)
    requires i + 1 < |run|
  {
    EntersLater(run[i], run[i + 1])
  }

  ghost predicate AllEnterLater(run: seq<History>) {
    forall i: nat :: i + 1 < |run| ==> EntersLaterAt(run, i)
  }

  lemma EnterLaterOneMore(run: seq<History>)
    requires |run| > 1
    ensures AllEnterLater(run) <==> AllEnterLater(run[..|run| - 1]) && EntersLater(run[|run| - 2], run[|run| - 1])
  {
    hide EntersLater;
    var front := run[..|run| - 1];
    forall i: nat | i + 1 < |front|
      ensures EntersLaterAt(front, i) <==> EntersLaterAt(run, i)
    {
    }
    assert EntersLaterAt(run, |run| - 2) <==> EntersLater(run[|run| - 2], run[|run| - 1]);
    if AllEnterLater(front) && EntersLater(run[|run| - 2], run[|run| - 1]) {
      forall i: nat | i + 1 < |run|
        ensures EntersLaterAt(run, i)
      {
        if i + 1 < |front| {
          assert EntersLaterAt(front, i);
        }
      }
    }
  }

  lemma StepTakesIn(h: History, k: History)
    requires Step(h, k)
    ensures k.enqueued == h.enqueued || (h.enqueued < k.enqueued && |k.enqueued| == |h.enqueued| + 1)
  {
  }

  lemma {:induction false} LaterEntriesIncrease(run: seq<History>)
    requires IsRun(run)
    ensures AllEnterLater(run) <==> FifoOrder(run[|run| - 1].enqueued)
    decreases |run|
  {
    if |run| > 1 {
      var front, h, k := run[..|run| - 1], run[|run| - 2], run[|run| - 1];
      LaterEntriesIncrease(front);
      StepTakesIn(h, k);
      EnterLaterOneMore(run);
      if h.enqueued < k.enqueued {
        var m := k.enqueued[|h.enqueued|];
        assert k.enqueued == h.enqueued + [m];
        FifoSplit(h.enqueued, m);
      }
    }
  }

  lemma PrefixIncreases(s: seq<Message>, n: nat)
    requires Increasing(s) && n <= |s|
    ensures Increasing(s[..n])
  {
  }

  /** Messages that all enter later than those of their pair before them leave in an order that is accepted;
      once the queue is empty, the order is accepted only then. */
  lemma {:induction false} LaterEntriesAreAccepted(run: seq<History>)
    requires IsRun(run)
    ensures AllEnterLater(run) ==> FifoOrder(run[|run| - 1].served)
    ensures run[|run| - 1].lanes == map[] ==> (AllEnterLater(run) <==> FifoOrder(run[|run| - 1].served))
  {
    var h := run[|run| - 1];
    RunsLoseNothing(run);
    LaterEntriesIncrease(run);
    FifoMeansIncreasing(h.enqueued);
    FifoMeansIncreasing(h.served);
    forall pair
      ensures Increasing(OfPair(h.enqueued, pair)) ==> Increasing(OfPair(h.served, pair))
      ensures h.lanes == map[] ==> OfPair(h.served, pair) == OfPair(h.enqueued, pair)
    {
      var entered, left := OfPair(h.enqueued, pair), OfPair(h.served, pair);
      assert entered == left + LaneOf(h.lanes, pair);
      assert entered[..|left|] == left;
      if Increasing(entered) {
        PrefixIncreases(entered, |left|);
      }
    }
  }

  lemma OneLane(m: Message)
    ensures LanesOk(map[PairOf(m) := [m]]) && Serves(map[PairOf(m) := [m]], m, map[])
    ensures Enqueued(map[], m) == Ok(map[PairOf(m) := [m]])
  {
    var lanes := map[PairOf(m) := [m]];
    assert [] + [m] == [m] && LaneOk(PairOf(m), [m]);
    assert IsNext(lanes, PairOf(m)) && Popped(lanes, PairOf(m)) == map[];
  }

  lemma {:induction false} RunOneMore(run: seq<History>, k: History)
    requires IsRun(run) && Step(run[|run| - 1], k)
    ensures IsRun(run + [k])
  {
    assert (run + [k])[..|run|] == run;
  }

  /** Taking in b only after a has left is never refused, even if b is not the later one; the order of delivery then
       is. */
  lemma EmptiedLaneForgets(a: Message, b: Message)
    requires PairOf(a) == PairOf(b)
    ensures exists run :: IsRun(run) && run[|run| - 1] == History([a, b], [a, b], map[])
    ensures FifoOrder([a, b]) <==> a.createdLt < b.createdLt
  {
    var run := [History([], [], map[])];
    EmptyRun(run[0]);
    var once := MessagePasses(run, a);
    var twice := MessagePasses(once, b);
    assert [] + [a] == [a] && [a] + [b] == [a, b];
    TwoInOrder(a, b);
  }

  /** Through an empty queue any message passes. */
  lemma MessagePasses(run: seq<History>, m: Message) returns (longer: seq<History>)
    requires IsRun(run) && run[|run| - 1].lanes == map[]
    ensures
      var h := run[|run| - 1];
      IsRun(longer) && longer[|longer| - 1] == History(h.enqueued + [m], h.served + [m], map[])
  {
    var h := run[|run| - 1];
    hide IsRun, Enqueued, Serves, LanesOk;
    OneLane(m);
    var entered := History(h.enqueued + [m], h.served, map[PairOf(m) := [m]]);
    var left := History(h.enqueued + [m], h.served + [m], map[]);
    RunOneMore(run, entered);
    RunOneMore(run + [entered], left);
    longer := run + [entered] + [left];
  }

  lemma TwoInOrder(a: Message, b: Message)
    requires PairOf(a) == PairOf(b)
    ensures FifoOrder([a, b]) <==> a.createdLt < b.createdLt
  {
    var s := [a, b];
    assert s[0] == a && s[1] == b;
  }

  lemma EmptyRun(start: History)
    requires start == History([], [], map[])
    ensures IsRun([start])
  {
  }

  // ---------- Draining ----------

  /** s is what leaves the queue if it is served until it is empty. */
  ghost predicate Drains(lanes: Lanes, s: seq<Message>)
    decreases |s|
  {
    if s == [] then lanes == map[]
    else exists after :: Serves(lanes, s[0], after) && Drains(after, s[1..])
  }

  ghost predicate InTimeOrder(s: seq<Message>) {
    forall i, j :: 0 <= i < j < |s| ==> s[i].createdLt <= s[j].createdLt
  }

  /** The message is queued. */
  predicate IsQueued(lanes: Lanes, m: Message) {
    m in LaneOf(lanes, PairOf(m))
  }

  lemma {:induction false} OfPairFront(m: Message, s: seq<Message>, pair: Pair)
    ensures OfPair([m] + s, pair) == OfOne(m, pair) + OfPair(s, pair)
  {
    if s == [] {
      assert [m] + s == [m];
    } else {
      OfPairFront(m, s[..|s| - 1], pair);
      var longer := [m] + s;
      assert longer[..|longer| - 1] == [m] + s[..|s| - 1] && longer[|longer| - 1] == s[|s| - 1];
      assert OfPair(longer, pair) == OfPair([m] + s[..|s| - 1], pair) + OfOne(s[|s| - 1], pair);
    }
  }

  /** The first message of a drained queue is the head of the lane that is served. */
  lemma FirstDrained(lanes: Lanes, s: seq<Message>) returns (a: Pair, after: Lanes)
    requires LanesOk(lanes) && Drains(lanes, s) && s != []
    ensures IsNext(lanes, a) && s[0] == lanes[a][0] && LanesOk(after) && Drains(after, s[1..])
    ensures forall b :: LaneOf(lanes, b) == OfOne(s[0], b) + LaneOf(after, b)
  {
    after :| Serves(lanes, s[0], after) && Drains(after, s[1..]);
    a :| IsNext(lanes, a) && s[0] == lanes[a][0] && after == Popped(lanes, a);
    PoppedKeepsOk(lanes, a);
  }

  lemma NothingDrained(lanes: Lanes, pair: Pair)
    requires Drains(lanes, [])
    ensures OfPair([], pair) == LaneOf(lanes, pair)
  {
  }

  /** What is drained of a pair is its lane. */
  lemma {:induction false} DrainsLanes(lanes: Lanes, s: seq<Message>, pair: Pair)
    requires LanesOk(lanes) && Drains(lanes, s)
    ensures OfPair(s, pair) == LaneOf(lanes, pair)
    decreases |s|
  {
    hide *;
    if s == [] {
      NothingDrained(lanes, pair);
    } else {
      var a, after := FirstDrained(lanes, s);
      DrainsLanes(after, s[1..], pair);
      assert s == [s[0]] + s[1..];
      OfPairFront(s[0], s[1..], pair);
    }
  }

  lemma DrainedWereQueued(lanes: Lanes, s: seq<Message>, m: Message)
    requires LanesOk(lanes) && Drains(lanes, s) && m in s
    ensures IsQueued(lanes, m)
  {
    DrainsLanes(lanes, s, PairOf(m));
    OfPairHolds(s, PairOf(m));
  }

  lemma {:induction false} DrainsInTimeOrder(lanes: Lanes, s: seq<Message>)
    requires LanesOk(lanes) && Drains(lanes, s)
    ensures InTimeOrder(s)
    decreases |s|
  {
    if s != [] {
      var a, after := FirstDrained(lanes, s);
      DrainsInTimeOrder(after, s[1..]);
      forall j | 0 < j < |s|
        ensures s[0].createdLt <= s[j].createdLt
      {
        assert s[j] == s[1..][j - 1];
        DrainedWereQueued(lanes, s, s[j]);
        NextIsEarliest(lanes, a, s[j]);
      }
      forall i, j | 0 < i < j < |s|
        ensures s[i].createdLt <= s[j].createdLt
      {
        assert s[i] == s[1..][i - 1] && s[j] == s[1..][j - 1];
      }
    }
  }

  /**
   Draining a queue yields the messages of every lane in their order, all together in the order of
   logical time, and the result is accepted as an order of delivery.
   */
  lemma DrainingIsOrderly(lanes: Lanes, s: seq<Message>)
    requires LanesOk(lanes) && Drains(lanes, s)
    ensures InTimeOrder(s) && FifoOrder(s)
    ensures forall pair :: OfPair(s, pair) == LaneOf(lanes, pair)
  {
    DrainsInTimeOrder(lanes, s);
    forall pair
      ensures OfPair(s, pair) == LaneOf(lanes, pair) && Increasing(OfPair(s, pair))
    {
      DrainsLanes(lanes, s, pair);
      assert pair in lanes ==> LaneOk(pair, lanes[pair]);
    }
    FifoMeansIncreasing(s);
  }
}
