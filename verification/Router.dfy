/** Slow-path routing of internal messages along shard prefixes (crates/protocol/onx-transactions/src/router.rs). */
module Router {
  import opened Wrappers
  import opened Bytes
  import opened ShardIdents
  import opened Messages

  datatype RouteError =
    | RouteEndpointMismatch
    | IncompatibleRoute
    | InsufficientTransitFee(available: u128, required: u128)
    | InvalidHypercubeHop

  datatype RouteHop = RouteHop(from: ShardIdent, to: ShardIdent)

  datatype RoutePlan = RoutePlan(hops: seq<RouteHop>, transitFee: u128, remaining: u128)

  // ---------- Counting bits ----------

  const TOP_BIT: bv64 := 0x8000_0000_0000_0000

  /** The number of bits set at or below the bit m. */
  function OnesFrom(v: bv64, m: bv64): nat {
    if m == 0 then 0 else OnesFrom(v, m >> 1) + if v & m != 0 then 1 else 0
  }

  function CountOnes(v: bv64): nat {
    OnesFrom(v, TOP_BIT)
  }

  /** Every bit of a is a bit of b or of c. */
  predicate Covered(a: bv64, b: bv64, c: bv64) {
    a & !(b | c) == 0
  }

  lemma CoveredBit(a: bv64, b: bv64, c: bv64, m: bv64)
    requires Covered(a, b, c) && a & m != 0
    ensures b & m != 0 || c & m != 0
  {
  }

  lemma {:induction false} OnesOfCovered(a: bv64, b: bv64, c: bv64, m: bv64)
    requires Covered(a, b, c)
    ensures OnesFrom(a, m) <= OnesFrom(b, m) + OnesFrom(c, m)
    decreases m
  {
    if m != 0 {
      OnesOfCovered(a, b, c, m >> 1);
      if a & m != 0 {
        CoveredBit(a, b, c, m);
      }
    }
  }

  lemma XorIsCovered(x: bv64, y: bv64, z: bv64, t: bv64)
    ensures Covered((x ^ z) & t, (x ^ y) & t, (y ^ z) & t)
  {
  }

  /** The bit b is met on the way down from m. */
  predicate Met(b: bv64, m: bv64)
    decreases m
  {
    m != 0 && (m == b || Met(b, m >> 1))
  }

  lemma HalfIsLess(m: bv64)
    requires m != 0
    ensures m >> 1 < m
  {
  }

  lemma {:induction false} MetIsBelow(b: bv64, m: bv64)
    requires Met(b, m)
    ensures b <= m
    decreases m
  {
    if m != b {
      HalfIsLess(m);
      MetIsBelow(b, m >> 1);
    }
  }

  lemma BitBelow(b: bv64, m: bv64)
    requires SingleBit(b) && SingleBit(m) && b <= m && b != m
    ensures b <= m >> 1 && SingleBit(m >> 1)
  {
  }

  lemma {:induction false} BelowIsMet(b: bv64, m: bv64)
    requires SingleBit(b) && SingleBit(m) && b <= m
    ensures Met(b, m)
    decreases m
  {
    if b != m {
      BitBelow(b, m);
      HalfIsLess(m);
      BelowIsMet(b, m >> 1);
    }
  }

  lemma AtMostTop(b: bv64)
    requires SingleBit(b)
    ensures b <= TOP_BIT && SingleBit(TOP_BIT)
  {
  }

  /** At m, the words u and w differ just if m is the bit b, which only w has. */
  predicate AddsAt(u: bv64, w: bv64, b: bv64, m: bv64) {
    if m == b then w & m != 0 && u & m == 0 else w & m == u & m
  }

  lemma AddsOnlyThere(u: bv64, b: bv64, m: bv64)
    requires SingleBit(b) && SingleBit(m) && u & b == 0
    ensures AddsAt(u, u | b, b, m)
  {
  }

  lemma HalfOfSingle(m: bv64)
    requires SingleBit(m)
    ensures m >> 1 == 0 || SingleBit(m >> 1)
  {
  }

  lemma {:induction false} OnesWithBit(u: bv64, w: bv64, b: bv64, m: bv64)
    requires m == 0 || SingleBit(m)
    requires forall k :: SingleBit(k) ==> AddsAt(u, w, b, k)
    ensures OnesFrom(w, m) == OnesFrom(u, m) + if Met(b, m) then 1 else 0
    decreases m
  {
    if m != 0 {
      HalfIsLess(m);
      HalfOfSingle(m);
      OnesWithBit(u, w, b, m >> 1);
      assert AddsAt(u, w, b, m);
      if Met(b, m >> 1) {
        MetIsBelow(b, m >> 1);
      }
    }
  }

  lemma CountWithBit(u: bv64, b: bv64)
    requires SingleBit(b) && u & b == 0
    ensures CountOnes(u | b) == CountOnes(u) + 1
  {
    AtMostTop(b);
    BelowIsMet(b, TOP_BIT);
    forall k | SingleBit(k)
      ensures AddsAt(u, u | b, b, k)
    {
      AddsOnlyThere(u, b, k);
    }
    OnesWithBit(u, u | b, b, TOP_BIT);
  }

  lemma {:induction false} OnesOfZero(m: bv64)
    ensures OnesFrom(0, m) == 0
    decreases m
  {
    if m != 0 {
      OnesOfZero(m >> 1);
    }
  }

  lemma CountSingle(b: bv64)
    requires SingleBit(b)
    ensures CountOnes(b) == 1
  {
    OnesOfZero(TOP_BIT);
    CountWithBit(0, b);
    assert 0 | b == b;
  }

  // ---------- Neighbors and routes ----------

  function Masked(v: bv64, mask: bv64): bv64 {
    v & mask
  }

  function Difference(hop: RouteHop, len: bv8): bv64
    requires len <= 64
  {
    XorUnder(hop.from.prefix, hop.to.prefix, TopBits(len))
  }

  predicate SameDepth(left: ShardIdent, right: ShardIdent) {
    left.PrefixLen().Ok? && left.workchain == right.workchain && right.PrefixLen() == left.PrefixLen()
  }

  /** The number of prefix bits in which two shards differ. */
  function Distance(left: ShardIdent, right: ShardIdent): nat {
    match left.PrefixLen()
    case Err(_) => 0
    case Ok(len) => if len > 60 then 0 else CountOnes(XorUnder(left.prefix, right.prefix, TopBits(len)))
  }

  predicate AreNeighbors(left: ShardIdent, right: ShardIdent) {
    SameDepth(left, right) && Distance(left, right) == 1
  }

  /** Where the hops lead, if each starts where the one before ended and crosses to a neighbor. */
  function Follow(hops: seq<RouteHop>, source: ShardIdent): Option<ShardIdent> {
    if hops == [] then Some(source)
    else if hops[0].from != source || !AreNeighbors(hops[0].from, hops[0].to) then None
    else Follow(hops[1..], hops[0].to)
  }

  lemma {:induction false} FollowOneMore(hops: seq<RouteHop>, hop: RouteHop, source: ShardIdent)
    ensures Follow(hops + [hop], source)
         == if Follow(hops, source) == Some(hop.from) && AreNeighbors(hop.from, hop.to) then Some(hop.to) else None
  {
    if hops == [] {
      assert hops + [hop] == [hop];
    } else {
      assert (hops + [hop])[1..] == hops[1..] + [hop];
      FollowOneMore(hops[1..], hop, hops[0].to);
    }
  }

  lemma {:induction false} FollowNeedsEveryHop(hops: seq<RouteHop>, source: ShardIdent, n: nat)
    requires n <= |hops| && Follow(hops, source).Some?
    ensures Follow(hops[..n], source).Some?
  {
    if n > 0 {
      assert hops[..n][1..] == hops[1..][..n - 1];
      FollowNeedsEveryHop(hops[1..], hops[0].to, n - 1);
    }
  }

  method ValidateHypercubeRoute(hops: seq<RouteHop>, source: ShardIdent, destination: ShardIdent)
    returns (r: Result<(), RouteError>)
    ensures r == if Follow(hops, source) == Some(destination) then Ok(()) else Err(InvalidHypercubeHop)
  {
    var current := source;
    for i := 0 to |hops|
      invariant Follow(hops[..i], source) == Some(current)
    {
      var hop := hops[i];
      assert hops[..i + 1] == hops[..i] + [hop];
      FollowOneMore(hops[..i], hop, source);
      if hop.from != current || !AreNeighbors(hop.from, hop.to) {
        if Follow(hops, source).Some? {
          FollowNeedsEveryHop(hops, source, i + 1);
        }
        return Err(InvalidHypercubeHop);
      }
      current := hop.to;
    }
    assert hops[..|hops|] == hops;
    return if current == destination then Ok(()) else Err(InvalidHypercubeHop);
  }

  lemma CountTriangle(x: bv64, y: bv64, z: bv64, t: bv64)
    ensures CountOnes(XorUnder(x, z, t)) <= CountOnes(XorUnder(x, y, t)) + CountOnes(XorUnder(y, z, t))
  {
    XorIsCovered(x, y, z, t);
    OnesOfCovered(XorUnder(x, z, t), XorUnder(x, y, t), XorUnder(y, z, t), TOP_BIT);
  }

  lemma DistanceTriangle(x: ShardIdent, y: ShardIdent, z: ShardIdent)
    requires SameDepth(x, y) && SameDepth(y, z)
    ensures Distance(x, z) <= Distance(x, y) + Distance(y, z)
  {
    if x.PrefixLen().value <= 60 {
      CountTriangle(x.prefix, y.prefix, z.prefix, TopBits(x.PrefixLen().value));
    }
  }

  lemma NothingDiffers(x: bv64, t: bv64)
    ensures CountOnes(XorUnder(x, x, t)) == 0
  {
    assert XorUnder(x, x, t) == 0;
    OnesOfZero(TOP_BIT);
  }

  /** No accepted route is shorter than the number of bits in which its ends differ. */
  lemma {:induction false} RoutesAreLongEnough(hops: seq<RouteHop>, source: ShardIdent, destination: ShardIdent)
    requires Follow(hops, source) == Some(destination) && source.PrefixLen().Ok?
    ensures SameDepth(source, destination) && Distance(source, destination) <= |hops|
  {
    if hops == [] {
      if source.PrefixLen().value <= 60 {
        NothingDiffers(source.prefix, TopBits(source.PrefixLen().value));
      }
    } else {
      RoutesAreLongEnough(hops[1..], hops[0].to, destination);
      DistanceTriangle(source, hops[0].to, destination);
    }
  }

  // ---------- The canonical route ----------

  predicate EndpointsMatch(message: Message, source: ShardIdent, destination: ShardIdent) {
    message.kind == Internal && message.ValidateSourceShard(source).Ok? && message.ValidateDestShard(destination).Ok?
  }

  /** The prefix bits that the hops flip, the least significant bit of the word being bit 0. */
  function Flips(hops: seq<RouteHop>, len: bv8): (flips: seq<bv8>)
    requires len <= 64
    ensures |flips| == |hops|
  {
    if hops == [] then [] else Flips(hops[..|hops| - 1], len) + [TrailingZeros(Difference(hops[|hops| - 1], len))]
  }

  /** One bit after the other, from the most significant one down. */
  predicate TopDown(flips: seq<bv8>) {
    forall j, k :: 0 <= j < k < |flips| ==> flips[j] > flips[k]
  }

  predicate AllAbove(flips: seq<bv8>, bit: bv8) {
    forall k :: 0 <= k < |flips| ==> flips[k] > bit
  }

  /** What a planned route is: accepted, as short as possible, and with its bits flipped from the top. */
  ghost predicate IsCanonicalRoute(hops: seq<RouteHop>, source: ShardIdent, destination: ShardIdent) {
    && SameDepth(source, destination) && source.PrefixLen().value <= 60
    && Follow(hops, source) == Some(destination) && |hops| == Distance(source, destination)
    && TopDown(Flips(hops, source.PrefixLen().value))
  }

  /** A route in the making: the hops, where they lead, and the prefix bits of that shard. */
  datatype Progress = Progress(hops: seq<RouteHop>, current: ShardIdent, bits: bv64)

  predicate StepAt(len: bv8, i: bv8) {
    i < len && len <= 60
  }

  function Xor(v: bv64, w: bv64): bv64 {
    v ^ w
  }

  /** The words differ in the bit b. */
  predicate Differs(x: bv64, y: bv64, b: bv64) {
    (x & b != 0) != (y & b != 0)
  }

  /** What the loop does for one bit of the prefix. */
  function FlipBit(p: Progress, target: bv64, len: bv8, i: bv8): Progress
    requires StepAt(len, i)
  {
    if Differs(p.bits, target, OneAt(63 - i)) then
      var flipped := Xor(p.bits, OneAt(63 - i));
      var next := FromPrefixBits(p.current.workchain, flipped, len).value;
      Progress(p.hops + [RouteHop(p.current, next)], next, flipped)
    else p
  }

  // The words, by the bits d in which the current prefix still differs from the target.

  predicate Clear(d: bv64, mask: bv64) {
    d & mask == 0
  }

  /** d is what is left to be flipped, below the first i bits and inside the prefix. */
  predicate Remains(bits: bv64, target: bv64, d: bv64, done: bv64, outside: bv64) {
    d == Xor(bits, target) && Clear(d, done) && Clear(d, outside)
  }

  /** b is the bit after those of t, u are both, and outside are the bits beyond the prefix. */
  predicate NextBit(t: bv64, b: bv64, u: bv64, outside: bv64) {
    SingleBit(b) && u == t | b && Clear(b, outside)
  }

  lemma TopGrows(len: bv8, i: bv8)
    requires StepAt(len, i)
    ensures NextBit(TopBits(i), OneAt(63 - i), TopBits(i + 1), !TopBits(len))
  {
  }

  lemma BitDiffers(bits: bv64, target: bv64, d: bv64, b: bv64)
    requires SingleBit(b) && d == Xor(bits, target)
    ensures Differs(bits, target, b) <==> !Clear(d, b)
  {
  }

  lemma ClearOfBoth(d: bv64, t: bv64, b: bv64, u: bv64)
    requires Clear(d, t) && Clear(d, b) && u == t | b
    ensures Clear(d, u)
  {
  }

  lemma ClearWithout(d: bv64, e: bv64, b: bv64, mask: bv64)
    requires Clear(d, mask) && !Clear(d, b) && SingleBit(b) && e == Xor(d, b)
    ensures Clear(e, mask) && Clear(e, b) && e | b == d
  {
    assert d & b == b by { BitIsOrIsNot(d, b); }
    WithoutBit(d, e, b);
    SmallerIsClear(d, e, b, mask);
  }

  lemma BitIsOrIsNot(v: bv64, b: bv64)
    requires SingleBit(b)
    ensures v & b == 0 || v & b == b
  {
  }

  lemma WithoutBit(d: bv64, e: bv64, b: bv64)
    requires d & b == b && e == Xor(d, b)
    ensures Clear(e, b) && e | b == d
  {
  }

  lemma SmallerIsClear(d: bv64, e: bv64, b: bv64, mask: bv64)
    requires e | b == d && Clear(d, mask)
    ensures Clear(e, mask)
  {
  }

  lemma XorTwice(x: bv64, y: bv64, z: bv64)
    ensures Xor(Xor(x, y), z) == (x ^ y) ^ z
  {
  }

  lemma XorReorders(x: bv64, y: bv64, z: bv64)
    ensures (x ^ y) ^ z == (x ^ z) ^ y
  {
  }

  lemma XorSwap(x: bv64, y: bv64, z: bv64)
    ensures Xor(Xor(x, y), z) == Xor(Xor(x, z), y)
  {
    hide Xor;
    XorTwice(x, y, z);
    XorTwice(x, z, y);
    XorReorders(x, y, z);
  }

  lemma RemainsFewer(bits: bv64, flipped: bv64, target: bv64, d: bv64, e: bv64, t: bv64, b: bv64, u: bv64,
      outside: bv64)
    requires Remains(bits, target, d, t, outside) && NextBit(t, b, u, outside) && Differs(bits, target, b)
    requires flipped == Xor(bits, b) && e == Xor(flipped, target)
    ensures Remains(flipped, target, e, u, outside) && CountOnes(d) == CountOnes(e) + 1
  {
    hide Xor, Differs, Clear, SingleBit, CountOnes;
    BitDiffers(bits, target, d, b);
    XorSwap(bits, b, target);
    ClearWithout(d, e, b, t);
    ClearWithout(d, e, b, outside);
    ClearOfBoth(e, t, b, u);
    ClearCounts(d, e, b);
  }

  lemma ClearCounts(d: bv64, e: bv64, b: bv64)
    requires SingleBit(b) && Clear(e, b) && e | b == d
    ensures CountOnes(d) == CountOnes(e) + 1
  {
    CountWithBit(e, b);
  }

  lemma NothingRemains(bits: bv64, target: bv64, d: bv64, t: bv64)
    requires Remains(bits, target, d, t, !t)
    ensures d == 0 && bits == target && CountOnes(d) == 0
  {
    BothHalvesClear(d, t);
    XorIsZero(bits, target);
    OnesOfZero(TOP_BIT);
  }

  lemma BothHalvesClear(d: bv64, t: bv64)
    requires Clear(d, t) && Clear(d, !t)
    ensures d == 0
  {
  }

  lemma XorIsZero(x: bv64, y: bv64)
    requires x ^ y == 0
    ensures x == y
  {
  }

  lemma MaskedXor(x: bv64, y: bv64, t: bv64)
    ensures Xor(Masked(x, t), Masked(y, t)) == XorUnder(x, y, t)
  {
  }

  lemma ClearOutside(d: bv64, x: bv64, t: bv64)
    requires d == x & t
    ensures Clear(d, !t)
  {
  }

  lemma AtTheStart(x: bv64, y: bv64, start: bv64, target: bv64, t: bv64)
    requires start == Masked(x, t) && target == Masked(y, t)
    ensures Remains(start, target, XorUnder(x, y, t), 0, !t)
  {
    MaskedXor(x, y, t);
    ClearOutside(XorUnder(x, y, t), x ^ y, t);
  }

  // Hops.

  lemma MarkedDiffer(v: bv64, w: bv64, b: bv64, t: bv64, m: bv64)
    requires b & t == b && b & m == 0 && w == v ^ b
    ensures XorUnder(Marked(v, t, m), Marked(w, t, m), t) == b
  {
  }

  /** b is one of the bits of t, and not the marker. */
  predicate InsideMark(b: bv64, t: bv64, m: bv64) {
    b & t == b && b & m == 0
  }

  lemma FlipsInside(v: bv64, b: bv64, t: bv64, m: bv64)
    requires InsideMark(b, t, m)
    ensures XorUnder(Marked(v, t, m), Marked(Xor(v, b), t, m), t) == b
  {
    hide XorUnder, Marked;
    MarkedDiffer(v, Xor(v, b), b, t, m);
  }

  lemma BitInsidePrefix(len: bv8, i: bv8)
    requires StepAt(len, i)
    ensures SingleBit(OneAt(63 - i)) && InsideMark(OneAt(63 - i), TopBits(len), OneAt(63 - len))
  {
  }

  lemma NeighborsDiffer(left: ShardIdent, right: ShardIdent, len: bv8, b: bv64)
    requires left.PrefixLen() == Ok(len) && right.PrefixLen() == Ok(len) && len <= 60
      && left.workchain == right.workchain
    requires SingleBit(b) && XorUnder(left.prefix, right.prefix, TopBits(len)) == b
    ensures AreNeighbors(left, right)
  {
    CountSingle(b);
  }

  lemma PrefixOf(s: ShardIdent, v: bv64, len: bv8)
    requires FromPrefixBits(s.workchain, v, len) == Ok(s)
    ensures len <= 60 && s.PrefixLen() == Ok(len) && s.prefix == Marked(v, TopBits(len), OneAt(63 - len))
  {
    PrefixRoundTrip(s.workchain, v, len);
  }

  /** Flipping a prefix bit leads to a neighbor. */
  lemma FlipIsAHop(hop: RouteHop, v: bv64, w: bv64, len: bv8, b: bv64)
    requires len <= 60 && hop.from.workchain == hop.to.workchain && w == Xor(v, b)
    requires SingleBit(b) && InsideMark(b, TopBits(len), OneAt(63 - len))
    requires FromPrefixBits(hop.from.workchain, v, len) == Ok(hop.from)
    requires FromPrefixBits(hop.from.workchain, w, len) == Ok(hop.to)
    ensures AreNeighbors(hop.from, hop.to) && Difference(hop, len) == b
  {
    hide Xor, InsideMark, ShardIdent.PrefixLen, FromPrefixBits, AreNeighbors, XorUnder, Marked, TopBits, OneAt,
      SingleBit;
    PrefixOf(hop.from, v, len);
    PrefixOf(hop.to, w, len);
    FlipsInside(v, b, TopBits(len), OneAt(63 - len));
    NeighborsDiffer(hop.from, hop.to, len, b);
  }

  lemma ItsOwnBit(bit: bv8, other: bv8)
    requires bit < 64 && other < 64 && IsSet(OneAt(bit), other)
    ensures bit == other
  {
  }

  lemma OneIsNotZero(bit: bv8)
    requires bit < 64
    ensures OneAt(bit) != 0
  {
  }

  lemma LowestOfOne(bit: bv8)
    requires bit < 64
    ensures TrailingZeros(OneAt(bit)) == bit
  {
    OneIsNotZero(bit);
    ZeroBelowBitZero(OneAt(bit));
    LowestSetFound(OneAt(bit), 0);
    ItsOwnBit(bit, TrailingZeros(OneAt(bit)));
  }

  /** The hops lead from the source to current, flipping one bit after the other above the given one. */
  ghost predicate Leads(hops: seq<RouteHop>, source: ShardIdent, current: ShardIdent, flips: seq<bv8>, bit: bv8) {
    Follow(hops, source) == Some(current) && TopDown(flips) && AllAbove(flips, bit)
  }

  lemma OneLower(flips: seq<bv8>, bit: bv8, lower: bv8)
    requires TopDown(flips) && AllAbove(flips, bit) && bit > lower
    ensures TopDown(flips + [bit]) && AllAbove(flips + [bit], lower) && AllAbove(flips, lower)
  {
  }

  lemma LeadsOn(hops: seq<RouteHop>, source: ShardIdent, hop: RouteHop, flips: seq<bv8>, bit: bv8, lower: bv8)
    requires Leads(hops, source, hop.from, flips, bit) && AreNeighbors(hop.from, hop.to) && bit > lower
    ensures Leads(hops + [hop], source, hop.to, flips + [bit], lower)
  {
    FollowOneMore(hops, hop, source);
    OneLower(flips, bit, lower);
  }

  lemma LeadsBelow(hops: seq<RouteHop>, source: ShardIdent, current: ShardIdent, flips: seq<bv8>, bit: bv8, lower: bv8)
    requires Leads(hops, source, current, flips, bit) && bit > lower
    ensures Leads(hops, source, current, flips, lower)
  {
    OneLower(flips, bit, lower);
  }

  lemma FlipsOneMore(hops: seq<RouteHop>, hop: RouteHop, len: bv8)
    requires len <= 64
    ensures Flips(hops + [hop], len) == Flips(hops, len) + [TrailingZeros(Difference(hop, len))]
  {
    assert (hops + [hop])[..|hops|] == hops;
  }

  // The state of the loop: made and missing hops are as many as bits differed.

  ghost predicate WordsAt(p: Progress, target: bv64, len: bv8, done: bv64, total: nat) {
    && len <= 60 && FromPrefixBits(p.current.workchain, p.bits, len) == Ok(p.current)
    && Remains(p.bits, target, Xor(p.bits, target), done, !TopBits(len))
       && |p.hops| + CountOnes(Xor(p.bits, target)) == total
  }

  ghost predicate HopsAt(p: Progress, source: ShardIdent, len: bv8, bit: bv8) {
    && len <= 60 && p.current.workchain == source.workchain
    && Leads(p.hops, source, p.current, Flips(p.hops, len), bit)
  }

  lemma StayWords(p: Progress, target: bv64, len: bv8, t: bv64, b: bv64, u: bv64, total: nat)
    requires WordsAt(p, target, len, t, total) && NextBit(t, b, u, !TopBits(len)) && !Differs(p.bits, target, b)
    ensures WordsAt(p, target, len, u, total)
  {
    hide Xor, Differs, Clear, SingleBit, CountOnes, FromPrefixBits, TopBits;
    BitDiffers(p.bits, target, Xor(p.bits, target), b);
    ClearOfBoth(Xor(p.bits, target), t, b, u);
  }

  lemma HopWords(p: Progress, q: Progress, target: bv64, len: bv8, t: bv64, b: bv64, u: bv64, total: nat)
    requires WordsAt(p, target, len, t, total) && NextBit(t, b, u, !TopBits(len)) && Differs(p.bits, target, b)
    requires q.bits == Xor(p.bits, b) && FromPrefixBits(q.current.workchain, q.bits, len) == Ok(q.current)
    requires |q.hops| == |p.hops| + 1
    ensures WordsAt(q, target, len, u, total)
  {
    hide Xor, Remains, NextBit, Differs, Clear, SingleBit, CountOnes, FromPrefixBits, TopBits;
    RemainsFewer(p.bits, q.bits, target, Xor(p.bits, target), Xor(q.bits, target), t, b, u, !TopBits(len));
  }

  lemma HopHops(p: Progress, q: Progress, source: ShardIdent, hop: RouteHop, len: bv8, b: bv64, bit: bv8, lower: bv8)
    requires HopsAt(p, source, len, bit) && hop == RouteHop(p.current, q.current) && q.hops == p.hops + [hop]
    requires len <= 60 && SingleBit(b) && InsideMark(b, TopBits(len), OneAt(63 - len)) && TrailingZeros(b) == bit
      && bit > lower
    requires q.bits == Xor(p.bits, b) && p.current.workchain == q.current.workchain
    requires FromPrefixBits(p.current.workchain, p.bits, len) == Ok(p.current)
    requires FromPrefixBits(q.current.workchain, q.bits, len) == Ok(q.current)
    ensures HopsAt(q, source, len, lower)
  {
    hide Xor, InsideMark, TopBits, OneAt, FromPrefixBits, Leads, AreNeighbors, Flips, Difference, TrailingZeros;
    FlipIsAHop(hop, p.bits, q.bits, len, b);
    FlipsOneMore(p.hops, hop, len);
    LeadsOn(p.hops, source, hop, Flips(p.hops, len), bit, lower);
  }

  lemma FlipBitIs(p: Progress, target: bv64, len: bv8, i: bv8)
    requires StepAt(len, i)
    ensures
      var q := FlipBit(p, target, len, i);
      if Differs(p.bits, target, OneAt(63 - i)) then
        && q.hops == p.hops + [RouteHop(p.current, q.current)] && q.bits == Xor(p.bits, OneAt(63 - i))
        && q.current.workchain == p.current.workchain && FromPrefixBits(p.current.workchain, q.bits, len)
           == Ok(q.current)
      else q == p
  {
    hide Marked, TopBits, OneAt;
  }

  lemma OneLess(i: bv8)
    requires i < 60
    ensures i + 1 <= 60 && 63 - i < 64 && 63 - i > 63 - (i + 1)
  {
  }

  /** One bit of the prefix. */
  lemma FlipBitGoesOn(p: Progress, q: Progress, source: ShardIdent, target: bv64, len: bv8, i: bv8, total: nat)
    requires StepAt(len, i) && q == FlipBit(p, target, len, i)
    requires WordsAt(p, target, len, TopBits(i), total) && HopsAt(p, source, len, 63 - i)
    ensures i + 1 <= 60 && WordsAt(q, target, len, TopBits(i + 1), total) && HopsAt(q, source, len, 63 - (i + 1))
  {
    hide Xor, FlipBit, Remains, Differs, InsideMark, NextBit, TopBits, OneAt, Leads, Flips, CountOnes, TrailingZeros,
      FromPrefixBits;
    OneLess(i);
    FlipBitIs(p, target, len, i);
    TopGrows(len, i);
    if Differs(p.bits, target, OneAt(63 - i)) {
      BitInsidePrefix(len, i);
      LowestOfOne(63 - i);
      HopWords(p, q, target, len, TopBits(i), OneAt(63 - i), TopBits(i + 1), total);
      HopHops(p, q, source, RouteHop(p.current, q.current), len, OneAt(63 - i), 63 - i, 63 - (i + 1));
    } else {
      StayWords(p, target, len, TopBits(i), OneAt(63 - i), TopBits(i + 1), total);
      LeadsBelow(p.hops, source, p.current, Flips(p.hops, len), 63 - i, 63 - (i + 1));
    }
  }

  lemma MaskTwice(w: bv64, t: bv64)
    ensures Masked(w, t) & t == w & t
  {
  }

  lemma MarkedUnder(v: bv64, w: bv64, t: bv64, m: bv64)
    requires v & t == w & t
    ensures Marked(v, t, m) == Marked(w, t, m)
  {
  }

  lemma ShardOfMasked(s: ShardIdent, v: bv64, len: bv8)
    requires s.PrefixLen() == Ok(len) && len <= 60 && v == Masked(s.prefix, TopBits(len))
    ensures FromPrefixBits(s.workchain, v, len) == Ok(s)
  {
    hide ShardIdent.PrefixLen, Marked, TopBits, OneAt;
    PrefixIsCanonical(s, len);
    MaskTwice(s.prefix, TopBits(len));
    MarkedUnder(v, s.prefix, TopBits(len), OneAt(63 - len));
  }

  lemma NothingDone(source: ShardIdent, start: bv64, target: bv64, len: bv8)
    requires len <= 60
    ensures TopBits(0) == 0 && HopsAt(Progress([], source, start), source, len, 63)
  {
  }

  lemma AtTheSource(source: ShardIdent, destination: ShardIdent, start: bv64, target: bv64, len: bv8, p: Progress)
    requires SameDepth(source, destination) && source.PrefixLen() == Ok(len) && len <= 60
    requires start == Masked(source.prefix, TopBits(len)) && target == Masked(destination.prefix, TopBits(len))
    requires p == Progress([], source, start)
    ensures WordsAt(p, target, len, TopBits(0), Distance(source, destination)) && HopsAt(p, source, len, 63)
  {
    hide ShardIdent.PrefixLen, FromPrefixBits, Masked, TopBits, CountOnes, XorUnder, Clear;
    NothingDone(source, start, target, len);
    ShardOfMasked(source, start, len);
    AtTheStart(source.prefix, destination.prefix, start, target, TopBits(len));
  }

  lemma OnArrival(p: Progress, source: ShardIdent, destination: ShardIdent, target: bv64, len: bv8, total: nat)
    requires SameDepth(source, destination) && source.PrefixLen() == Ok(len) && total == Distance(source, destination)
    requires target == Masked(destination.prefix, TopBits(len))
    requires len <= 60 && WordsAt(p, target, len, TopBits(len), total) && HopsAt(p, source, len, 63 - len)
    ensures IsCanonicalRoute(p.hops, source, destination)
  {
    hide ShardIdent.PrefixLen, FromPrefixBits, Masked, TopBits, Clear, CountOnes, Distance, Flips, TopDown, Follow,
      Remains;
    NothingRemains(p.bits, target, Xor(p.bits, target), TopBits(len));
    ShardOfMasked(destination, target, len);
  }

  lemma NextIndex(len: bv8, i: bv8)
    requires i < len && len <= 60
    ensures StepAt(len, i) && i + 1 <= len && len - (i + 1) < len - i
  {
  }

  /** The hops of the canonical route. */
  method FlipBits(source: ShardIdent, destination: ShardIdent, len: bv8) returns (hops: seq<RouteHop>)
    requires SameDepth(source, destination) && source.PrefixLen() == Ok(len) && len <= 60
    ensures IsCanonicalRoute(hops, source, destination)
  {
    hide *;
    var start, target := Masked(source.prefix, TopBits(len)), Masked(destination.prefix, TopBits(len));
    ghost var total := Distance(source, destination);
    var route := Progress([], source, start);
    AtTheSource(source, destination, start, target, len, route);
    var i: bv8 := 0;
    while i < len
      invariant i <= len && WordsAt(route, target, len, TopBits(i), total) && HopsAt(route, source, len, 63 - i)
      decreases len - i
    {
      NextIndex(len, i);
      FlipBitGoesOn(route, FlipBit(route, target, len, i), source, target, len, i, total);
      route := FlipBit(route, target, len, i);
      i := i + 1;
    }
    OnArrival(route, source, destination, target, len, total);
    return route.hops;
  }

  lemma RouteLength(hops: seq<RouteHop>, source: ShardIdent, destination: ShardIdent)
    requires IsCanonicalRoute(hops, source, destination)
    ensures |hops| == Distance(source, destination)
  {
  }

  /** Plans the canonical route and pays for it out of the message. */
  method PlanHypercubeRoute(message: Message, source: ShardIdent, destination: ShardIdent, feePerHop: u128)
    returns (r: Result<RoutePlan, RouteError>)
    ensures !EndpointsMatch(message, source, destination) <==> r == Err(RouteEndpointMismatch)
    ensures EndpointsMatch(message, source, destination) && !SameDepth(source, destination) <==>
      r == Err(IncompatibleRoute)
    ensures EndpointsMatch(message, source, destination) && SameDepth(source, destination) ==>
      (r.Ok? <==> feePerHop * Distance(source, destination) <= message.amount)
    ensures r.Err? && r.error.InsufficientTransitFee? ==>
      && SameDepth(source, destination) && r.error.available == message.amount
      && r.error.required == Min(feePerHop * Distance(source, destination), U128_MAX)
    ensures r.Ok? ==> IsCanonicalRoute(r.value.hops, source, destination)
    ensures r.Ok? ==>
      && r.value.transitFee == feePerHop * |r.value.hops|
      && r.value.transitFee + r.value.remaining == message.amount
  {
    hide IsCanonicalRoute, Distance, ShardIdent.PrefixLen;
    if message.kind != Internal || message.ValidateSourceShard(source).Err?
      || message.ValidateDestShard(destination).Err? {
      return Err(RouteEndpointMismatch);
    }
    var measured := source.PrefixLen();
    if measured.Err? {
      return Err(IncompatibleRoute);
    }
    var len := measured.value;
    PrefixLenIsMarker(source, len);
    if source.workchain != destination.workchain || destination.PrefixLen() != Ok(len) {
      return Err(IncompatibleRoute);
    }
    var hops := FlipBits(source, destination, len);
    RouteLength(hops, source, destination);
    var product := feePerHop * |hops|;
    if product > U128_MAX {
      return Err(InsufficientTransitFee(message.amount, U128_MAX));
    }
    if product > message.amount {
      return Err(InsufficientTransitFee(message.amount, product));
    }
    return Ok(RoutePlan(hops, product, message.amount - product));
  }
}
