/**
 Shard identifiers (crates/protocol/onx-data-structures/src/shard.rs, address.rs).
 A prefix of L bits (L at most 60) is kept in the top L bits of a 64-bit word, followed by a
 marker bit and zeros.  Words are bit-vectors, so shifts and masks are those of the machine.
 */
module ShardIdents {
  import opened Wrappers
  import opened Bytes

  datatype ShardError =
    | PrefixLengthExceeded(length: bv8)
    | InvalidMarker
    | AddressShardMismatch

  /** 256-bit account identifiers as bytes. */
  type AccountId = bytes32

  /** The first eight bytes as a big-endian word. */
  function Head(a: AccountId): bv64 {
    ((a[0] as bv64) << 56) | ((a[1] as bv64) << 48) | ((a[2] as bv64) << 40) | ((a[3] as bv64) << 32)
    | ((a[4] as bv64) << 24) | ((a[5] as bv64) << 16) | ((a[6] as bv64) << 8) | (a[7] as bv64)
  }

  datatype FullAddress = FullAddress(workchain: int, account: AccountId)

  const MASTERCHAIN := -1

  /** The top len bits. */
  function TopBits(len: bv8): bv64
    requires len <= 64
  {
    if len == 0 then 0 else !(0 as bv64) << (64 - len)
  }

  function OneAt(bit: bv8): bv64
    requires bit < 64
  {
    (1 as bv64) << bit
  }

  /** The bits of v selected by top, and a marker. */
  function Marked(v: bv64, top: bv64, marker: bv64): bv64 {
    (v & top) | marker
  }

  /** x and y agree on the bits of m. */
  predicate EqUnder(x: bv64, m: bv64, y: bv64) {
    x & m == y & m
  }

  /** The bits of m in which x and y differ. */
  function XorUnder(x: bv64, y: bv64, m: bv64): bv64 {
    (x ^ y) & m
  }

  predicate SingleBit(b: bv64) {
    b != 0 && b & (b - 1) == 0
  }

  predicate IsSet(v: bv64, bit: bv8)
    requires bit < 64
  {
    v & OneAt(bit) != 0
  }

  predicate ClearBelow(v: bv64, bit: bv8)
    requires bit < 64
  {
    v & (OneAt(bit) - 1) == 0
  }

  /** The index of the lowest set bit at or above k. */
  function LowestSetFrom(v: bv64, k: bv8): bv8
    requires k < 64
    decreases 64 - k
  {
    if IsSet(v, k) || k == 63 then k else LowestSetFrom(v, k + 1)
  }

  function TrailingZeros(v: bv64): bv8 {
    LowestSetFrom(v, 0)
  }

  /** The marker of v stands right after len prefix bits. */
  predicate MarkedAt(v: bv64, len: bv8) {
    len < 64 && IsSet(v, 63 - len) && ClearBelow(v, 63 - len)
  }

  lemma ClearBelowNext(v: bv64, k: bv8)
    requires k < 63 && ClearBelow(v, k) && !IsSet(v, k)
    ensures ClearBelow(v, k + 1)
  {
  }

  lemma OnlyTopBitLeft(v: bv64)
    requires ClearBelow(v, 63) && v != 0
    ensures IsSet(v, 63)
  {
  }

  lemma {:induction false} LowestSetFound(v: bv64, k: bv8)
    requires k < 64 && v != 0 && ClearBelow(v, k)
    ensures
      var t := LowestSetFrom(v, k);
      t < 64 && IsSet(v, t) && ClearBelow(v, t)
    decreases 64 - k
  {
    if !IsSet(v, k) {
      if k == 63 {
        OnlyTopBitLeft(v);
      } else {
        assert k + 1 < 64 && 64 - (k + 1) < 64 - k;
        ClearBelowNext(v, k);
        LowestSetFound(v, k + 1);
      }
    }
  }

  lemma MarkerIsUnique(v: bv64, len: bv8, other: bv8)
    requires MarkedAt(v, len) && MarkedAt(v, other)
    ensures len == other
  {
  }

  datatype ShardIdent = ShardIdent(workchain: int, prefix: bv64) {
    function PrefixLen(): Result<bv8, ShardError> {
      if prefix == 0 then Err(InvalidMarker)
      else
        var len := 63 - TrailingZeros(prefix);
        if len > 60 then Err(PrefixLengthExceeded(len)) else Ok(len)
    }

    function ContainsAccount(a: AccountId): Result<bool, ShardError> {
      var len :- PrefixLen();
      if len == 0 then Ok(true) else Ok(EqUnder(prefix, TopBits(len), Head(a)))
    }

    function ValidateAccountId(a: AccountId): Result<(), ShardError> {
      var inside :- ContainsAccount(a);
      if inside then Ok(()) else Err(AddressShardMismatch)
    }

    function ValidateFullAddress(address: FullAddress): Result<(), ShardError> {
      if workchain != address.workchain then Err(AddressShardMismatch) else ValidateAccountId(address.account)
    }

    /** A proper identifier: a marker after at most 60 prefix bits. */
    predicate Proper() {
      PrefixLen().Ok?
    }

    /** The account lies below this prefix. */
    predicate Owns(a: AccountId) {
      ContainsAccount(a) == Ok(true)
    }
  }

  /** The shard with the first len bits of bits as its prefix. */
  function FromPrefixBits(workchain: int, bits: bv64, len: bv8): Result<ShardIdent, ShardError> {
    if len > 60 then Err(PrefixLengthExceeded(len))
    else Ok(ShardIdent(workchain, Marked(bits, TopBits(len), OneAt(63 - len))))
  }

  lemma MarkerOfLowest(v: bv64, t: bv8)
    requires t < 64 && IsSet(v, t) && ClearBelow(v, t)
    ensures MarkedAt(v, 63 - t)
  {
    assert 63 - (63 - t) == t && 63 - t < 64;
  }

  lemma PrefixLenIsMarker(s: ShardIdent, len: bv8)
    ensures s.PrefixLen() == Ok(len) <==> len <= 60 && MarkedAt(s.prefix, len)
  {
    if s.prefix == 0 {
      ZeroHasNoMarker(len);
    } else {
      ZeroBelowBitZero(s.prefix);
      LowestSetFound(s.prefix, 0);
      var t := TrailingZeros(s.prefix);
      MarkerOfLowest(s.prefix, t);
      if MarkedAt(s.prefix, len) {
        MarkerIsUnique(s.prefix, 63 - t, len);
      }
    }
  }

  lemma ZeroHasNoMarker(len: bv8)
    ensures !MarkedAt(0, len)
  {
  }

  lemma ZeroBelowBitZero(v: bv64)
    ensures ClearBelow(v, 0)
  {
  }

  lemma MarkedWord(bits: bv64, len: bv8)
    requires len <= 60
    ensures
      var word := Marked(bits, TopBits(len), OneAt(63 - len));
      MarkedAt(word, len) && EqUnder(word, TopBits(len), bits)
  {
  }

  /** The masks cover a word, and v has all of the marker and none of the bits below. */
  predicate FitsMasks(v: bv64, top: bv64, marker: bv64, low: bv64) {
    top | marker | low == !(0 as bv64) && v & marker == marker && v & low == 0
  }

  lemma MasksCoverWord(len: bv8)
    requires len <= 60
    ensures TopBits(len) | OneAt(63 - len) | (OneAt(63 - len) - 1) == !(0 as bv64)
  {
  }

  lemma MarkerIsKept(v: bv64, bit: bv8)
    requires bit < 64 && IsSet(v, bit)
    ensures v & OneAt(bit) == OneAt(bit)
  {
  }

  lemma MarkedWordFits(v: bv64, len: bv8)
    requires MarkedAt(v, len) && len <= 60
    ensures FitsMasks(v, TopBits(len), OneAt(63 - len), OneAt(63 - len) - 1)
  {
    hide TopBits, OneAt;
    MasksCoverWord(len);
    MarkerIsKept(v, 63 - len);
  }

  lemma FittingIsMarked(v: bv64, top: bv64, marker: bv64, low: bv64)
    requires FitsMasks(v, top, marker, low)
    ensures Marked(v, top, marker) == v
  {
  }

  lemma MarkedWordIsCanonical(v: bv64, len: bv8)
    requires MarkedAt(v, len) && len <= 60
    ensures Marked(v, TopBits(len), OneAt(63 - len)) == v
  {
    hide *;
    MarkedWordFits(v, len);
    FittingIsMarked(v, TopBits(len), OneAt(63 - len), OneAt(63 - len) - 1);
  }

  /** Encoding and decoding prefixes are inverse to each other. */
  lemma PrefixRoundTrip(workchain: int, bits: bv64, len: bv8)
    requires len <= 60
    ensures
      var s := FromPrefixBits(workchain, bits, len).value;
      s.PrefixLen() == Ok(len) && EqUnder(s.prefix, TopBits(len), bits)
  {
    MarkedWord(bits, len);
    PrefixLenIsMarker(FromPrefixBits(workchain, bits, len).value, len);
  }

  lemma PrefixIsCanonical(s: ShardIdent, len: bv8)
    requires s.PrefixLen() == Ok(len)
    ensures FromPrefixBits(s.workchain, s.prefix, len) == Ok(s)
  {
    PrefixLenIsMarker(s, len);
    MarkedWordIsCanonical(s.prefix, len);
  }
}
