/**
 Splitting and merging shards (crates/protocol/onx-sharding/src/lib.rs, pipeline.rs): the
 arithmetic on shard prefixes, and the migration of accounts and pending messages.
 */
module Sharding {
  import opened Wrappers
  import opened Bytes
  import opened HeadWords
  import opened ShardIdents
  import opened Messages
  import opened AccountStates

  datatype ShardingError =
    | InvalidShardPrefixLength
    | InvalidMergeSiblings
    | AccountOutsideShard
    | MessageOutsideShard

  // ---------- Prefix arithmetic ----------

  /** The children of the word v: b is the bit after the prefix, and c the one after that. */
  function LeftOf(v: bv64, b: bv64, c: bv64): bv64 {
    (v & !b) | c
  }

  function RightOf(v: bv64, b: bv64, c: bv64): bv64 {
    v | b | c
  }

  function LeftWord(v: bv64, len: bv8): bv64
    requires len < 60
  {
    LeftOf(v, OneAt(63 - len), OneAt(62 - len))
  }

  function RightWord(v: bv64, len: bv8): bv64
    requires len < 60
  {
    RightOf(v, OneAt(63 - len), OneAt(62 - len))
  }

  /** The two children of a shard; a prefix of 60 bits cannot be split. */
  function SplitLeaf(s: ShardIdent): Result<(ShardIdent, ShardIdent), ShardingError> {
    match s.PrefixLen()
    case Err(_) => Err(InvalidShardPrefixLength)
    case Ok(len) =>
      if len >= 60 then Err(InvalidShardPrefixLength)
      else Ok((s.(prefix := LeftWord(s.prefix, len)), s.(prefix := RightWord(s.prefix, len))))
  }

  function CommonParent(first: ShardIdent, second: ShardIdent): Result<ShardIdent, ShardingError> {
    match first.PrefixLen()
    case Err(_) => Err(InvalidMergeSiblings)
    case Ok(len) =>
      if len == 0 || len > 60 || first.workchain != second.workchain || second.PrefixLen() != Ok(len) then
        Err(InvalidMergeSiblings)
      else if XorUnder(first.prefix, second.prefix, TopBits(len)) != OneAt(64 - len) then Err(InvalidMergeSiblings)
      else
        match FromPrefixBits(first.workchain, first.prefix, len - 1)
        case Err(_) => Err(InvalidMergeSiblings)
        case Ok(parent) => Ok(parent)
  }

  // Facts about words are proved for masks of which only the following is known: t are the bits
  // of a prefix, b is the bit after them, c the one after that, and u is t and b together.

  predicate Apart(t: bv64, b: bv64, c: bv64, u: bv64) {
    t & b == 0 && c & (t | b) == 0 && b != 0 && u == t | b
  }

  predicate Has(x: bv64, b: bv64) {
    x & b != 0
  }

  lemma MasksAreApart(len: bv8)
    requires len < 60
    ensures Apart(TopBits(len), OneAt(63 - len), OneAt(62 - len), TopBits(len + 1))
  {
  }

  lemma IsSingleBit(bit: bv8)
    requires bit < 64
    ensures SingleBit(OneAt(bit))
  {
  }

  lemma LeftChildBelow(v: bv64, head: bv64, t: bv64, b: bv64, c: bv64, u: bv64)
    requires Apart(t, b, c, u) && EqUnder(LeftOf(v, b, c), u, head)
    ensures EqUnder(v, t, head)
  {
  }

  lemma LeftChildBit(v: bv64, head: bv64, t: bv64, b: bv64, c: bv64, u: bv64)
    requires Apart(t, b, c, u) && EqUnder(LeftOf(v, b, c), u, head)
    ensures !Has(head, b)
  {
  }

  lemma GoesLeft(v: bv64, head: bv64, t: bv64, b: bv64, c: bv64, u: bv64)
    requires Apart(t, b, c, u) && EqUnder(v, t, head) && !Has(head, b)
    ensures EqUnder(LeftOf(v, b, c), u, head)
  {
  }

  lemma RightChildBelow(v: bv64, head: bv64, t: bv64, b: bv64, c: bv64, u: bv64)
    requires Apart(t, b, c, u) && EqUnder(RightOf(v, b, c), u, head)
    ensures EqUnder(v, t, head)
  {
  }

  lemma RightChildBit(v: bv64, head: bv64, t: bv64, b: bv64, c: bv64, u: bv64)
    requires Apart(t, b, c, u) && EqUnder(RightOf(v, b, c), u, head)
    ensures Has(head, b)
  {
  }

  predicate HasAll(x: bv64, b: bv64) {
    x & b == b
  }

  lemma HasSingleBit(x: bv64, b: bv64)
    requires SingleBit(b) && Has(x, b)
    ensures HasAll(x, b)
  {
  }

  lemma GoesRight(v: bv64, head: bv64, t: bv64, b: bv64, c: bv64, u: bv64)
    requires Apart(t, b, c, u) && EqUnder(v, t, head) && HasAll(head, b)
    ensures EqUnder(RightOf(v, b, c), u, head)
  {
  }

  lemma BelowLeftChild(v: bv64, head: bv64, t: bv64, b: bv64, c: bv64, u: bv64)
    requires Apart(t, b, c, u)
    ensures EqUnder(LeftOf(v, b, c), u, head) <==> EqUnder(v, t, head) && !Has(head, b)
  {
    if EqUnder(LeftOf(v, b, c), u, head) {
      LeftChildBelow(v, head, t, b, c, u);
      LeftChildBit(v, head, t, b, c, u);
    } else if EqUnder(v, t, head) && !Has(head, b) {
      GoesLeft(v, head, t, b, c, u);
    }
  }

  lemma BelowRightChild(v: bv64, head: bv64, t: bv64, b: bv64, c: bv64, u: bv64)
    requires Apart(t, b, c, u) && SingleBit(b)
    ensures EqUnder(RightOf(v, b, c), u, head) <==> EqUnder(v, t, head) && Has(head, b)
  {
    if EqUnder(RightOf(v, b, c), u, head) {
      RightChildBelow(v, head, t, b, c, u);
      RightChildBit(v, head, t, b, c, u);
    } else if EqUnder(v, t, head) && Has(head, b) {
      HasSingleBit(head, b);
      GoesRight(v, head, t, b, c, u);
    }
  }

  /** An account below a shard lies below exactly one of its children. */
  lemma ChildWordsPartition(v: bv64, len: bv8, head: bv64)
    requires len < 60
    ensures EqUnder(v, TopBits(len), head) <==>
      EqUnder(LeftWord(v, len), TopBits(len + 1), head) || EqUnder(RightWord(v, len), TopBits(len + 1), head)
    ensures !(EqUnder(LeftWord(v, len), TopBits(len + 1), head) && EqUnder(RightWord(v, len), TopBits(len + 1), head))
  {
    MasksAreApart(len);
    IsSingleBit(63 - len);
    BelowLeftChild(v, head, TopBits(len), OneAt(63 - len), OneAt(62 - len), TopBits(len + 1));
    BelowRightChild(v, head, TopBits(len), OneAt(63 - len), OneAt(62 - len), TopBits(len + 1));
  }

  lemma LeftWordIsMarked(v: bv64, len: bv8)
    requires MarkedAt(v, len) && len < 60
    ensures MarkedAt(LeftWord(v, len), len + 1)
  {
  }

  lemma RightWordIsMarked(v: bv64, len: bv8)
    requires MarkedAt(v, len) && len < 60
    ensures MarkedAt(RightWord(v, len), len + 1)
  {
  }

  lemma ChildrenDiffer(v: bv64, t: bv64, b: bv64, c: bv64, u: bv64)
    requires Apart(t, b, c, u)
    ensures XorUnder(LeftOf(v, b, c), RightOf(v, b, c), u) == b
    ensures XorUnder(RightOf(v, b, c), LeftOf(v, b, c), u) == b
  {
  }

  lemma ChildrenKeepTop(v: bv64, t: bv64, b: bv64, c: bv64, u: bv64)
    requires Apart(t, b, c, u)
    ensures Marked(LeftOf(v, b, c), t, b) == Marked(v, t, b)
    ensures Marked(RightOf(v, b, c), t, b) == Marked(v, t, b)
  {
    hide Apart, Marked, LeftOf, RightOf;
    LeftKeepsTop(v, t, b, c, u);
    RightKeepsTop(v, t, b, c, u);
  }

  lemma LeftKeepsTop(v: bv64, t: bv64, b: bv64, c: bv64, u: bv64)
    requires Apart(t, b, c, u)
    ensures Marked(LeftOf(v, b, c), t, b) == Marked(v, t, b)
  {
  }

  lemma RightKeepsTop(v: bv64, t: bv64, b: bv64, c: bv64, u: bv64)
    requires Apart(t, b, c, u)
    ensures Marked(RightOf(v, b, c), t, b) == Marked(v, t, b)
  {
  }

  lemma LowerSibling(x: bv64, y: bv64, t: bv64, b: bv64, c: bv64, u: bv64)
    requires Apart(t, b, c, u) && SingleBit(b) && XorUnder(x, y, u) == b && !Has(x, b)
    requires Marked(x, u, c) == x && Marked(y, u, c) == y
    ensures x == LeftOf(Marked(x, t, b), b, c) && y == RightOf(Marked(x, t, b), b, c)
  {
  }

  lemma UpperSibling(x: bv64, y: bv64, t: bv64, b: bv64, c: bv64, u: bv64)
    requires Apart(t, b, c, u) && SingleBit(b) && XorUnder(x, y, u) == b && Has(x, b)
    ensures !Has(y, b) && XorUnder(y, x, u) == b
  {
  }

  lemma SiblingsShareTop(x: bv64, y: bv64, t: bv64, b: bv64, c: bv64, u: bv64)
    requires Apart(t, b, c, u) && XorUnder(x, y, u) == b
    ensures Marked(x, t, b) == Marked(y, t, b)
  {
  }

  lemma Siblings(x: bv64, y: bv64, t: bv64, b: bv64, c: bv64, u: bv64)
    requires Apart(t, b, c, u) && SingleBit(b) && XorUnder(x, y, u) == b
    requires Marked(x, u, c) == x && Marked(y, u, c) == y
    ensures
      var v := Marked(x, t, b);
      (x == LeftOf(v, b, c) && y == RightOf(v, b, c)) || (y == LeftOf(v, b, c) && x == RightOf(v, b, c))
  {
    if Has(x, b) {
      UpperSibling(x, y, t, b, c, u);
      SiblingsShareTop(x, y, t, b, c, u);
      LowerSibling(y, x, t, b, c, u);
    } else {
      LowerSibling(x, y, t, b, c, u);
    }
  }

  lemma SiblingWords(x: bv64, y: bv64, len: bv8)
    requires len < 60 && MarkedAt(x, len + 1) && MarkedAt(y, len + 1)
    requires XorUnder(x, y, TopBits(len + 1)) == OneAt(63 - len)
    ensures
      var v := Marked(x, TopBits(len), OneAt(63 - len));
      (x == LeftWord(v, len) && y == RightWord(v, len)) || (y == LeftWord(v, len) && x == RightWord(v, len))
  {
    MasksAreApart(len);
    IsSingleBit(63 - len);
    ShiftIndex(len);
    MarkedWordIsCanonical(x, len + 1);
    MarkedWordIsCanonical(y, len + 1);
    Siblings(x, y, TopBits(len), OneAt(63 - len), OneAt(62 - len), TopBits(len + 1));
  }

  lemma ShiftIndex(len: bv8)
    requires len < 60
    ensures len + 1 <= 60 && 63 - (len + 1) == 62 - len && 64 - (len + 1) == 63 - len && len + 1 - 1 == len
      && len + 1 != 0
  {
  }

  lemma LenIsSmall(s: ShardIdent, len: bv8)
    requires s.PrefixLen() == Ok(len)
    ensures len <= 60 && MarkedAt(s.prefix, len)
  {
    PrefixLenIsMarker(s, len);
  }

  lemma NothingMatches(x: bv64, y: bv64)
    ensures EqUnder(x, TopBits(0), y)
  {
  }

  lemma OwnsIsMatch(s: ShardIdent, len: bv8, a: AccountId)
    requires s.PrefixLen() == Ok(len) && len <= 60
    ensures s.Owns(a) <==> EqUnder(s.prefix, TopBits(len), Head(a))
  {
    NothingMatches(s.prefix, Head(a));
  }

  // ---------- Bits of accounts ----------

  lemma ByteBit(b: byte, j: bv8)
    requires j < 8
    ensures j as nat < 8 && (Bit(b, j as nat) <==> OctetHas(b, j))
  {
    if j < 4 {
      assert j == 0 || j == 1 || j == 2 || j == 3;
    } else {
      assert j == 4 || j == 5 || j == 6 || j == 7;
    }
  }

  lemma ByteIndex(i: bv8)
    requires i < 64
    ensures i as nat / 8 == (i >> 3) as nat && i as nat % 8 == (i & 7) as nat && (i & 7) < 8
  {
  }

  lemma ByteAt(a: AccountId, i: bv8)
    requires i < 64
    ensures (i >> 3) as nat < 32
    ensures a[(i >> 3) as nat] == Chosen(a[0], a[1], a[2], a[3], a[4], a[5], a[6], a[7], i)
  {
    assert i >> 3 == if i < 8 then 0 else if i < 16 then 1 else if i < 24 then 2 else if i < 32 then 3
                     else if i < 40 then 4 else if i < 48 then 5 else if i < 56 then 6 else 7;
  }

  lemma HeadIsWord(a: AccountId)
    ensures Head(a) == Word(a[0], a[1], a[2], a[3], a[4], a[5], a[6], a[7])
  {
  }

  lemma FromTheTop(i: bv8)
    requires i < 64
    ensures 63 - i < 64
  {
  }

  lemma SetIsHas(v: bv64, bit: bv8)
    requires bit < 64
    ensures IsSet(v, bit) <==> Has(v, OneAt(bit))
  {
    hide OneAt;
  }

  lemma SetInWord(v: bv64, bit: bv8, i: bv8)
    requires i < 64 && bit < 64 && bit == 63 - i
    ensures IsSet(v, bit) <==> WordHas(v, i)
  {
    assert OneAt(bit) == (1 as bv64) << (63 - i);
    hide OneAt;
  }

  lemma BitOfBytes(a: AccountId, i: nat, byteAt: nat, bit: nat)
    requires i < 256 && byteAt == i / 8 && bit == i % 8
    ensures BitAt(a, i) <==> Bit(a[byteAt], bit)
  {
  }

  /** Bit i of the head word, from the top, is bit i of the account. */
  lemma HeadBit(a: AccountId, i: bv8)
    requires i < 64
    ensures i as nat < 256 && (IsSet(Head(a), 63 - i) <==> BitAt(a, i as nat))
  {
    hide *;
    ByteIndex(i);
    ByteAt(a, i);
    HeadIsWord(a);
    FromTheTop(i);
    SetInWord(Head(a), 63 - i, i);
    WordBit(a[0], a[1], a[2], a[3], a[4], a[5], a[6], a[7], i);
    ByteBit(a[(i >> 3) as nat], i & 7);
    BitOfBytes(a, i as nat, (i >> 3) as nat, (i & 7) as nat);
  }

  lemma EqualOnMore(x: bv64, y: bv64, t: bv64, b: bv64, u: bv64)
    requires EqUnder(x, t, y) && EqUnder(x, b, y) && u == t | b
    ensures EqUnder(x, u, y)
  {
  }

  lemma EqualOnLess(x: bv64, y: bv64, t: bv64, b: bv64, u: bv64)
    requires EqUnder(x, u, y) && u == t | b
    ensures EqUnder(x, t, y) && EqUnder(x, b, y)
  {
  }

  lemma BitIsOrIsNot(v: bv64, b: bv64)
    requires SingleBit(b)
    ensures v & b == 0 || v & b == b
  {
  }

  lemma EqualInBit(x: bv64, y: bv64, b: bv64)
    requires SingleBit(b)
    ensures EqUnder(x, b, y) <==> (Has(x, b) <==> Has(y, b))
  {
    BitIsOrIsNot(x, b);
    BitIsOrIsNot(y, b);
  }

  lemma EqualOnOneMore(x: bv64, y: bv64, t: bv64, b: bv64, u: bv64)
    requires SingleBit(b) && u == t | b
    ensures EqUnder(x, u, y) <==> EqUnder(x, t, y) && (Has(x, b) <==> Has(y, b))
  {
    hide *;
    EqualInBit(x, y, b);
    if EqUnder(x, u, y) {
      EqualOnLess(x, y, t, b, u);
    } else if EqUnder(x, t, y) && EqUnder(x, b, y) {
      EqualOnMore(x, y, t, b, u);
    }
  }

  predicate SharesBit(s: ShardIdent, i: bv8, a: AccountId)
    requires i < 64
  {
    IsSet(s.prefix, 63 - i) <==> i as nat < 256 && BitAt(a, i as nat)
  }

  /** The first len bits of the shard are those of the account. */
  ghost predicate SharesPrefix(s: ShardIdent, len: bv8, a: AccountId)
    requires len <= 60
  {
    forall i: bv8 :: i < len ==> SharesBit(s, i, a)
  }

  lemma TopOneMore(len: bv8)
    requires 0 < len <= 60
    ensures len - 1 < 60 && 63 - (len - 1) < 64 && TopBits(len) == TopBits(len - 1) | OneAt(63 - (len - 1))
      && SingleBit(OneAt(63 - (len - 1)))
  {
  }

  lemma {:induction false} EqualByBits(s: ShardIdent, len: bv8, a: AccountId)
    requires len <= 60
    ensures EqUnder(s.prefix, TopBits(len), Head(a)) <==> SharesPrefix(s, len, a)
    decreases len
  {
    hide *;
    if len == 0 {
      NothingMatches(s.prefix, Head(a));
      NothingShared(s, a);
    } else {
      TopOneMore(len);
      EqualByBits(s, len - 1, a);
      EqualOnOneMore(s.prefix, Head(a), TopBits(len - 1), OneAt(63 - (len - 1)), TopBits(len));
      SetIsHas(s.prefix, 63 - (len - 1));
      SetIsHas(Head(a), 63 - (len - 1));
      HeadBit(a, len - 1);
      OneMoreShared(s, len, a);
    }
  }

  lemma NothingShared(s: ShardIdent, a: AccountId)
    ensures SharesPrefix(s, 0, a)
  {
  }

  lemma OneMoreShared(s: ShardIdent, len: bv8, a: AccountId)
    requires 0 < len <= 60
    ensures len - 1 < 60 && (len - 1) as nat < 256
    ensures SharesPrefix(s, len, a) <==>
      SharesPrefix(s, len - 1, a) && (IsSet(s.prefix, 63 - (len - 1)) <==> BitAt(a, (len - 1) as nat))
  {
    hide OneAt, BitAt, IsSet;
    assert (len - 1) as nat < 256;
    assert SharesBit(s, len - 1, a) <==> (IsSet(s.prefix, 63 - (len - 1)) <==> BitAt(a, (len - 1) as nat));
    hide SharesBit;
    if SharesPrefix(s, len - 1, a) && SharesBit(s, len - 1, a) {
      forall i: bv8 | i < len
        ensures SharesBit(s, i, a)
      {
        assert i < len - 1 || i == len - 1;
      }
    }
    if SharesPrefix(s, len, a) {
      forall i: bv8 | i < len - 1
        ensures SharesBit(s, i, a)
      {
        assert i < len;
      }
    }
  }

  /** A shard owns exactly the accounts that begin with its prefix bits. */
  lemma OwnsExactlyItsPrefix(s: ShardIdent, len: bv8, a: AccountId)
    requires s.PrefixLen() == Ok(len)
    ensures len <= 60 && (s.Owns(a) <==> SharesPrefix(s, len, a))
  {
    hide SharesPrefix, TopBits, Head;
    LenIsSmall(s, len);
    OwnsIsMatch(s, len, a);
    EqualByBits(s, len, a);
  }

  /** Of a shard split after len bits, the left child owns the accounts whose bit number len is 0, the right child the
       others. */
  lemma ChildrenByBit(s: ShardIdent, len: bv8, a: AccountId)
    requires s.PrefixLen() == Ok(len) && SplitLeaf(s).Ok?
    ensures
      var (left, right) := SplitLeaf(s).value;
      && len as nat < 256
      && (left.Owns(a) <==> s.Owns(a) && !BitAt(a, len as nat))
      && (right.Owns(a) <==> s.Owns(a) && BitAt(a, len as nat))
  {
    var (left, right) := SplitLeaf(s).value;
    LenIsSmall(s, len);
    ShiftIndex(len);
    LeftWordIsMarked(s.prefix, len);
    RightWordIsMarked(s.prefix, len);
    PrefixLenIsMarker(left, len + 1);
    PrefixLenIsMarker(right, len + 1);
    hide ShardIdent.PrefixLen, Head, TopBits, OneAt, LeftWord, RightWord, MarkedAt;
    OwnsIsMatch(s, len, a);
    OwnsIsMatch(left, len + 1, a);
    OwnsIsMatch(right, len + 1, a);
    HeadBit(a, len);
    ChildWordsByBit(s.prefix, len, Head(a));
  }

  lemma ChildWordsByBit(v: bv64, len: bv8, head: bv64)
    requires len < 60
    ensures EqUnder(LeftWord(v, len), TopBits(len + 1), head) <==>
      EqUnder(v, TopBits(len), head) && !IsSet(head, 63 - len)
    ensures EqUnder(RightWord(v, len), TopBits(len + 1), head) <==>
      EqUnder(v, TopBits(len), head) && IsSet(head, 63 - len)
  {
    hide EqUnder, TopBits, OneAt;
    MasksAreApart(len);
    IsSingleBit(63 - len);
    BelowLeftChild(v, head, TopBits(len), OneAt(63 - len), OneAt(62 - len), TopBits(len + 1));
    BelowRightChild(v, head, TopBits(len), OneAt(63 - len), OneAt(62 - len), TopBits(len + 1));
  }

  /** Splitting works for every proper shard of fewer than 60 prefix bits; both children are then
      proper, and every account of the shard belongs to exactly one of them. */
  lemma SplitPartitions(s: ShardIdent, a: AccountId)
    requires SplitLeaf(s).Ok?
    ensures
      var (left, right) := SplitLeaf(s).value;
      && left.Proper() && right.Proper() && left.workchain == s.workchain == right.workchain
      && (s.Owns(a) <==> left.Owns(a) || right.Owns(a)) && !(left.Owns(a) && right.Owns(a))
  {
    var len := s.PrefixLen().value;
    var (left, right) := SplitLeaf(s).value;
    LenIsSmall(s, len);
    ShiftIndex(len);
    LeftWordIsMarked(s.prefix, len);
    RightWordIsMarked(s.prefix, len);
    PrefixLenIsMarker(left, len + 1);
    PrefixLenIsMarker(right, len + 1);
    OwnsIsMatch(s, len, a);
    OwnsIsMatch(left, len + 1, a);
    OwnsIsMatch(right, len + 1, a);
    ChildWordsPartition(s.prefix, len, Head(a));
  }

  /** Two shards have a common parent exactly when they are its two children, in either order. */
  lemma ParentOfChildren(s: ShardIdent)
    requires SplitLeaf(s).Ok?
    ensures
      var (left, right) := SplitLeaf(s).value;
      CommonParent(left, right) == Ok(s) && CommonParent(right, left) == Ok(s)
  {
    var len := s.PrefixLen().value;
    var (left, right) := SplitLeaf(s).value;
    LenIsSmall(s, len);
    ShiftIndex(len);
    LeftWordIsMarked(s.prefix, len);
    RightWordIsMarked(s.prefix, len);
    PrefixLenIsMarker(left, len + 1);
    PrefixLenIsMarker(right, len + 1);
    MasksAreApart(len);
    ChildrenDiffer(s.prefix, TopBits(len), OneAt(63 - len), OneAt(62 - len), TopBits(len + 1));
    ChildrenKeepTop(s.prefix, TopBits(len), OneAt(63 - len), OneAt(62 - len), TopBits(len + 1));
    MarkedWordIsCanonical(s.prefix, len);
  }

  lemma ChildrenOfParent(first: ShardIdent, second: ShardIdent)
    requires CommonParent(first, second).Ok?
    ensures
      var parent := CommonParent(first, second).value;
      SplitLeaf(parent) == Ok((first, second)) || SplitLeaf(parent) == Ok((second, first))
  {
    var next := first.PrefixLen().value;
    PreviousIndex(next);
    LenIsSmall(first, next);
    LenIsSmall(second, next);
    PrefixRoundTrip(first.workchain, first.prefix, next - 1);
    SiblingWords(first.prefix, second.prefix, next - 1);
  }

  lemma PreviousIndex(next: bv8)
    requires 0 < next <= 60
    ensures next - 1 < 60 && next - 1 + 1 == next && 63 - (next - 1) == 64 - next
  {
  }
}
