/**
 When a block may follow its parents and refer to the masterchain
 (crates/protocol/onx-blocks/src/validity.rs, flags.rs, masterchain.rs).
 The block hash is an arbitrary function of the header.
 */
module BlockValidity {
  import opened Wrappers
  import opened Bytes
  import opened ShardIdents

  type Hash = bytes32

  const ZERO_HASH: Hash := BigEndian(0, 32)

  /** rest stands for the magic number and the previous key block. */
  datatype BlockHeader = BlockHeader(shard: ShardIdent, seqNo: u32, flags: bv16, genUtime: u32, startLt: u64,
                                     endLt: u64, prevRef: Hash, prevRef2: Hash, masterRef: Hash, roots: Roots,
                                     rest: seq<byte>)

  datatype Roots = Roots(state: Hash, inMessages: Hash, outMessages: Hash)

  type BlockHash = BlockHeader -> Hash

  datatype BlocksError =
    | UnresolvableParent
    | SequenceDiscontinuity(expected: u32, actual: u32)
    | NonMonotonicTime
    | StateRootMismatch
    | ConflictingSplitMergeFlags(flags: bv16)
    | ReservedFlagBitSet(flags: bv16)
    | InvalidSuccessorAfterCommit
    | UnsortedShardEntries
    | DuplicateShardEntry
    | InvalidMasterchainReference

  // ---------- Flags ----------

  predicate HasFlag(flags: bv16, flag: bv16) {
    flags & flag != 0
  }

  predicate IsSplitCommit(flags: bv16) {
    HasFlag(flags, 0x0002)
  }

  predicate IsMergeCommit(flags: bv16) {
    HasFlag(flags, 0x0008)
  }

  predicate IsMergeResult(flags: bv16) {
    HasFlag(flags, 0x0010)
  }

  function One(b: bool): nat {
    if b then 1 else 0
  }

  /** At most one announcement, and no bit that has no meaning. */
  function ValidateFlags(flags: bv16): Result<(), BlocksError> {
    if HasFlag(flags, 0xFFE0) then Err(ReservedFlagBitSet(flags))
    else if One(HasFlag(flags, 1)) + One(IsSplitCommit(flags)) + One(HasFlag(flags, 4)) + One(IsMergeCommit(flags)) > 1
      then Err(ConflictingSplitMergeFlags(flags))
    else Ok(())
  }

  /** The last block of a shard that is split or merged. */
  predicate EndsShard(header: BlockHeader) {
    IsSplitCommit(header.flags) || IsMergeCommit(header.flags)
  }

  // ---------- Succession ----------

  function Max(a: nat, b: nat): nat {
    if a >= b then a else b
  }

  function WrappingNext(seqNo: u32): u32 {
    if seqNo == U32_MAX then 0 else seqNo + 1
  }

  /** The checks of a block against one parent, or against two if it is the result of a merge. */
  function ValidateSuccessor(hash: BlockHash, header: BlockHeader, parent: BlockHeader, parent2: Option<BlockHeader>,
                             recomputed: Roots): Result<(), BlocksError>
  {
    var _ :- ValidateFlags(header.flags);
    var _ :- if IsMergeResult(header.flags) then ValidateMerge(hash, header, parent, parent2)
             else ValidateOrdinary(hash, header, parent);
    if header.roots != recomputed then Err(StateRootMismatch)
    else if EndsShard(parent) || (parent2.Some? && EndsShard(parent2.value)) then Err(InvalidSuccessorAfterCommit)
    else Ok(())
  }

  function ValidateMerge(hash: BlockHash, header: BlockHeader, parent: BlockHeader, parent2: Option<BlockHeader>)
    : Result<(), BlocksError>
  {
    match parent2
    case None => Err(UnresolvableParent)
    case Some(p2) =>
      var seqNo := Max(parent.seqNo, p2.seqNo);
      if header.prevRef != hash(parent) || header.prevRef2 != hash(p2) then Err(UnresolvableParent)
      else if header.seqNo != seqNo + 1 then Err(SequenceDiscontinuity(WrappingNext(seqNo), header.seqNo))
      else if header.genUtime < parent.genUtime || header.genUtime < p2.genUtime then Err(NonMonotonicTime)
      else if header.startLt < parent.endLt || header.startLt < p2.endLt || header.startLt > header.endLt
        then Err(NonMonotonicTime)
      else Ok(())
  }

  function ValidateOrdinary(hash: BlockHash, header: BlockHeader, parent: BlockHeader): Result<(), BlocksError> {
    if header.prevRef != hash(parent) then Err(UnresolvableParent)
    else if header.seqNo != parent.seqNo + 1 then Err(SequenceDiscontinuity(WrappingNext(parent.seqNo), header.seqNo))
    else if header.genUtime < parent.genUtime then Err(NonMonotonicTime)
    else if header.startLt < parent.endLt || header.startLt > header.endLt then Err(NonMonotonicTime)
    else Ok(())
  }

  /** What a child owes to each of its parents. */
  predicate Follows(child: BlockHeader, parent: BlockHeader) {
    && parent.seqNo < child.seqNo && parent.genUtime <= child.genUtime
    && parent.endLt <= child.startLt <= child.endLt && !EndsShard(parent)
  }

  /** The number of a block is one above the highest of its parents. */
  predicate Numbered(child: BlockHeader, parent: BlockHeader, parent2: Option<BlockHeader>) {
    child.seqNo == 1 + if parent2.Some? then Max(parent.seqNo, parent2.value.seqNo) else parent.seqNo
  }

  /** Only the five bits with a meaning, and of the four announcements at most one. */
  predicate FlagsFit(flags: bv16) {
    flags & 0xFFE0 == 0 && (flags & 0xF == 0 || flags & 0xF == 1 || flags & 0xF == 2 || flags & 0xF == 4
      || flags & 0xF == 8)
  }

  lemma AtMostOneAnnouncement(flags: bv16)
    ensures ValidateFlags(flags).Ok? <==> FlagsFit(flags)
  {
    var low := flags & 0xF;
    assert HasFlag(flags, 1) == (low & 1 != 0) && IsSplitCommit(flags) == (low & 2 != 0);
    assert HasFlag(flags, 4) == (low & 4 != 0) && IsMergeCommit(flags) == (low & 8 != 0);
  }

  /** A block is accepted exactly when its flags fit, its roots are the recomputed ones, it names its parents and
       follows them. */
  lemma AcceptedExactlyFollows(hash: BlockHash, header: BlockHeader, parent: BlockHeader, parent2: Option<BlockHeader>,
      recomputed: Roots)
    requires parent2.Some? <==> IsMergeResult(header.flags)
    ensures ValidateSuccessor(hash, header, parent, parent2, recomputed).Ok? <==>
      && FlagsFit(header.flags) && header.roots == recomputed
      && header.prevRef == hash(parent) && Follows(header, parent) && Numbered(header, parent, parent2)
      && (parent2.Some? ==> header.prevRef2 == hash(parent2.value) && Follows(header, parent2.value))
  {
    AtMostOneAnnouncement(header.flags);
    hide ValidateFlags, FlagsFit, HasFlag;
  }

  // ---------- Masterchain ----------

  datatype ShardEntry = ShardEntry(shard: ShardIdent, blockHash: Hash, seqNo: u32)

  /** The big-endian bytes of a shard identifier, as a number. */
  function ByteOrder(s: ShardIdent): int {
    (s.workchain % 0x1_0000_0000) * 0x1_0000_0000_0000_0000 + s.prefix as int
  }

  datatype MasterchainExtra = MasterchainExtra(entries: seq<ShardEntry>) {
    predicate Commits(shard: ShardIdent, block: Hash, seqNo: u32) {
      exists i :: 0 <= i < |entries| && entries[i] == ShardEntry(shard, block, seqNo)
    }
  }

  /** The entries are in strictly ascending order; otherwise the first pair that is not is reported. */
  method ValidateExtra(extra: MasterchainExtra) returns (r: Result<(), BlocksError>)
    ensures r == ExtraOutcome(extra.entries)
  {
    var entries := extra.entries;
    var i := 1;
    while i < |entries|
      invariant 1 <= i && (i <= |entries| || |entries| == 0)
      invariant i <= |entries| ==> ExtraOutcome(entries) == ExtraOutcome(entries[i - 1..])
    {
      var a, b := ByteOrder(entries[i - 1].shard), ByteOrder(entries[i].shard);
      assert entries[i - 1..][1..] == entries[i..];
      if a == b {
        return Err(DuplicateShardEntry);
      }
      if a > b {
        return Err(UnsortedShardEntries);
      }
      i := i + 1;
    }
    return Ok(());
  }

  function ExtraOutcome(entries: seq<ShardEntry>): Result<(), BlocksError> {
    if |entries| < 2 then Ok(())
    else if ByteOrder(entries[0].shard) == ByteOrder(entries[1].shard) then Err(DuplicateShardEntry)
    else if ByteOrder(entries[0].shard) > ByteOrder(entries[1].shard) then Err(UnsortedShardEntries)
    else ExtraOutcome(entries[1..])
  }

  lemma {:induction false} EntriesAscend(entries: seq<ShardEntry>, j: nat)
    requires ExtraOutcome(entries).Ok? && 0 < j < |entries|
    ensures ByteOrder(entries[0].shard) < ByteOrder(entries[j].shard)
  {
    if j > 1 {
      EntriesAscend(entries[1..], j - 1);
    }
  }

  lemma {:induction false} EntriesAscendBetween(entries: seq<ShardEntry>, i: nat, j: nat)
    requires ExtraOutcome(entries).Ok? && i < j < |entries|
    ensures ByteOrder(entries[i].shard) < ByteOrder(entries[j].shard)
  {
    if i == 0 {
      EntriesAscend(entries, j);
    } else {
      EntriesAscendBetween(entries[1..], i - 1, j - 1);
    }
  }

  /** A valid masterchain block commits at most one block of every shard. */
  lemma OneBlockPerShard(extra: MasterchainExtra, shard: ShardIdent, a: Hash, b: Hash, m: u32, n: u32)
    requires ExtraOutcome(extra.entries).Ok? && extra.Commits(shard, a, m) && extra.Commits(shard, b, n)
    ensures a == b && m == n
  {
    var i :| 0 <= i < |extra.entries| && extra.entries[i] == ShardEntry(shard, a, m);
    var j :| 0 <= j < |extra.entries| && extra.entries[j] == ShardEntry(shard, b, n);
    if i < j {
      EntriesAscendBetween(extra.entries, i, j);
    } else if j < i {
      EntriesAscendBetween(extra.entries, j, i);
    }
  }

  predicate IsMasterchain(header: BlockHeader) {
    header.shard.workchain == MASTERCHAIN
  }

  function ValidateMasterRef(hash: BlockHash, header: BlockHeader, master: Option<BlockHeader>)
    : Result<(), BlocksError>
  {
    if IsMasterchain(header) then
      if header.masterRef != ZERO_HASH then Err(InvalidMasterchainReference) else Ok(())
    else if master.Some? && IsMasterchain(master.value) && header.masterRef == hash(master.value) then Ok(())
    else Err(InvalidMasterchainReference)
  }
}
