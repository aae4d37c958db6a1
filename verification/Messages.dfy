/** Messages (crates/protocol/onx-data-structures/src/message.rs). */
module Messages {
  import opened Wrappers
  import opened Bytes
  import opened ShardIdents

  datatype MessageType = Internal | ExternalInbound | ExternalOutbound

  /** rest stands for the extra currencies and the body hash. */
  datatype Message = Message(kind: MessageType, src: FullAddress, dest: FullAddress, amount: u128, createdLt: u64,
                             rest: seq<byte>)
  {
    function ValidateSourceShard(shard: ShardIdent): Result<(), ShardError> {
      shard.ValidateFullAddress(src)
    }

    function ValidateDestShard(shard: ShardIdent): Result<(), ShardError> {
      shard.ValidateFullAddress(dest)
    }
  }
}
