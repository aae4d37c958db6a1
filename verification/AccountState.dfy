/** Account records and their canonical encoding (crates/protocol/onx-state-model/src/account.rs). */
module AccountStates {
  import opened Bytes

  datatype StorageStat = StorageStat(cellCount: u32, byteCount: u64)

  datatype AccountState =
    | Uninitialized
    | Active(balance: u128, lastTransLt: u64, codeHash: bytes32, dataHash: bytes32, stat: StorageStat)
    | Frozen(balance: u128, lastTransLt: u64, storageHash: bytes32)
    | Destroyed
  {
    function ToBytes(): (s: seq<byte>)
      ensures 0 < |s| <= 101
    {
      match this
      case Uninitialized => [0x00]
      case Active(balance, lt, code, data, stat) =>
        [0x01] + BigEndian(balance, 16) + BigEndian(lt, 8) + code + data
        + BigEndian(stat.cellCount, 4) + BigEndian(stat.byteCount, 8)
      case Frozen(balance, lt, storage) =>
        [0x02] + BigEndian(balance, 16) + BigEndian(lt, 8) + storage
      case Destroyed => [0x03]
    }
  }

  /** Distinct records have distinct encodings. */
  lemma EncodingIsInjective(a: AccountState, b: AccountState)
    requires a.ToBytes() == b.ToBytes()
    ensures a == b
  {
    Pow256Values();
    var s, t := a.ToBytes(), b.ToBytes();
    assert s[0] == t[0];
    if a.Active? {
      ActiveParts(a, s);
      ActiveParts(b, t);
      BigEndianInjective(a.balance, b.balance, 16);
      BigEndianInjective(a.lastTransLt, b.lastTransLt, 8);
      BigEndianInjective(a.stat.cellCount, b.stat.cellCount, 4);
      BigEndianInjective(a.stat.byteCount, b.stat.byteCount, 8);
    } else if a.Frozen? {
      FrozenParts(a, s);
      FrozenParts(b, t);
      BigEndianInjective(a.balance, b.balance, 16);
      BigEndianInjective(a.lastTransLt, b.lastTransLt, 8);
    }
  }

  lemma ActiveParts(a: AccountState, s: seq<byte>)
    requires a.Active? && s == a.ToBytes()
    ensures |s| == 101 && s[1..17] == BigEndian(a.balance, 16) && s[17..25] == BigEndian(a.lastTransLt, 8)
    ensures s[25..57] == a.codeHash && s[57..89] == a.dataHash
    ensures s[89..93] == BigEndian(a.stat.cellCount, 4) && s[93..] == BigEndian(a.stat.byteCount, 8)
  {
  }

  lemma FrozenParts(a: AccountState, s: seq<byte>)
    requires a.Frozen? && s == a.ToBytes()
    ensures |s| == 57 && s[1..17] == BigEndian(a.balance, 16) && s[17..25] == BigEndian(a.lastTransLt, 8)
    ensures s[25..] == a.storageHash
  {
  }
}
