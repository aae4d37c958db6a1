/**
 How a dictionary is committed to by cells (crates/protocol/onx-execution/src/dictionary.rs),
 and the dictionary object with its root cell.
 */
module DictionaryCells {
  import opened Wrappers
  import opened Bytes
  import opened Cells
  import opened Packing
  import opened Dictionaries

  datatype DictionaryError = InvalidKeyLength | InvalidKey | CellTooLarge

  const LEAF_TAG: byte := 0xD0
  const BRANCH_TAG: byte := 0xD1
  const TAIL_TAG: byte := 0xD2
  const MAX_WIDTH := 1023
  const MAX_LABEL := 1000

  /** The loop of the source, setting bits in a zeroed buffer. */
  method PackBuffer(bits: Bits) returns (data: seq<byte>)
    ensures data == Pack(bits)
  {
    var out := new byte[DivCeil(|bits|, 8)](_ => 0);
    assert forall i :: 0 <= i < 8 * out.Length ==> !Bit(out[i / 8], i % 8);
    for n := 0 to |bits|
      invariant forall i :: 0 <= i < 8 * out.Length ==> (Bit(out[i / 8], i % 8) <==> i < n && bits[i])
    {
      if bits[n] {
        ghost var before := out[n / 8];
        forall j | 0 <= j < 8 {
          SettingOneBit(before, n % 8, j);
        }
        out[n / 8] := out[n / 8] | Mask(n % 8);
      }
    }
    data := out[..];
    forall i | 0 <= i < 8 * |data|
      ensures BitAt(data, i) == BitAt(Pack(bits), i)
    {
      assert Bit(out[i / 8], i % 8) <==> i < |bits| && bits[i];
    }
    BitsDetermineBytes(data, Pack(bits));
  }

  // ---------- Node cells ----------

  type CellResult = Result<Cell<Hash>, DictionaryError>

  function MakeCell(data: seq<byte>, refs: seq<Hash>): CellResult {
    var cell := Cell(data, refs, false);
    if cell.Fits() then Ok(cell) else Err(CellTooLarge)
  }

  function FirstPart(bits: Bits): (n: nat)
    ensures n <= |bits| && n <= MAX_LABEL
  {
    if |bits| < MAX_LABEL then |bits| else MAX_LABEL
  }

  /** The part of a label that does not fit a cell, chained through further cells. */
  function LabelTail(bits: Bits): CellResult {
    var first := FirstPart(bits);
    if first < |bits| then
      var rest :- LabelTail(bits[first..]);
      MakeCell([TAIL_TAG] + Pack(bits[..first]), [Digest(rest)])
    else MakeCell([TAIL_TAG] + Pack(bits[..first]), [])
  }

  function NodeData(tag: byte, bits: Bits): seq<byte> {
    [tag] + BigEndian(|bits| % 0x1_0000, 2) + Pack(bits[..FirstPart(bits)])
  }

  function NodeCell(tag: byte, bits: Bits, refs: seq<Hash>): CellResult {
    var first := FirstPart(bits);
    if first < |bits| then
      var rest :- LabelTail(bits[first..]);
      MakeCell(NodeData(tag, bits), [Digest(rest)] + refs)
    else MakeCell(NodeData(tag, bits), refs)
  }

  function Serialize(n: Node): CellResult {
    match n
    case Leaf(suffix, value) => NodeCell(LEAF_TAG, suffix, [Digest(value)])
    case Branch(prefix, zero, one) =>
      var zeroCell :- Serialize(zero);
      var oneCell :- Serialize(one);
      NodeCell(BRANCH_TAG, prefix, [Digest(zeroCell), Digest(oneCell)])
  }

  /** The cells of a label stay within 128 bytes and one reference, however long it is. */
  lemma {:induction false} LabelTailFits(bits: Bits)
    ensures LabelTail(bits).Ok?
  {
    var first := FirstPart(bits);
    if first < |bits| {
      LabelTailFits(bits[first..]);
    }
  }

  /** Every dictionary can be serialized: no node needs more than 128 bytes or three references. */
  lemma {:induction false} SerializeFits(n: Node)
    ensures Serialize(n).Ok? && Serialize(n).value.Fits() && |Serialize(n).value.refs| <= 3
  {
    var bits := if n.Leaf? then n.suffix else n.prefix;
    LabelTailFits(bits[FirstPart(bits)..]);
    if n.Branch? {
      SerializeFits(n.zero);
      SerializeFits(n.one);
    }
  }

  lemma {:induction false} LabelTailIsInjective(a: Bits, b: Bits)
    requires |a| == |b| && LabelTail(a).Ok? && LabelTail(a) == LabelTail(b)
    ensures a == b
  {
    var first := FirstPart(a);
    var x, y := LabelTail(a).value, LabelTail(b).value;
    assert x.data[1..] == Pack(a[..first]) && y.data[1..] == Pack(b[..first]);
    PackIsInjective(a[..first], b[..first]);
    if first < |a| {
      assert x.refs[0] == y.refs[0];
      LabelTailIsInjective(a[first..], b[first..]);
    }
    assert a == a[..first] + a[first..] && b == b[..first] + b[first..];
  }

  lemma ThreeParts(s: byte, u: seq<byte>, x: seq<byte>, t: byte, v: seq<byte>, y: seq<byte>)
    requires |u| == |v| && [s] + u + x == [t] + v + y
    ensures s == t && u == v && x == y
  {
    var a, b := [s] + u + x, [t] + v + y;
    assert a[0] == s && b[0] == t;
    assert a[1..1 + |u|] == u && b[1..1 + |u|] == v;
    assert a[1 + |u|..] == x && b[1 + |u|..] == y;
  }

  lemma LengthBytes(m: nat, n: nat)
    requires m < 0x1_0000 && n < 0x1_0000 && BigEndian(m % 0x1_0000, 2) == BigEndian(n % 0x1_0000, 2)
    ensures m == n
  {
    hide BigEndian, Pow256;
    SmallRemainder(m);
    SmallRemainder(n);
    TwoBytes();
    BigEndianInjective(m, n, 2);
  }

  lemma SmallRemainder(n: nat)
    requires n < 0x1_0000
    ensures n % 0x1_0000 == n
  {
  }

  lemma TwoBytes()
    ensures Pow256(2) == 0x1_0000
  {
    assert Pow256(1) == 256 * Pow256(0);
  }

  lemma NodeDataIsInjective(s: byte, a: Bits, t: byte, b: Bits)
    requires |a| < 0x1_0000 && |b| < 0x1_0000 && NodeData(s, a) == NodeData(t, b)
    ensures s == t && |a| == |b| && a[..FirstPart(a)] == b[..FirstPart(a)]
  {
    var x, y := Pack(a[..FirstPart(a)]), Pack(b[..FirstPart(b)]);
    ThreeParts(s, BigEndian(|a| % 0x1_0000, 2), x, t, BigEndian(|b| % 0x1_0000, 2), y);
    LengthBytes(|a|, |b|);
    PackIsInjective(a[..FirstPart(a)], b[..FirstPart(b)]);
  }

  /** A node cell determines its tag, its whole label and the references of the node. */
  lemma NodeCellIsInjective(s: byte, a: Bits, q: seq<Hash>, t: byte, b: Bits, r: seq<Hash>)
    requires |a| < 0x1_0000 && |b| < 0x1_0000
    requires NodeCell(s, a, q).Ok? && NodeCell(s, a, q) == NodeCell(t, b, r)
    ensures s == t && a == b && q == r
  {
    var first := FirstPart(a);
    NodeDataIsInjective(s, a, t, b);
    if first < |a| {
      var x, y := LabelTail(a[first..]), LabelTail(b[first..]);
      assert ([Digest(x.value)] + q)[0] == ([Digest(y.value)] + r)[0];
      assert ([Digest(x.value)] + q)[1..] == q && ([Digest(y.value)] + r)[1..] == r;
      LabelTailIsInjective(a[first..], b[first..]);
    }
    assert a == a[..first] + a[first..] && b == b[..first] + b[first..];
  }

  /** The root cell of a proper dictionary determines its tree. */
  lemma {:induction false} SerializeIsInjective(m: Node, n: Node, w: nat)
    requires Proper(m, w) && Proper(n, w) && w < 0x1_0000
    requires Serialize(m) == Serialize(n)
    ensures m == n
    decreases m
  {
    hide NodeCell, NodeData, LabelTail;
    SerializeFits(m);
    SerializeFits(n);
    var x, y := NodeRefs(m), NodeRefs(n);
    NodeCellIsInjective(TagOf(m), LabelOf(m), x, TagOf(n), LabelOf(n), y);
    assert x[0] == y[0];
    if m.Branch? {
      SerializeFits(m.zero);
      SerializeFits(m.one);
      SerializeFits(n.zero);
      SerializeFits(n.one);
      assert x[1] == y[1];
      SerializeIsInjective(m.zero, n.zero, w - |m.prefix| - 1);
      SerializeIsInjective(m.one, n.one, w - |m.prefix| - 1);
    }
  }

  function TagOf(n: Node): byte {
    if n.Leaf? then LEAF_TAG else BRANCH_TAG
  }

  function LabelOf(n: Node): Bits {
    if n.Leaf? then n.suffix else n.prefix
  }

  function NodeRefs(n: Node): (refs: seq<Hash>)
    ensures |refs| == if n.Leaf? then 1 else 2
  {
    match n
    case Leaf(_, value) => [Digest(value)]
    case Branch(_, zero, one) =>
      SerializeFits(zero);
      SerializeFits(one);
      [Digest(Serialize(zero).value), Digest(Serialize(one).value)]
  }

  function RootCell(t: Option<Node>): Option<Cell<Hash>> {
    if t.None? then None
    else
      SerializeFits(t.value);
      Some(Serialize(t.value).value)
  }

  /** Two dictionaries of the same width, after any two histories, have the same root cell exactly
      when they hold the same map. */
  lemma RootCellCommitsToMap(a: seq<Change>, b: seq<Change>, w: nat)
    requires 1 <= w <= MAX_WIDTH && forall c :: c in a || c in b ==> |c.key| == w
    ensures RootCell(TreeAfter(a, w)) == RootCell(TreeAfter(b, w)) <==> MapAfter(a) == MapAfter(b)
  {
    HistoryDoesNotMatter(a, b, w);
    var s, t := TreeAfter(a, w), TreeAfter(b, w);
    if RootCell(s) == RootCell(t) && s.Some? {
      SerializeFits(s.value);
      SerializeFits(t.value);
      SerializeIsInjective(s.value, t.value, w);
    }
  }

  // ---------- Keys ----------

  /** The first width bits of a key of just enough bytes. */
  function KeyBits(key: seq<byte>, width: nat): Result<Bits, DictionaryError> {
    if 8 * |key| < width || 8 * |key| >= width + 8 then Err(InvalidKey)
    else Ok(seq(width, i requires 0 <= i < width => BitAt(key, i)))
  }

  /** Two keys name the same entry exactly when they agree on the first width bits. */
  lemma KeysNameEntries(key: seq<byte>, other: seq<byte>, width: nat)
    requires KeyBits(key, width).Ok? && KeyBits(other, width).Ok?
    ensures KeyBits(key, width) == KeyBits(other, width) <==>
      forall i :: 0 <= i < width ==> BitAt(key, i) == BitAt(other, i)
  {
    var a, b := KeyBits(key, width).value, KeyBits(other, width).value;
    if a == b {
      forall i | 0 <= i < width
        ensures BitAt(key, i) == BitAt(other, i)
      {
        assert a[i] == b[i];
      }
    }
  }

  // ---------- The dictionary object ----------

  class Dictionary {
    const keyBits: nat
    var root: Option<Node>
    var rootCell: Option<Cell<Hash>>
    /** The finite map the dictionary stands for. */
    ghost var entries: map<Bits, Cell<Hash>>

    ghost predicate Valid()
      reads this
    {
      && 1 <= keyBits <= MAX_WIDTH
      && ProperTree(root, keyBits)
      && rootCell == RootCell(root)
      && forall k :: Lookup(root, k) == Entry(entries, k)
    }

    constructor (width: nat)
      requires 1 <= width <= MAX_WIDTH
      ensures Valid() && keyBits == width && entries == map[]
    {
      keyBits, root, rootCell, entries := width, None, None, map[];
    }

    static method New(width: nat) returns (r: Result<Dictionary, DictionaryError>)
      ensures r.Ok? <==> 1 <= width <= MAX_WIDTH
      ensures r.Ok? ==> fresh(r.value) && r.value.Valid() && r.value.keyBits == width && r.value.entries == map[]
      ensures r.Err? ==> r.error == InvalidKeyLength
    {
      if width < 1 || width > MAX_WIDTH {
        return Err(InvalidKeyLength);
      }
      var d := new Dictionary(width);
      return Ok(d);
    }

    method DictGet(key: seq<byte>) returns (r: Result<Option<Cell<Hash>>, DictionaryError>)
      requires Valid()
      ensures r == match KeyBits(key, keyBits)
                   case Err(e) => Err(e)
                   case Ok(bits) => Ok(Entry(entries, bits))
    {
      var bits :- KeyBits(key, keyBits);
      r := Ok(Lookup(root, bits));
    }

    method DictSet(key: seq<byte>, value: Cell<Hash>) returns (r: Result<Option<Cell<Hash>>, DictionaryError>)
      requires Valid()
      modifies this
      ensures Valid()
      ensures match KeyBits(key, keyBits)
              case Err(e) => r == Err(e) && root == old(root) && entries == old(entries)
              case Ok(bits) => r == Ok(Entry(old(entries), bits)) && entries == old(entries)[bits := value]
    {
      var bits :- KeyBits(key, keyBits);
      InsertRefines(root, bits, value);
      var (node, prior) := Insert(root, bits, value);
      root := Some(node);
      entries := entries[bits := value];
      rootCell := RootCell(root);
      r := Ok(prior);
    }

    method DictDel(key: seq<byte>) returns (r: Result<Option<Cell<Hash>>, DictionaryError>)
      requires Valid()
      modifies this
      ensures Valid()
      ensures match KeyBits(key, keyBits)
              case Err(e) => r == Err(e) && root == old(root) && entries == old(entries)
              case Ok(bits) => r == Ok(Entry(old(entries), bits)) && entries == old(entries) - {bits}
      ensures KeyBits(key, keyBits).Ok? && KeyBits(key, keyBits).value !in old(entries) ==>
        root == old(root) && rootCell == old(rootCell)
    {
      var bits :- KeyBits(key, keyBits);
      RemoveRefines(root, keyBits, bits);
      var (rest, prior) := Remove(root, bits);
      root := rest;
      entries := entries - {bits};
      rootCell := RootCell(root);
      r := Ok(prior);
    }
  }

  /** Two dictionary objects of the same width have the same root cell exactly when they hold the
      same map. */
  lemma EqualRootsEqualMaps(d: Dictionary, e: Dictionary)
    requires d.Valid() && e.Valid() && d.keyBits == e.keyBits
    ensures d.rootCell == e.rootCell <==> d.entries == e.entries
  {
    if d.rootCell == e.rootCell {
      if d.root.Some? {
        SerializeFits(d.root.value);
        SerializeFits(e.root.value);
        SerializeIsInjective(d.root.value, e.root.value, d.keyBits);
      }
      SameTreeSameEntries(d.root, d.entries, e.entries);
    } else if d.entries == e.entries {
      forall k
        ensures Lookup(d.root, k) == Lookup(e.root, k)
      {
        assert Entry(d.entries, k) == Entry(e.entries, k);
      }
      SameLookupsSameTree(d.root, e.root);
    }
  }

  lemma SameTreeSameEntries(t: Option<Node>, m: map<Bits, Cell<Hash>>, n: map<Bits, Cell<Hash>>)
    requires forall k :: Lookup(t, k) == Entry(m, k)
    requires forall k :: Lookup(t, k) == Entry(n, k)
    ensures m == n
  {
    forall k
      ensures Entry(m, k) == Entry(n, k)
    {
      assert Lookup(t, k) == Entry(m, k) == Entry(n, k);
    }
    assert forall k :: k in m <==> Entry(m, k).Some?;
    assert forall k :: k in n <==> Entry(n, k).Some?;
    assert forall k :: k in m ==> Entry(m, k) == Entry(n, k) && m[k] == n[k];
  }
}
