/**
 Reading a dictionary from its cells alone: the layout that the serialization of
 crates/protocol/onx-execution/src/dictionary.rs writes, and why following it finds every entry.
 */
module DictionaryReading {
  import opened Wrappers
  import opened Bytes
  import opened Cells
  import opened Packing
  import opened BitIO
  import opened Dictionaries
  import opened DictionaryCells

  /** The bits of a chain of cells: up to 1000 behind the first byte, and more in the cell referred to first. */
  function TailBits(c: Cell<Hash>, n: nat): Bits
    decreases n
  {
    if 1 + DivCeil(Min(n, 1000), 8) != |c.data| then []
    else if n <= 1000 then BitsOf(c.data, 8, n)
    else if c.refs == [] then []
    else BitsOf(c.data, 8, 1000) + TailBits(c.refs[0].cell, n - 1000)
  }

  /** The label of a node: its length in the two bytes behind the first, then up to 1000 bits, and more in the cell
      referred to first. */
  function NodeLabel(c: Cell<Hash>): Bits
    requires |c.data| >= 3
  {
    var n := 256 * c.data[1] as nat + c.data[2] as nat;
    if 3 + DivCeil(Min(n, 1000), 8) != |c.data| then []
    else if n <= 1000 then BitsOf(c.data, 24, n)
    else if c.refs == [] then []
    else BitsOf(c.data, 24, 1000) + TailBits(c.refs[0].cell, n - 1000)
  }

  /** The references of a node behind that of its label. */
  function NodeTargets(c: Cell<Hash>): seq<Hash>
    requires |c.data| >= 3
  {
    if 256 * c.data[1] as nat + c.data[2] as nat > 1000 && c.refs != [] then c.refs[1..] else c.refs
  }

  /** Under 0xD0 lies the value of the label; under 0xD1 lie what follows a 0 behind the label and what follows a 1. */
  function FindIn(c: Cell<Hash>, key: Bits): Option<Cell<Hash>>
    decreases |key|
  {
    if |c.data| < 3 then None
    else
      var prefix, targets := NodeLabel(c), NodeTargets(c);
      if c.data[0] == 0xD0 && |targets| == 1 then if key == prefix then Some(targets[0].cell) else None
      else if c.data[0] == 0xD1 && |targets| == 2 && prefix < key then
        FindIn(targets[if key[|prefix|] then 1 else 0].cell, key[|prefix| + 1..])
      else None
  }

  lemma BehindIsPacked(front: seq<byte>, bits: Bits)
    ensures BitsOf(front + Pack(bits), 8 * |front|, |bits|) == bits
  {
    var data := front + Pack(bits);
    forall i | 0 <= i < |bits|
      ensures BitAt(data, 8 * |front| + i) == bits[i]
    {
      assert BitAt(Pack(bits), i) == bits[i];
      assert (8 * |front| + i) / 8 == |front| + i / 8 && (8 * |front| + i) % 8 == i % 8;
    }
  }

  lemma FirstThousand(bits: Bits)
    ensures FirstPart(bits) == Min(|bits|, 1000) && bits[..FirstPart(bits)] + bits[FirstPart(bits)..] == bits
  {
  }

  lemma {:induction false} TailIsRead(bits: Bits)
    requires LabelTail(bits).Ok?
    ensures TailBits(LabelTail(bits).value, |bits|) == bits
  {
    var first := FirstPart(bits);
    FirstThousand(bits);
    BehindIsPacked([TAIL_TAG], bits[..first]);
    if first < |bits| {
      TailIsRead(bits[first..]);
    } else {
      assert bits[..first] == bits;
    }
  }

  lemma TwoBytesAre(v: nat)
    requires v < 0x1_0000
    ensures |BigEndian(v, 2)| == 2 && 256 * BigEndian(v, 2)[0] as nat + BigEndian(v, 2)[1] as nat == v
  {
    ByteOf(v / 256);
    ByteOf(v % 256);
    assert BigEndian(v / 256, 1) == BigEndian(v / 256 / 256, 0) + [(v / 256 % 256) as byte];
    assert v / 256 % 256 == v / 256;
  }

  lemma NodeDataIs(tag: byte, bits: Bits)
    requires |bits| < 0x1_0000
    ensures
      var data := NodeData(tag, bits);
      && |data| == 3 + DivCeil(FirstPart(bits), 8) && data[0] == tag && 256 * data[1] as nat + data[2] as nat == |bits|
      && BitsOf(data, 24, FirstPart(bits)) == bits[..FirstPart(bits)]
  {
    TwoBytesAre(|bits|);
    assert |bits| % 0x1_0000 == |bits|;
    var front := [tag] + BigEndian(|bits|, 2);
    assert |front| == 3;
    BehindIsPacked(front, bits[..FirstPart(bits)]);
  }

  lemma ShortNodeIsRead(tag: byte, bits: Bits, refs: seq<Hash>)
    requires |bits| < 0x1_0000 && NodeCell(tag, bits, refs).Ok? && FirstPart(bits) == |bits|
    ensures
      var c := NodeCell(tag, bits, refs).value;
      |c.data| >= 3 && c.data[0] == tag && NodeLabel(c) == bits && NodeTargets(c) == refs
  {
    hide NodeData, LabelTail, BitsOf, TailBits, FirstPart;
    NodeDataIs(tag, bits);
    FirstThousand(bits);
    assert bits[..|bits|] == bits;
  }

  lemma LongNodeIsRead(tag: byte, bits: Bits, refs: seq<Hash>)
    requires |bits| < 0x1_0000 && NodeCell(tag, bits, refs).Ok? && FirstPart(bits) < |bits|
    ensures
      var c := NodeCell(tag, bits, refs).value;
      |c.data| >= 3 && c.data[0] == tag && NodeLabel(c) == bits && NodeTargets(c) == refs
  {
    hide NodeLabel, NodeTargets, FirstPart, TailBits, BitsOf;
    FirstThousand(bits);
    var c, first := NodeCell(tag, bits, refs).value, FirstPart(bits);
    var rest := LongNodeIs(tag, bits, refs);
    NodeDataIs(tag, bits);
    TailIsRead(bits[first..]);
    hide NodeCell, NodeData, LabelTail;
    LongLabel(c, bits, rest, refs);
  }

  lemma LongNodeIs(tag: byte, bits: Bits, refs: seq<Hash>) returns (rest: Cell<Hash>)
    requires NodeCell(tag, bits, refs).Ok? && FirstPart(bits) < |bits|
    ensures LabelTail(bits[FirstPart(bits)..]) == Ok(rest)
    ensures NodeCell(tag, bits, refs).value.data == NodeData(tag, bits)
    ensures NodeCell(tag, bits, refs).value.refs == [Digest(rest)] + refs
  {
    hide NodeData, LabelTail, FirstPart;
    rest := LabelTail(bits[FirstPart(bits)..]).value;
  }

  lemma LongLabel(c: Cell<Hash>, bits: Bits, rest: Cell<Hash>, refs: seq<Hash>)
    requires 1000 < |bits| && |c.data| == 3 + 125 && 256 * c.data[1] as nat + c.data[2] as nat == |bits|
    requires BitsOf(c.data, 24, 1000) == bits[..1000] && TailBits(rest, |bits| - 1000) == bits[1000..]
    requires c.refs == [Digest(rest)] + refs
    ensures NodeLabel(c) == bits && NodeTargets(c) == refs
  {
    hide BitsOf, TailBits;
    assert c.refs[1..] == refs && bits[..1000] + bits[1000..] == bits;
  }

  /** From the cell of a node its tag, its label and its references are read back. */
  lemma NodeIsRead(tag: byte, bits: Bits, refs: seq<Hash>)
    requires |bits| < 0x1_0000 && NodeCell(tag, bits, refs).Ok?
    ensures
      var c := NodeCell(tag, bits, refs).value;
      |c.data| >= 3 && c.data[0] == tag && NodeLabel(c) == bits && NodeTargets(c) == refs
  {
    hide NodeCell, NodeLabel, NodeTargets, FirstPart;
    FirstThousand(bits);
    if FirstPart(bits) < |bits| {
      LongNodeIsRead(tag, bits, refs);
    } else {
      ShortNodeIsRead(tag, bits, refs);
    }
  }

  /** Reading the cells of a tree finds what the tree holds. */
  lemma {:induction false} CellsAreSearched(n: Node, w: nat, key: Bits)
    requires Proper(n, w) && w < 0x1_0000 && Serialize(n).Ok?
    ensures FindIn(Serialize(n).value, key) == Get(n, key)
    decreases n
  {
    hide NodeLabel, NodeTargets, NodeCell, NodeRefs;
    NodeIsSerialized(n);
    NodeIsRead(TagOf(n), LabelOf(n), NodeRefs(n));
    if n.Branch? && n.prefix < key {
      var child := if key[|n.prefix|] then n.one else n.zero;
      SerializeFits(child);
      ChildIsReferred(n, key[|n.prefix|]);
      CellsAreSearched(child, w - |n.prefix| - 1, key[|n.prefix| + 1..]);
    }
  }

  lemma NodeIsSerialized(n: Node)
    ensures Serialize(n) == NodeCell(TagOf(n), LabelOf(n), NodeRefs(n))
    ensures TagOf(n) == if n.Leaf? then 0xD0 else 0xD1
    ensures n.Leaf? ==> NodeRefs(n) == [Digest(n.value)]
  {
    if n.Branch? {
      SerializeFits(n.zero);
      SerializeFits(n.one);
    }
  }

  lemma ChildIsReferred(n: Node, bit: bool)
    requires n.Branch?
    ensures
      var child := Serialize(if bit then n.one else n.zero);
      child.Ok? && NodeRefs(n)[if bit then 1 else 0] == Digest(child.value)
  {
    SerializeFits(n.zero);
    SerializeFits(n.one);
  }

  /** From the root cell of a dictionary exactly its entries are read. */
  lemma RootCellHoldsEntries(d: Dictionary, key: Bits)
    requires d.Valid()
    ensures Entry(d.entries, key) == if d.rootCell.None? then None else FindIn(d.rootCell.value, key)
  {
    assert Lookup(d.root, key) == Entry(d.entries, key);
    if d.root.Some? {
      SerializeFits(d.root.value);
      CellsAreSearched(d.root.value, d.keyBits, key);
    }
  }
}
