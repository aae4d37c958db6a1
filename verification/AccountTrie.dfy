/**
 The Merkle commitment of a shard's accounts (crates/protocol/onx-state-model/src/tree.rs):
 a binary trie over the bits of the account identifiers, built as cells.
 */
module AccountTries {
  import opened Wrappers
  import opened Bytes
  import opened Graphs
  import opened Cells
  import opened BagsOfCells
  import opened ShardIdents
  import opened AccountStates

  type Items = map<AccountId, seq<byte>>

  const MAX_CHUNK := 128
  const MAX_VALUE := 512

  /** The bytes of "EMPTY_SUBTREE". */
  const EMPTY_MARK: seq<byte> := [0x45, 0x4D, 0x50, 0x54, 0x59, 0x5F, 0x53, 0x55, 0x42, 0x54, 0x52, 0x45, 0x45]

  function EmptyCell(): Cell<Hash> {
    Cell(EMPTY_MARK, [], false)
  }

  function ChunkCell(chunk: seq<byte>): Cell<Hash> {
    Cell(chunk, [], false)
  }

  function FirstChunk(v: seq<byte>): nat {
    if |v| < MAX_CHUNK then |v| else MAX_CHUNK
  }

  /** The references of a leaf: one cell for every 128 bytes of the value. */
  function ChunkRefs(v: seq<byte>): (refs: seq<Hash>)
    ensures |v| <= MAX_VALUE <==> |refs| <= MAX_CELL_REFS
    ensures |refs| == (|v| + MAX_CHUNK - 1) / MAX_CHUNK
  {
    if v == [] then [] else [Digest(ChunkCell(v[..FirstChunk(v)]))] + ChunkRefs(v[FirstChunk(v)..])
  }

  function LeafCell(key: AccountId, v: seq<byte>): Cell<Hash> {
    Cell(key, ChunkRefs(v), false)
  }

  function BranchCell(left: Cell<Hash>, right: Cell<Hash>): Cell<Hash> {
    Cell([], [Digest(left), Digest(right)], false)
  }

  function Side(m: Items, depth: nat, bit: bool): Items
    requires depth < 256
  {
    map k | k in m && BitAt(k, depth) == bit :: m[k]
  }

  ghost function AnyKey(m: Items): AccountId
    requires |m| > 0
  {
    var k :| k in m; k
  }

  /** The root cell of the trie over m, whose keys differ from bit number depth on. */
  ghost function TrieCell(m: Items, depth: nat): Cell<Hash>
    decreases 256 - depth
  {
    if |m| == 0 then EmptyCell()
    else if |m| == 1 || depth >= 256 then LeafCell(AnyKey(m), m[AnyKey(m)])
    else BranchCell(TrieCell(Side(m, depth, false), depth + 1), TrieCell(Side(m, depth, true), depth + 1))
  }

  /** The hashes of all cells of the trie, value chunks included. */
  ghost function TrieHashes(m: Items, depth: nat): set<Hash>
    decreases 256 - depth
  {
    {Digest(TrieCell(m, depth))} +
    if |m| == 0 then {}
    else if |m| == 1 || depth >= 256 then SetOf(ChunkRefs(m[AnyKey(m)]))
    else TrieHashes(Side(m, depth, false), depth + 1) + TrieHashes(Side(m, depth, true), depth + 1)
  }

  /** All keys of m have the same first depth bits. */
  ghost predicate AgreeBelow(m: Items, depth: nat) {
    forall j, k, i :: j in m && k in m && 0 <= i < depth && i < 256 ==> BitAt(j, i) == BitAt(k, i)
  }

  lemma FullAgreementMeansOneKey(m: Items, depth: nat)
    requires AgreeBelow(m, depth) && depth >= 256
    ensures |m| <= 1
  {
    if m != map[] {
      var k :| k in m;
      forall j | j in m
        ensures j == k
      {
        BitsDetermineBytes(j, k);
      }
      assert m.Keys == {k};
      assert |m| == |m.Keys|;
    }
  }

  lemma SidesAgree(m: Items, depth: nat, bit: bool)
    requires AgreeBelow(m, depth) && depth < 256
    ensures AgreeBelow(Side(m, depth, bit), depth + 1)
  {
  }

  lemma SingletonKey(m: Items)
    requires |m| == 1
    ensures AnyKey(m) in m && m == map[AnyKey(m) := m[AnyKey(m)]]
  {
    var k := AnyKey(m);
    assert |m.Keys - {k}| == 0;
    assert m.Keys == {k};
  }

  lemma {:induction false} ChunkRefsInjective(v: seq<byte>, w: seq<byte>)
    requires ChunkRefs(v) == ChunkRefs(w)
    ensures v == w
  {
    if v != [] && w != [] {
      var r, s := ChunkRefs(v), ChunkRefs(w);
      assert r[0] == s[0] && r[1..] == s[1..];
      assert r[1..] == ChunkRefs(v[FirstChunk(v)..]) && s[1..] == ChunkRefs(w[FirstChunk(w)..]);
      ChunkRefsInjective(v[FirstChunk(v)..], w[FirstChunk(w)..]);
      assert v == v[..FirstChunk(v)] + v[FirstChunk(v)..];
      assert w == w[..FirstChunk(w)] + w[FirstChunk(w)..];
    }
  }

  lemma SidesDetermine(m: Items, n: Items, depth: nat)
    requires depth < 256
    requires Side(m, depth, false) == Side(n, depth, false) && Side(m, depth, true) == Side(n, depth, true)
    ensures m == n
  {
    forall k
      ensures k in m <==> k in n
      ensures k in m ==> m[k] == n[k]
    {
      if k in m {
        assert k in Side(m, depth, BitAt(k, depth)) && k in Side(n, depth, BitAt(k, depth));
      }
      if k in n {
        assert k in Side(n, depth, BitAt(k, depth)) && k in Side(m, depth, BitAt(k, depth));
      }
    }
  }

  /** Equal trie roots commit to equal maps: an empty, a leaf and a branch cell never coincide,
      a leaf holds its whole key, and a branch fixes both sides. */
  lemma {:induction false} TrieIsInjective(m: Items, n: Items, depth: nat)
    requires AgreeBelow(m, depth) && AgreeBelow(n, depth)
    requires TrieCell(m, depth) == TrieCell(n, depth)
    ensures m == n
    decreases 256 - depth
  {
    if depth >= 256 {
      FullAgreementMeansOneKey(m, depth);
      FullAgreementMeansOneKey(n, depth);
    }
    var c, d := TrieCell(m, depth), TrieCell(n, depth);
    assert |c.data| == if |m| == 0 then 13 else if |m| == 1 then 32 else 0;
    assert |d.data| == if |n| == 0 then 13 else if |n| == 1 then 32 else 0;
    if |m| == 1 {
      SingletonKey(m);
      SingletonKey(n);
      ChunkRefsInjective(m[AnyKey(m)], n[AnyKey(n)]);
    } else if |m| > 1 {
      assert c.refs[0] == d.refs[0] && c.refs[1] == d.refs[1];
      SidesAgree(m, depth, false);
      SidesAgree(n, depth, false);
      SidesAgree(m, depth, true);
      SidesAgree(n, depth, true);
      TrieIsInjective(Side(m, depth, false), Side(n, depth, false), depth + 1);
      TrieIsInjective(Side(m, depth, true), Side(n, depth, true), depth + 1);
      SidesDetermine(m, n, depth);
    }
  }

  /** Every reference of a cell in s leads to a cell in s. */
  ghost predicate ClosedUnderReferences(s: set<Hash>) {
    forall h, r :: h in s && r in h.cell.refs ==> r in s
  }

  /** A branch and what lies on its two sides. */
  lemma TrieApart(m: Items, depth: nat)
    requires |m| > 1 && depth < 256
    ensures
      var left, right := TrieCell(Side(m, depth, false), depth + 1), TrieCell(Side(m, depth, true), depth + 1);
      && TrieCell(m, depth) == BranchCell(left, right)
      && TrieHashes(m, depth)
         == TrieHashes(Side(m, depth, false), depth + 1) + TrieHashes(Side(m, depth, true), depth + 1)
            + {Digest(BranchCell(left, right))}
  {
  }

  lemma RootIsEmitted(m: Items, depth: nat)
    ensures Digest(TrieCell(m, depth)) in TrieHashes(m, depth)
  {
  }

  lemma ClosedWithRoot(s: set<Hash>, t: set<Hash>, left: Cell<Hash>, right: Cell<Hash>)
    requires ClosedUnderReferences(s) && ClosedUnderReferences(t) && Digest(left) in s && Digest(right) in t
    ensures ClosedUnderReferences(s + t + {Digest(BranchCell(left, right))})
  {
  }

  lemma SmallTrieIsClosed(m: Items, depth: nat)
    requires |m| <= 1 || depth >= 256
    ensures ClosedUnderReferences(TrieHashes(m, depth))
  {
    if |m| > 0 {
      ChunksHaveNoRefs(m[AnyKey(m)]);
    }
  }

  /** No reference leads out of the emitted cells. */
  lemma {:induction false} TrieIsClosed(m: Items, depth: nat)
    ensures ClosedUnderReferences(TrieHashes(m, depth))
    decreases 256 - depth
  {
    hide *;
    if |m| <= 1 || depth >= 256 {
      SmallTrieIsClosed(m, depth);
    } else {
      var zeros, ones := Side(m, depth, false), Side(m, depth, true);
      TrieIsClosed(zeros, depth + 1);
      TrieIsClosed(ones, depth + 1);
      RootIsEmitted(zeros, depth + 1);
      RootIsEmitted(ones, depth + 1);
      ClosedWithRoot(TrieHashes(zeros, depth + 1), TrieHashes(ones, depth + 1), TrieCell(zeros, depth + 1),
        TrieCell(ones, depth + 1));
      TrieApart(m, depth);
    }
  }

  lemma {:induction false} ChunksHaveNoRefs(v: seq<byte>)
    ensures forall h :: h in ChunkRefs(v) ==> h.cell.refs == []
  {
    if v != [] {
      ChunksHaveNoRefs(v[FirstChunk(v)..]);
    }
  }

  /** The leaves among the emitted cells are exactly the entries of the map. */
  lemma {:induction false} LeavesAreTheEntries(m: Items, depth: nat, key: AccountId, v: seq<byte>)
    requires AgreeBelow(m, depth) && v != []
    ensures Digest(LeafCell(key, v)) in TrieHashes(m, depth) <==> key in m && m[key] == v
    decreases 256 - depth
  {
    if depth >= 256 {
      FullAgreementMeansOneKey(m, depth);
    }
    if |m| <= 1 {
      OnlyLeafIsTheEntry(m, depth, key, v);
    } else {
      SidesAgree(m, depth, false);
      SidesAgree(m, depth, true);
      LeavesAreTheEntries(Side(m, depth, false), depth + 1, key, v);
      LeavesAreTheEntries(Side(m, depth, true), depth + 1, key, v);
      TrieApart(m, depth);
      hide TrieCell, TrieHashes, AgreeBelow;
      LeafIsNoBranch(key, v, TrieCell(Side(m, depth, false), depth + 1), TrieCell(Side(m, depth, true), depth + 1));
    }
  }

  lemma LeafIsNoBranch(key: AccountId, v: seq<byte>, left: Cell<Hash>, right: Cell<Hash>)
    ensures LeafCell(key, v) != BranchCell(left, right)
  {
    assert |LeafCell(key, v).data| == 32 && BranchCell(left, right).data == [];
  }

  lemma OnlyLeafIsTheEntry(m: Items, depth: nat, key: AccountId, v: seq<byte>)
    requires |m| <= 1 && v != []
    ensures Digest(LeafCell(key, v)) in TrieHashes(m, depth) <==> key in m && m[key] == v
  {
    var leaf := LeafCell(key, v);
    assert |leaf.data| == 32 && |leaf.refs| > 0;
    if |m| == 1 {
      SingletonKey(m);
      ChunksHaveNoRefs(m[AnyKey(m)]);
      if TrieCell(m, depth) == leaf {
        ChunkRefsInjective(m[AnyKey(m)], v);
      }
    }
  }

  /** Everything emitted hangs below the root, in any graph that holds the emitted cells. */
  lemma {:induction false} TrieHangsBelowRoot(m: Items, depth: nat, g: Graph<Hash>, h: Hash)
    requires forall x :: x in TrieHashes(m, depth) ==> x in g && g[x] == x.cell.refs
    requires h in TrieHashes(m, depth)
    ensures Reaches(g, Digest(TrieCell(m, depth)), h)
    decreases 256 - depth
  {
    var root := Digest(TrieCell(m, depth));
    ReachesSelf(g, root);
    if h == root {
    } else if |m| == 1 || depth >= 256 {
      assert Edge(g, root, h);
      ReachesStep(g, root, root, h);
    } else {
      var bit := h !in TrieHashes(Side(m, depth, false), depth + 1);
      var side := Digest(TrieCell(Side(m, depth, bit), depth + 1));
      TrieHangsBelowRoot(Side(m, depth, bit), depth + 1, g, h);
      assert root.cell.refs[if bit then 1 else 0] == side;
      assert Edge(g, root, side);
      ReachesStep(g, root, root, side);
      ReachesTransitive(g, root, side, h);
    }
  }

  // ---------- Building the trie ----------

  type Listing = seq<(AccountId, seq<byte>)>

  datatype TrieError = TooManyReferences

  ghost predicate Distinct(items: Listing) {
    forall i, j :: 0 <= i < j < |items| ==> items[i].0 != items[j].0
  }

  ghost function MapOf(items: Listing): Items {
    if items == [] then map[]
    else MapOf(items[..|items| - 1])[items[|items| - 1].0 := items[|items| - 1].1]
  }

  /** The map holds exactly the items. */
  ghost predicate HoldsItems(m: Items, items: Listing) {
    && (forall i :: 0 <= i < |items| ==> items[i].0 in m && m[items[i].0] == items[i].1)
    && (forall k :: k in m ==> (k, m[k]) in items)
    && |m| == |items|
  }

  lemma FreshKey(m: Items, items: Listing, x: (AccountId, seq<byte>))
    requires HoldsItems(m, items) && Distinct(items + [x])
    ensures x.0 !in m
  {
    var longer := items + [x];
    forall k | k in m
      ensures k != x.0
    {
      var i :| 0 <= i < |items| && items[i] == (k, m[k]);
      assert longer[i].0 != longer[|items|].0;
    }
  }

  lemma OneLarger(m: Items, k: AccountId, v: seq<byte>)
    requires k !in m
    ensures |m[k := v]| == |m| + 1
  {
    assert m[k := v].Keys == m.Keys + {k};
    assert |m[k := v]| == |m[k := v].Keys| && |m| == |m.Keys|;
  }

  lemma HoldsOneMore(m: Items, items: Listing, x: (AccountId, seq<byte>))
    requires HoldsItems(m, items) && Distinct(items + [x])
    ensures HoldsItems(m[x.0 := x.1], items + [x])
  {
    FreshKey(m, items, x);
    OneLarger(m, x.0, x.1);
    var longer, larger := items + [x], m[x.0 := x.1];
    forall i | 0 <= i < |longer|
      ensures longer[i].0 in larger && larger[longer[i].0] == longer[i].1
    {
      assert i < |items| ==> items[i].0 in m && items[i].0 != x.0;
    }
    forall k | k in larger
      ensures (k, larger[k]) in longer
    {
      if k == x.0 {
        assert longer[|items|] == x;
      } else {
        assert (k, m[k]) in items;
      }
    }
  }

  lemma {:induction false} MapHoldsItems(items: Listing)
    requires Distinct(items)
    ensures HoldsItems(MapOf(items), items)
  {
    if items != [] {
      var rest, last := items[..|items| - 1], items[|items| - 1];
      assert items == rest + [last];
      MapHoldsItems(rest);
      HoldsOneMore(MapOf(rest), rest, last);
    }
  }

  lemma MapOfHolds(items: Listing)
    requires Distinct(items)
    ensures forall i :: 0 <= i < |items| ==> items[i].0 in MapOf(items) && MapOf(items)[items[i].0] == items[i].1
    ensures forall k :: k in MapOf(items) ==> (k, MapOf(items)[k]) in items
    ensures |MapOf(items)| == |items|
  {
    hide MapOf;
    MapHoldsItems(items);
  }

  /** Cells are filed under their own hash. */
  ghost predicate Keyed(cellMap: map<Hash, Cell<Hash>>) {
    forall h :: h in cellMap ==> cellMap[h] == h.cell
  }

  /** Splits the items by one bit of their keys, keeping their order. */
  method Partition(items: Listing, depth: nat) returns (left: Listing, right: Listing)
    requires Distinct(items) && depth < 256
    ensures Distinct(left) && MapOf(left) == Side(MapOf(items), depth, false)
    ensures Distinct(right) && MapOf(right) == Side(MapOf(items), depth, true)
    ensures forall x :: x in items <==> x in left || x in right
  {
    left, right := [], [];
    for i := 0 to |items|
      invariant Distinct(left) && Distinct(right)
      invariant forall x :: x in left <==> x in items[..i] && !BitAt(x.0, depth)
      invariant forall x :: x in right <==> x in items[..i] && BitAt(x.0, depth)
    {
      assert items[i] !in items[..i];
      assert forall x :: x in items[..i + 1] <==> x in items[..i] || x == items[i];
      if BitAt(items[i].0, depth) {
        right := right + [items[i]];
      } else {
        left := left + [items[i]];
      }
    }
    assert items[..|items|] == items;
    MapOfHolds(items);
    MapOfHolds(left);
    MapOfHolds(right);
    MapOfSide(items, left, depth, false);
    MapOfSide(items, right, depth, true);
  }

  lemma MapOfSide(items: Listing, side: Listing, depth: nat, bit: bool)
    requires Distinct(items) && Distinct(side) && depth < 256
    requires forall x :: x in side <==> x in items && BitAt(x.0, depth) == bit
    ensures MapOf(side) == Side(MapOf(items), depth, bit)
  {
    MapOfHolds(items);
    MapOfHolds(side);
    var m, n := MapOf(side), Side(MapOf(items), depth, bit);
    forall k
      ensures k in m <==> k in n
      ensures k in m ==> m[k] == n[k]
    {
      if k in m {
        assert (k, m[k]) in side;
      }
      if k in n {
        assert (k, n[k]) in items;
      }
    }
  }

  /** cellMap' is cellMap with the cells of the given hashes added. */
  ghost predicate Filed(cellMap: map<Hash, Cell<Hash>>, hashes: set<Hash>, cellMap': map<Hash, Cell<Hash>>) {
    Keyed(cellMap') && cellMap'.Keys == cellMap.Keys + hashes
  }

  method FileCell(cell: Cell<Hash>, cellMap: map<Hash, Cell<Hash>>, ghost before: map<Hash, Cell<Hash>>,
      ghost hashes: set<Hash>)
    returns (cellMap': map<Hash, Cell<Hash>>)
    requires Filed(before, hashes, cellMap)
    ensures Filed(before, hashes + {Digest(cell)}, cellMap')
  {
    cellMap' := cellMap[Digest(cell) := cell];
  }

  ghost function SetOf(refs: seq<Hash>): set<Hash> {
    set h | h in refs
  }

  lemma ChunkRefsStep(refs: seq<Hash>, rest: seq<byte>)
    requires rest != []
    ensures
      var chunk := Digest(ChunkCell(rest[..FirstChunk(rest)]));
      && (refs + [chunk]) + ChunkRefs(rest[FirstChunk(rest)..]) == refs + ChunkRefs(rest)
      && SetOf(refs + [chunk]) == SetOf(refs) + {chunk}
  {
  }

  /** The value in pieces of at most 128 bytes, each filed as a cell. */
  method StoreChunks(v: seq<byte>, cellMap: map<Hash, Cell<Hash>>)
    returns (refs: seq<Hash>, cellMap': map<Hash, Cell<Hash>>)
    requires Keyed(cellMap)
    ensures refs == ChunkRefs(v) && Filed(cellMap, SetOf(refs), cellMap')
  {
    refs, cellMap' := [], cellMap;
    var rest := v;
    assert refs + ChunkRefs(rest) == ChunkRefs(v);
    while rest != []
      invariant Filed(cellMap, SetOf(refs), cellMap')
      invariant refs + ChunkRefs(rest) == ChunkRefs(v)
      decreases |rest|
    {
      var chunk := ChunkCell(rest[..FirstChunk(rest)]);
      ChunkRefsStep(refs, rest);
      cellMap' := FileCell(chunk, cellMap', cellMap, SetOf(refs));
      refs := refs + [Digest(chunk)];
      rest := rest[FirstChunk(rest)..];
    }
    assert refs + [] == refs;
  }

  method BuildLeaf(key: AccountId, v: seq<byte>, cellMap: map<Hash, Cell<Hash>>)
    returns (r: Result<Cell<Hash>, TrieError>, cellMap': map<Hash, Cell<Hash>>)
    requires Keyed(cellMap)
    ensures r.Ok? <==> |v| <= MAX_VALUE
    ensures r.Ok? ==> r.value == LeafCell(key, v)
    ensures r.Ok? ==> Filed(cellMap, SetOf(ChunkRefs(v)) + {Digest(LeafCell(key, v))}, cellMap')
  {
    var refs;
    refs, cellMap' := StoreChunks(v, cellMap);
    if |refs| > MAX_CELL_REFS {
      return Err(TooManyReferences), cellMap';
    }
    var cell := Cell(key, refs, false);
    cellMap' := FileCell(cell, cellMap', cellMap, SetOf(refs));
    r := Ok(cell);
  }

  ghost predicate Storable(items: Listing) {
    forall i :: 0 <= i < |items| ==> |items[i].1| <= MAX_VALUE
  }

  lemma StorableSides(items: Listing, left: Listing, right: Listing)
    requires forall x :: x in items <==> x in left || x in right
    ensures Storable(items) <==> Storable(left) && Storable(right)
  {
    if Storable(items) {
      assert forall i :: 0 <= i < |left| ==> left[i] in items;
      assert forall i :: 0 <= i < |right| ==> right[i] in items;
    } else {
      var i :| 0 <= i < |items| && |items[i].1| > MAX_VALUE;
      assert items[i] in left || items[i] in right;
    }
  }

  lemma EmptyTrie(depth: nat)
    ensures TrieCell(map[], depth) == EmptyCell() && TrieHashes(map[], depth) == {Digest(EmptyCell())}
  {
  }

  lemma SingleTrie(items: Listing, depth: nat)
    requires Distinct(items) && |items| == 1
    ensures
      var (key, v) := items[0];
      && TrieCell(MapOf(items), depth) == LeafCell(key, v)
      && TrieHashes(MapOf(items), depth) == SetOf(ChunkRefs(v)) + {Digest(LeafCell(key, v))}
      && (Storable(items) <==> |v| <= MAX_VALUE)
  {
    MapOfHolds(items);
    SingletonKey(MapOf(items));
    assert items[0].0 == AnyKey(MapOf(items));
  }

  /** Builds the trie and files all its cells; it fails exactly when a value needs more than
      four chunks. */
  method BuildTrieCells(items: Listing, depth: nat, cellMap: map<Hash, Cell<Hash>>)
    returns (r: Result<Cell<Hash>, TrieError>, cellMap': map<Hash, Cell<Hash>>)
    requires Distinct(items) && AgreeBelow(MapOf(items), depth) && Keyed(cellMap)
    ensures r.Ok? <==> Storable(items)
    ensures r.Ok? ==> r.value == TrieCell(MapOf(items), depth)
    ensures r.Ok? ==> Filed(cellMap, TrieHashes(MapOf(items), depth), cellMap')
    decreases 256 - depth, 1
  {
    ghost var m := MapOf(items);
    MapOfHolds(items);
    if items == [] {
      EmptyTrie(depth);
      var cell := EmptyCell();
      cellMap' := FileCell(cell, cellMap, cellMap, {});
      r := Ok(cell);
    } else if |items| == 1 || depth >= 256 {
      if depth >= 256 {
        FullAgreementMeansOneKey(m, depth);
      }
      SingleTrie(items, depth);
      r, cellMap' := BuildLeaf(items[0].0, items[0].1, cellMap);
    } else {
      r, cellMap' := BuildBranch(items, depth, cellMap);
    }
  }

  method BuildBranch(items: Listing, depth: nat, cellMap: map<Hash, Cell<Hash>>)
    returns (r: Result<Cell<Hash>, TrieError>, cellMap': map<Hash, Cell<Hash>>)
    requires Distinct(items) && AgreeBelow(MapOf(items), depth) && Keyed(cellMap)
    requires |MapOf(items)| > 1 && depth < 256
    ensures r.Ok? <==> Storable(items)
    ensures r.Ok? ==> r.value == TrieCell(MapOf(items), depth)
    ensures r.Ok? ==> Filed(cellMap, TrieHashes(MapOf(items), depth), cellMap')
    decreases 256 - depth, 0
  {
    ghost var m := MapOf(items);
    SidesAgree(m, depth, false);
    SidesAgree(m, depth, true);
    TrieApart(m, depth);
    hide *;
    var left, right := Partition(items, depth);
    StorableSides(items, left, right);
    r, cellMap' := BuildTrieCells(left, depth + 1, cellMap);
    if r.Err? {
      return;
    }
    var leftCell := r.value;
    ghost var leftMap, leftHashes := cellMap', TrieHashes(Side(m, depth, false), depth + 1);
    FiledIsKeyed(cellMap, leftHashes, leftMap);
    r, cellMap' := BuildTrieCells(right, depth + 1, cellMap');
    if r.Err? {
      return;
    }
    ghost var rightHashes := TrieHashes(Side(m, depth, true), depth + 1);
    FiledTwice(cellMap, leftHashes, leftMap, rightHashes, cellMap');
    var cell := BranchCell(leftCell, r.value);
    cellMap' := FileCell(cell, cellMap', cellMap, leftHashes + rightHashes);
    r := Ok(cell);
  }

  lemma FiledIsKeyed(a: map<Hash, Cell<Hash>>, s: set<Hash>, b: map<Hash, Cell<Hash>>)
    requires Filed(a, s, b)
    ensures Keyed(b)
  {
  }

  lemma FiledTwice(a: map<Hash, Cell<Hash>>, s: set<Hash>, b: map<Hash, Cell<Hash>>, t: set<Hash>,
      c: map<Hash, Cell<Hash>>)
    requires Filed(a, s, b) && Filed(b, t, c)
    ensures Filed(a, s + t, c)
  {
  }

  // ---------- Finding an account ----------

  /** Where the bits of a key lead: a cell without data is a branch, whose first reference is for 0 and second for 1. */
  function Descend(c: Cell<Hash>, key: AccountId, depth: nat): Cell<Hash>
    decreases 256 - depth
  {
    if depth < 256 && c.data == [] && |c.refs| == 2 then
      Descend(c.refs[if BitAt(key, depth) then 1 else 0].cell, key, depth + 1)
    else c
  }

  lemma DescendsToSide(m: Items, key: AccountId, depth: nat)
    requires |m| > 1 && depth < 256
    ensures
      var bit := BitAt(key, depth);
      Descend(TrieCell(m, depth), key, depth) == Descend(TrieCell(Side(m, depth, bit), depth + 1), key, depth + 1)
  {
    hide Side, LeafCell;
  }

  /** Where the bits of a key lead: to its leaf, or for an absent key to the empty cell or a leaf of another key. */
  ghost predicate LeadsTo(end: Cell<Hash>, m: Items, key: AccountId) {
    if key in m then end == LeafCell(key, m[key])
    else end == EmptyCell() || exists other :: other in m && end == LeafCell(other, m[other])
  }

  lemma LeadsToInSide(end: Cell<Hash>, m: Items, key: AccountId, depth: nat)
    requires depth < 256 && LeadsTo(end, Side(m, depth, BitAt(key, depth)), key)
    ensures LeadsTo(end, m, key)
  {
    hide LeafCell;
    var side := Side(m, depth, BitAt(key, depth));
    assert key in side <==> key in m;
    if key !in m && end != EmptyCell() {
      var other :| other in side && end == LeafCell(other, side[other]);
      assert other in m && m[other] == side[other];
    }
  }

  lemma LeadsToOnly(m: Items, key: AccountId, depth: nat)
    requires AgreeBelow(m, depth) && depth <= 256 && (|m| <= 1 || depth == 256)
    ensures LeadsTo(Descend(TrieCell(m, depth), key, depth), m, key)
  {
    if depth == 256 {
      FullAgreementMeansOneKey(m, depth);
    }
    if |m| == 1 {
      SingletonKey(m);
    }
  }

  /** The bits of a key lead to its leaf, and those of an absent key to the empty cell or a leaf of another key. */
  lemma {:induction false} BitsLeadToLeaf(m: Items, key: AccountId, depth: nat)
    requires AgreeBelow(m, depth) && depth <= 256
    ensures LeadsTo(Descend(TrieCell(m, depth), key, depth), m, key)
    decreases 256 - depth
  {
    hide Descend, TrieCell, Side, LeadsTo, AgreeBelow;
    if |m| <= 1 || depth == 256 {
      LeadsToOnly(m, key, depth);
    } else {
      var bit := BitAt(key, depth);
      SidesAgree(m, depth, bit);
      BitsLeadToLeaf(Side(m, depth, bit), key, depth + 1);
      DescendsToSide(m, key, depth);
      LeadsToInSide(Descend(TrieCell(m, depth), key, depth), m, key, depth);
    }
  }

  /** The data of the cells referred to, one after the other. */
  function JoinedData(refs: seq<Hash>): seq<byte> {
    if refs == [] then [] else refs[0].cell.data + JoinedData(refs[1..])
  }

  lemma {:induction false} ChunksJoin(v: seq<byte>)
    ensures JoinedData(ChunkRefs(v)) == v
  {
    if v != [] {
      var n := FirstChunk(v);
      ChunksJoin(v[n..]);
      assert ChunkRefs(v)[1..] == ChunkRefs(v[n..]);
      assert v == v[..n] + v[n..];
    }
  }

  // ---------- The shard state tree ----------

  function Encoded(accounts: map<AccountId, AccountState>): Items {
    map a | a in accounts :: accounts[a].ToBytes()
  }

  ghost function StateRoot(accounts: map<AccountId, AccountState>): Hash {
    Digest(TrieCell(Encoded(accounts), 0))
  }

  lemma EqualEncodings(a: map<AccountId, AccountState>, b: map<AccountId, AccountState>)
    requires Encoded(a) == Encoded(b)
    ensures a == b
  {
    hide AccountState.ToBytes;
    assert a.Keys == Encoded(a).Keys == b.Keys;
    forall k | k in a
      ensures a[k] == b[k]
    {
      assert Encoded(a)[k] == Encoded(b)[k];
      EncodingIsInjective(a[k], b[k]);
    }
  }

  lemma NoBitsAgree(m: Items)
    ensures AgreeBelow(m, 0)
  {
  }

  /** Equal state roots mean equal account maps. */
  lemma StateRootCommits(a: map<AccountId, AccountState>, b: map<AccountId, AccountState>)
    requires StateRoot(a) == StateRoot(b)
    ensures a == b
  {
    hide TrieCell, Encoded, AgreeBelow;
    NoBitsAgree(Encoded(a));
    NoBitsAgree(Encoded(b));
    TrieIsInjective(Encoded(a), Encoded(b), 0);
    EqualEncodings(a, b);
  }

  /** From the state root an account is found along the bits of its identifier, with its whole record. */
  lemma StateRootLeadsToAccounts(accounts: map<AccountId, AccountState>, a: AccountId)
    ensures
      var end := Descend(StateRoot(accounts).cell, a, 0);
      && (a in accounts ==> end.data == a && JoinedData(end.refs) == accounts[a].ToBytes())
      && (a !in accounts ==> end.data != a)
  {
    var m := Encoded(accounts);
    BitsLeadToLeaf(m, a, 0);
    if a in accounts {
      ChunksJoin(m[a]);
    }
  }

  lemma ListOneMore(items: Listing, done: map<AccountId, AccountState>, a: AccountId, state: AccountState)
    requires Distinct(items) && MapOf(items) == Encoded(done) && a !in done
    ensures
      var longer := items + [(a, state.ToBytes())];
      Distinct(longer) && MapOf(longer) == Encoded(done[a := state])
  {
    MapOfHolds(items);
    var longer := items + [(a, state.ToBytes())];
    assert longer[..|items|] == items;
    assert Encoded(done[a := state]) == Encoded(done)[a := state.ToBytes()];
  }

  method ListItems(accounts: map<AccountId, AccountState>) returns (items: Listing)
    ensures Distinct(items) && MapOf(items) == Encoded(accounts) && Storable(items)
  {
    items := [];
    var rest := accounts.Keys;
    ghost var done: map<AccountId, AccountState> := map[];
    while rest != {}
      invariant Distinct(items) && Storable(items) && MapOf(items) == Encoded(done)
      invariant rest <= accounts.Keys && done == accounts - rest
      decreases |rest|
    {
      var a :| a in rest;
      ListOneMore(items, done, a, accounts[a]);
      items := items + [(a, accounts[a].ToBytes())];
      rest := rest - {a};
      done := done[a := accounts[a]];
    }
    assert accounts - rest == accounts;
  }

  datatype MerkleProof = MerkleProof(targetKey: AccountId, rootHash: Hash, proofBoc: BagOfCells<Hash>)

  /** Every reference leads to a part of the cell, so the cells on a path get smaller. */
  lemma {:induction false} PathDescends(cells: map<Hash, Cell<Hash>>, p: seq<Hash>)
    requires Keyed(cells) && IsPath(ReferenceGraph(cells), p)
    ensures p[|p| - 1] == p[0] || p[|p| - 1] < p[0]
  {
    if |p| > 1 {
      forall i | 0 <= i < |p[1..]| - 1
        ensures Edge(ReferenceGraph(cells), p[1..][i], p[1..][i + 1])
      {
        assert Edge(ReferenceGraph(cells), p[i + 1], p[i + 2]);
      }
      PathDescends(cells, p[1..]);
      EdgeDescends(cells, p[0], p[1]);
    }
  }

  lemma EdgeDescends(cells: map<Hash, Cell<Hash>>, v: Hash, w: Hash)
    requires Keyed(cells) && Edge(ReferenceGraph(cells), v, w)
    ensures w < v
  {
    var refs := v.cell.refs;
    var i :| 0 <= i < |refs| && refs[i] == w;
  }

  /** Cells filed under their own hash have no cycle. */
  lemma KeyedHasNoCycle(cells: map<Hash, Cell<Hash>>, root: Hash)
    requires Keyed(cells)
    ensures !CycleReachable(ReferenceGraph(cells), root)
  {
    var g := ReferenceGraph(cells);
    forall v, w | Edge(g, v, w)
      ensures !Reaches(g, w, v)
    {
      EdgeDescends(cells, v, w);
      forall p | IsPath(g, p) && p[0] == w
        ensures p[|p| - 1] != v
      {
        PathDescends(cells, p);
      }
    }
  }

  class ShardStateTree {
    var accounts: map<AccountId, AccountState>

    constructor ()
      ensures accounts == map[]
    {
      accounts := map[];
    }

    method Insert(a: AccountId, state: AccountState)
      modifies this
      ensures accounts == old(accounts)[a := state]
    {
      accounts := accounts[a := state];
    }

    method StateRootHash() returns (root: Hash)
      ensures root == StateRoot(accounts)
    {
      var items := ListItems(accounts);
      var cell, _ := BuildTrieCells(items, 0, map[]);
      root := Digest(cell.value);
    }

    /** The root and all cells of the trie, filed by hash and checked for cycles. */
    method GenerateProof(target: AccountId) returns (r: Result<MerkleProof, BocError>)
      ensures r.Ok? && r.value.targetKey == target && r.value.rootHash == StateRoot(accounts)
      ensures fresh(r.value.proofBoc) && r.value.proofBoc.rootHash == StateRoot(accounts)
      ensures Keyed(r.value.proofBoc.cells) && r.value.proofBoc.cells.Keys == TrieHashes(Encoded(accounts), 0)
    {
      hide TrieHashes, TrieCell, Encoded, CycleReachable, ReferenceGraph, MapOf, Distinct, Storable;
      var items := ListItems(accounts);
      var cell, cellMap := BuildTrieCells(items, 0, map[]);
      var rootHash := Digest(cell.value);
      RootIsEmitted(Encoded(accounts), 0);
      KeyedHasNoCycle(cellMap, rootHash);
      var proofBoc := BagOfCells<Hash>.New(rootHash, cellMap);
      return Ok(MerkleProof(target, rootHash, proofBoc.value));
    }
  }
}
