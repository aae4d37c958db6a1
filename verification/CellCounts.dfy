/**
 Reference-counted cells in the state store (crates/protocol/onx-state-model/src/storage.rs).

 Retaining a root adds one to the count of every cell below it.  Releasing a root takes one
 from its count and goes on to its children only where the count falls to zero, in which case
 the cell is removed.  Both walks edit a batch, and read through it.

 Identifiers and the hash function are arbitrary: nothing here assumes that hashes do not
 collide or that the references are acyclic.
 */
module CellCounts {
  import opened Wrappers
  import opened Bytes
  import opened Graphs
  import opened Cells
  import opened Journals
  import opened ShardIdents
  import opened AccountStates

  datatype BlockHeader<Id> = BlockHeader(shard: ShardIdent, stateRootHash: Id, rest: seq<byte>)

  /** A file of the store: column family and key. */
  datatype Key<Id> =
    | CellKey(hash: Id)
    | AccountKey(shard: ShardIdent, account: AccountId)
    | HeaderKey(header: BlockHeader<Id>)
    | RootKey(shard: ShardIdent)

  datatype Value<Id> =
    | CellRecord(count: nat, cell: Cell<Id>)
    | AccountRecord(state: AccountState)
    | HeaderRecord(header: BlockHeader<Id>)
    | RootRecord(root: Id)

  type Files<Id(==)> = map<Key<Id>, Value<Id>>

  datatype Batch<Id> = Batch(puts: seq<(Key<Id>, Value<Id>)>, removes: seq<Key<Id>>)

  datatype Corruption = InvalidRecord | Absent | Overflow | Underflow | HashCollision

  // ---------- Reading through a batch ----------

  /** The files with the writes of a batch laid over them. */
  ghost function View<Id(!new)>(files: Files<Id>, puts: seq<(Key<Id>, Value<Id>)>): Files<Id> {
    if puts == [] then files
    else View(files, puts[..|puts| - 1])[puts[|puts| - 1].0 := puts[|puts| - 1].1]
  }

  /** The last write to key in a batch. */
  function Latest<Id(==,!new)>(puts: seq<(Key<Id>, Value<Id>)>, key: Key<Id>): Option<Value<Id>> {
    if puts == [] then None
    else if puts[|puts| - 1].0 == key then Some(puts[|puts| - 1].1)
    else Latest(puts[..|puts| - 1], key)
  }

  lemma {:induction false} ViewIsLatest<Id(!new)>(files: Files<Id>, puts: seq<(Key<Id>, Value<Id>)>, key: Key<Id>)
    ensures
      var latest := Latest(puts, key);
      var view := View(files, puts);
      && (latest.Some? ==> key in view && view[key] == latest.value)
      && (latest.None? ==> (key in view <==> key in files) && (key in files ==> view[key] == files[key]))
  {
    if puts != [] {
      ViewIsLatest(files, puts[..|puts| - 1], key);
    }
  }

  lemma ViewPut<Id(!new)>(files: Files<Id>, puts: seq<(Key<Id>, Value<Id>)>, key: Key<Id>, value: Value<Id>)
    ensures View(files, puts + [(key, value)]) == View(files, puts)[key := value]
  {
    assert (puts + [(key, value)])[..|puts|] == puts;
  }

  function Read<Id(==,!new)>(files: Files<Id>, puts: seq<(Key<Id>, Value<Id>)>, key: Key<Id>): (r: Option<Value<Id>>)
    ensures r == if key in View(files, puts) then Some(View(files, puts)[key]) else None
  {
    ViewIsLatest(files, puts, key);
    var latest := Latest(puts, key);
    if latest.Some? then latest
    else if key in files then Some(files[key]) else None
  }

  // ---------- Cells and their graph ----------

  /** A cell record that reads back: the cell hashes to its key. */
  predicate Holds<Id(==,!new)>(hash: Cell<Id> -> Id, files: Files<Id>, h: Id) {
    CellKey(h) in files && files[CellKey(h)].CellRecord? && hash(files[CellKey(h)].cell) == h
  }

  function CellIds<Id(==,!new)>(files: Files<Id>): set<Id> {
    set k | k in files && k.CellKey? && files[k].CellRecord? :: k.hash
  }

  function Count<Id(==,!new)>(files: Files<Id>, h: Id): nat
    requires h in CellIds(files)
  {
    files[CellKey(h)].count
  }

  ghost function RefGraph<Id(!new)>(files: Files<Id>): Graph<Id> {
    map h | h in CellIds(files) :: files[CellKey(h)].cell.refs
  }

  /** The edges a walk follows: all of them upwards, and downwards those of cells counted once. */
  ghost function WalkGraph<Id(!new)>(files: Files<Id>, up: bool): Graph<Id> {
    map h | h in CellIds(files) :: if up || Count(files, h) == 1 then files[CellKey(h)].cell.refs else []
  }

  /** A walk fails at this cell. */
  ghost predicate Blocked<Id(!new)>(hash: Cell<Id> -> Id, files: Files<Id>, up: bool, h: Id) {
    !Holds(hash, files, h) || (if up then Count(files, h) >= U64_MAX else Count(files, h) == 0)
  }

  /** One more, or one less, for every cell in s; a cell counted once keeps its record here. */
  ghost function Shifted<Id(!new)>(files: Files<Id>, s: set<Id>, up: bool): Files<Id> {
    map k | k in files ::
      if k.CellKey? && k.hash in s && files[k].CellRecord? && (up || files[k].count > 1)
      then CellRecord(if up then files[k].count + 1 else files[k].count - 1, files[k].cell)
      else files[k]
  }

  /** The cells in s that are counted once. */
  ghost function Dropped<Id(!new)>(files: Files<Id>, s: set<Id>): set<Key<Id>> {
    set k | k in files && k.CellKey? && k.hash in s && files[k].CellRecord? && files[k].count == 1
  }

  /** What a walk over the cells in s leaves in the batch that was b. */
  ghost predicate Walked<Id(!new)>(files: Files<Id>, start: Files<Id>, up: bool, s: set<Id>, b: Batch<Id>,
      b': Batch<Id>)
  {
    && View(files, b'.puts) == Shifted(start, s, up)
    && (forall k :: k in b'.removes <==> k in b.removes || (!up && k in Dropped(start, s)))
    && (forall k :: Latest(b'.puts, k).Some? ==>
         Latest(b.puts, k).Some? || (k.CellKey? && k.hash in s && (up || k !in Dropped(start, s))))
    && (forall k :: Latest(b.puts, k).Some? ==> Latest(b'.puts, k).Some?)
  }

  lemma WalkedOneMore<Id(!new)>(files: Files<Id>, start: Files<Id>, up: bool, s: set<Id>, b: Batch<Id>, b': Batch<Id>,
    h: Id)
    requires Walked(files, start, up, s, b, b') && h !in s && h in CellIds(start)
    requires up || Count(start, h) > 0
    ensures
      var c := start[CellKey(h)].cell;
      var n := Count(start, h);
      var b'' := if up then b'.(puts := b'.puts + [(CellKey(h), CellRecord(n + 1, c))])
                 else if n == 1 then b'.(removes := b'.removes + [CellKey(h)])
                 else b'.(puts := b'.puts + [(CellKey(h), CellRecord(n - 1, c))]);
      Walked(files, start, up, s + {h}, b, b'')
  {
    var c, n, key := start[CellKey(h)].cell, Count(start, h), CellKey(h);
    ShiftedOneMore(start, up, s, h);
    if up || n > 1 {
      var value := CellRecord(if up then n + 1 else n - 1, c);
      ViewPut(files, b'.puts, key, value);

      var puts := b'.puts + [(key, value)];
      assert puts[..|puts| - 1] == b'.puts;
      assert forall k :: Latest(puts, k).Some? ==> k == key || Latest(b'.puts, k).Some?;
    }
  }

  lemma ShiftedOneMore<Id(!new)>(start: Files<Id>, up: bool, s: set<Id>, h: Id)
    requires h !in s && h in CellIds(start) && (up || Count(start, h) > 0)
    ensures
      var c, n := start[CellKey(h)].cell, Count(start, h);
      Shifted(start, s + {h}, up)
      == if up || n > 1 then Shifted(start, s, up)[CellKey(h) := CellRecord(if up then n + 1 else n - 1, c)]
         else Shifted(start, s, up)
  {
    var c, n, key := start[CellKey(h)].cell, Count(start, h), CellKey(h);
    if up || n > 1 {
      assert Shifted(start, s + {h}, up) == Shifted(start, s, up)[key := CellRecord(if up then n + 1 else n - 1, c)];
    } else {
      assert Shifted(start, s + {h}, up) == Shifted(start, s, up);
    }
  }

  /** Adjusts one cell.  The references to follow are the edges of the walk. */
  method AdjustOne<Id(==,!new)>(hash: Cell<Id> -> Id, files: Files<Id>, h: Id, up: bool, b: Batch<Id>,
    ghost seen: set<Id>, ghost start: Files<Id>, ghost before: Batch<Id>)
    returns (r: Result<seq<Id>, Corruption>, b': Batch<Id>)
    requires Walked(files, start, up, seen, before, b) && h !in seen
    ensures r.Ok? <==> !Blocked(hash, start, up, h)
    ensures r.Ok? ==> h in CellIds(start) && h in WalkGraph(start, up) && WalkGraph(start, up)[h] == r.value
    ensures r.Ok? ==> Walked(files, start, up, seen + {h}, before, b')
  {
    b' := b;
    var found := Read(files, b.puts, CellKey(h));
    if found.None? {
      return Err(Absent), b';
    }
    assert start[CellKey(h)] == found.value;
    if !found.value.CellRecord? || hash(found.value.cell) != h {
      return Err(InvalidRecord), b';
    }
    var CellRecord(n, c) := found.value;
    if up && n >= U64_MAX {
      return Err(Overflow), b';
    }
    if !up && n == 0 {
      return Err(Underflow), b';
    }
    WalkedOneMore(files, start, up, seen, before, b, h);
    if up {
      b' := b.(puts := b.puts + [(CellKey(h), CellRecord(n + 1, c))]);
    } else if n == 1 {
      b' := b.(removes := b.removes + [CellKey(h)]);
    } else {
      b' := b.(puts := b.puts + [(CellKey(h), CellRecord(n - 1, c))]);
    }
    r := Ok(if up || n == 1 then c.refs else []);
  }

  /** What is known of the cells a walk from root has seen. */
  ghost predicate Sound<Id(!new)>(hash: Cell<Id> -> Id, start: Files<Id>, up: bool, root: Id, seen: set<Id>) {
    forall c :: c in seen ==> Reaches(WalkGraph(start, up), root, c) && !Blocked(hash, start, up, c)
  }

  /** All edges from the cells in s end in t. */
  ghost predicate EdgesInto<Id(!new)>(g: Graph<Id>, s: set<Id>, t: set<Id>) {
    forall v, w :: v in s && Edge(g, v, w) ==> w in t
  }

  /** The recursive walk; seen marks the cells already adjusted.  It ends on every graph. */
  method AdjustCell<Id(==,!new)>(hash: Cell<Id> -> Id, files: Files<Id>, h: Id, up: bool, seen: set<Id>, b: Batch<Id>,
    ghost start: Files<Id>, ghost root: Id, ghost before: Batch<Id>)
    returns (r: Result<(), Corruption>, seen': set<Id>, b': Batch<Id>)
    requires Walked(files, start, up, seen, before, b)
    requires Reaches(WalkGraph(start, up), root, h) && Sound(hash, start, up, root, seen)
    ensures r.Ok? ==> seen <= seen' && h in seen' && Walked(files, start, up, seen', before, b')
    ensures r.Ok? ==> Sound(hash, start, up, root, seen')
    ensures r.Ok? ==> EdgesInto(WalkGraph(start, up), seen' - seen, seen')
    ensures r.Err? ==> exists c :: Reaches(WalkGraph(start, up), root, c) && Blocked(hash, start, up, c)
    decreases CellIds(start) - seen
  {
    ghost var g := WalkGraph(start, up);
    hide Walked;
    seen', b' := seen, b;
    if h in seen {
      return Ok(()), seen', b';
    }
    seen' := seen + {h};
    var follow;
    follow, b' := AdjustOne(hash, files, h, up, b, seen, start, before);
    if follow.Err? {
      return Err(follow.error), seen', b';
    }
    var refs := follow.value;
    var i := 0;
    while i < |refs|
      invariant 0 <= i <= |refs|
      invariant seen + {h} <= seen' && Walked(files, start, up, seen', before, b')
      invariant Sound(hash, start, up, root, seen')
      invariant EdgesInto(g, seen' - seen - {h}, seen')
      invariant forall j :: 0 <= j < i ==> refs[j] in seen'
    {
      assert Edge(g, h, refs[i]);
      ReachesStep(g, root, h, refs[i]);
      r, seen', b' := AdjustCell(hash, files, refs[i], up, seen', b', start, root, before);
      if r.Err? {
        return;
      }
      i := i + 1;
    }
    r := Ok(());
  }

  /** Nothing that the walk from root reaches blocks it. */
  ghost predicate IsFree<Id(!new)>(hash: Cell<Id> -> Id, start: Files<Id>, up: bool, root: Id) {
    forall c :: Reaches(WalkGraph(start, up), root, c) ==> !Blocked(hash, start, up, c)
  }

  /** A whole walk: it adjusts exactly the cells reachable along its edges, and fails exactly
      when one of them blocks it. */
  method Walk<Id(==,!new)>(hash: Cell<Id> -> Id, files: Files<Id>, root: Id, up: bool, b: Batch<Id>)
    returns (r: Result<(), Corruption>, ghost s: set<Id>, b': Batch<Id>)
    ensures r.Ok? <==> IsFree(hash, View(files, b.puts), up, root)
    ensures r.Ok? ==> IsClosure(WalkGraph(View(files, b.puts), up), root, s)
    ensures r.Ok? ==> Walked(files, View(files, b.puts), up, s, b, b')
  {
    ghost var start := View(files, b.puts);
    ghost var g := WalkGraph(start, up);
    ReachesSelf(g, root);
    assert Shifted(start, {}, up) == start;
    var seen;
    r, seen, b' := AdjustCell(hash, files, root, up, {}, b, start, root, b);
    s := seen;
    if r.Ok? {
      ClosedReachableIsClosure(g, root, s);
    }
  }
}
